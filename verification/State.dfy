/** The persisted firewall state and its strict reader
    (scripts/cloudflare_docker_firewall.py). */
module PersistedState {
  import opened Wrappers
  import opened Cidrs
  import opened Ranges

  /** JSON values, as `json.loads` gives them and as far as the reader looks into
      them: a number with a fraction or an exponent is a float, here its exact value
      or NaN or an infinity. A string is either the text of a network with its prefix
      length, which for its slash no interface name and no hash is, or any other text,
      an address without a prefix length included. */
  datatype Json =
    | Null
    | Bool(b: bool)
    | Int(n: int)
    | Float(x: real)
    | NotFinite
    | Str(s: string)
    | RangeStr(line: Line)
    | List(items: seq<Json>)
    | Obj(fields: map<string, Json>)

  datatype FirewallState = FirewallState(
    iface4: string,
    iface6: string,
    ranges4: seq<Cidr>,
    ranges6: seq<Cidr>,
    hashes: map<string, string>)

  const FIELDS: set<string> := {
    "schema_version", "ipv4_interface", "ipv6_interface",
    "ipv4_ranges", "ipv6_ranges", "ports", "source_hashes"
  }

  const PORTS: seq<nat> := [80, 443]

  const HASH_FIELDS: set<string> := {"ipv4_sha256", "ipv6_sha256"}

  predicate InterfaceChar(c: char) {
    'A' <= c <= 'Z' || 'a' <= c <= 'z' || '0' <= c <= '9' || c in "_.:-"
  }

  /** `validate_interface` */
  predicate ValidInterface(name: string) {
    1 <= |name| <= 15 && (forall i :: 0 <= i < |name| ==> InterfaceChar(name[i])) && name != "lo"
  }

  predicate ValidHash(text: string) {
    |text| == 64 && forall i :: 0 <= i < |text| ==> 'a' <= text[i] <= 'f' || '0' <= text[i] <= '9'
  }

  /** Interface names and digests, spelled out. */
  lemma Spellings(text: string)
    ensures ValidInterface(text) <==>
            && text != "lo" && 1 <= |text| <= 15
            && forall c :: c in text ==>
                || c in "ABCDEFGHIJKLMNOPQRSTUVWXYZ" || c in "abcdefghijklmnopqrstuvwxyz"
                || c in "0123456789" || c in "_.:-"
    ensures ValidHash(text) <==> |text| == 64 && forall c :: c in text ==> c in "0123456789abcdef"
  {
    forall c: char ensures 'A' <= c <= 'Z' <==> c in "ABCDEFGHIJKLMNOPQRSTUVWXYZ" {
    }
    forall c: char ensures 'a' <= c <= 'z' <==> c in "abcdefghijklmnopqrstuvwxyz" {
    }
    forall c: char ensures '0' <= c <= '9' <==> c in "0123456789" {
    }
    forall c: char ensures 'a' <= c <= 'f' || '0' <= c <= '9' <==> c in "0123456789abcdef" {
    }
    assert forall i :: 0 <= i < |text| ==> text[i] in text;
  }

  function ToJson(state: FirewallState): Json {
    Obj(map[
      "schema_version" := Int(1),
      "ipv4_interface" := Str(state.iface4),
      "ipv6_interface" := Str(state.iface6),
      "ipv4_ranges" := RangesJson(state.ranges4),
      "ipv6_ranges" := RangesJson(state.ranges6),
      "ports" := List([Int(80), Int(443)]),
      "source_hashes" := HashesJson(state.hashes)])
  }

  function RangesJson(ranges: seq<Cidr>): Json {
    List(seq(|ranges|, i requires 0 <= i < |ranges| => RangeStr(Net(ranges[i], Exact))))
  }

  function HashesJson(hashes: map<string, string>): Json {
    Obj(map key | key in hashes :: Str(hashes[key]))
  }

  /** Python's `==` between a JSON value and an integer; `1.0 == 1` and `True == 1`. */
  predicate EqualsInt(value: Json, n: int) {
    match value
    case Int(m) => m == n
    case Float(x) => x == n as real
    case Bool(b) => n == if b then 1 else 0
    case _ => false
  }

  /** `raw["ports"] != list(PORTS)`, negated. */
  predicate EqualsPorts(value: Json) {
    && value.List?
    && |value.items| == |PORTS|
    && forall i :: 0 <= i < |PORTS| ==> EqualsInt(value.items[i], PORTS[i])
  }

  predicate IsText(value: Json) {
    value.Str? || value.RangeStr?
  }

  predicate IsTextList(value: Json) {
    value.List? && forall i :: 0 <= i < |value.items| ==> IsText(value.items[i])
  }

  /** The lines `validate_ranges` sees for a list of strings. A string that is not
      the text of a network with its prefix length (`10.0.0.1` is read as a network
      but is not the canonical text of one), or that contains a line break, never
      survives the comparison with the validated list, so it is a malformed line here. */
  function LinesOf(items: seq<Json>): (lines: seq<Line>)
    ensures |lines| == |items|
  {
    seq(|items|, i requires 0 <= i < |items| => if items[i].RangeStr? then items[i].line else Malformed)
  }

  predicate ValidHashes(value: Json) {
    && value.Obj?
    && value.fields.Keys == HASH_FIELDS
    && forall key :: key in value.fields ==> value.fields[key].Str? && ValidHash(value.fields[key].s)
  }

  /** What `parse_state` returns for a decoded JSON value; None where it raises. */
  function Parsed(raw: Json, isGlobal: Cidr -> bool): Option<FirewallState> {
    if !raw.Obj? || raw.fields.Keys != FIELDS then None else
    var f := raw.fields;
    if !EqualsInt(f["schema_version"], 1) || !EqualsPorts(f["ports"]) then None else
    if !f["ipv4_interface"].Str? || !ValidInterface(f["ipv4_interface"].s) then None else
    if !f["ipv6_interface"].Str? || !ValidInterface(f["ipv6_interface"].s) then None else
    if !IsTextList(f["ipv4_ranges"]) || !IsTextList(f["ipv6_ranges"]) then None else
    var r4 := Validated(LinesOf(f["ipv4_ranges"].items), V4, isGlobal);
    var r6 := Validated(LinesOf(f["ipv6_ranges"].items), V6, isGlobal);
    if r4.None? || r6.None? then None else
    if f["ipv4_ranges"] != RangesJson(r4.value) || f["ipv6_ranges"] != RangesJson(r6.value) then None else
    if !ValidHashes(f["source_hashes"]) then None else
    var hashes := f["source_hashes"].fields;
    Some(FirewallState(
      f["ipv4_interface"].s, f["ipv6_interface"].s, r4.value, r6.value,
      map key | key in hashes :: if hashes[key].Str? then hashes[key].s else ""))
  }

  ghost predicate ValidState(state: FirewallState, isGlobal: Cidr -> bool) {
    && ValidInterface(state.iface4)
    && ValidInterface(state.iface6)
    && ValidList(state.ranges4, V4, isGlobal)
    && ValidList(state.ranges6, V6, isGlobal)
    && state.hashes.Keys == HASH_FIELDS
    && forall key :: key in state.hashes ==> ValidHash(state.hashes[key])
  }

  lemma LinesOfRangesJson(ranges: seq<Cidr>)
    ensures IsTextList(RangesJson(ranges))
    ensures LinesOf(RangesJson(ranges).items) == ExactLines(ranges)
  {
  }

  const VERSIONS := {Int(1), Float(1.0), Bool(true)}

  function PortForms(port: nat): set<Json> {
    {Int(port), Float(port as real)}
  }

  /** The forms in which a state passes: as written, but the version also as `1.0` or
      `true`, and each port also as a float. */
  ghost predicate Written(raw: Json, state: FirewallState) {
    && raw.Obj?
    && raw.fields.Keys == FIELDS
    && raw.fields["schema_version"] in VERSIONS
    && raw.fields["ports"].List?
    && |raw.fields["ports"].items| == 2
    && raw.fields["ports"].items[0] in PortForms(80)
    && raw.fields["ports"].items[1] in PortForms(443)
    && raw.fields["schema_version" := Int(1)]["ports" := List([Int(80), Int(443)])] == ToJson(state).fields
  }

  lemma NumberForms(version: Json, ports: Json)
    ensures EqualsInt(version, 1) <==> version in VERSIONS
    ensures EqualsPorts(ports) <==>
            && ports.List? && |ports.items| == 2
            && ports.items[0] in PortForms(80) && ports.items[1] in PortForms(443)
  {
    if EqualsPorts(ports) {
      assert EqualsInt(ports.items[0], PORTS[0]) && EqualsInt(ports.items[1], PORTS[1]);
    }
  }

  lemma FieldsAsWritten(raw: Json, state: FirewallState, key: string)
    requires Written(raw, state) && key in FIELDS && key !in {"schema_version", "ports"}
    ensures raw.fields[key] == ToJson(state).fields[key]
  {
    var g := raw.fields["schema_version" := Int(1)]["ports" := List([Int(80), Int(443)])];
    assert g[key] == raw.fields[key];
  }

  /** Reading any written form of a valid state gives that state. */
  lemma WrittenIsRead(raw: Json, state: FirewallState, isGlobal: Cidr -> bool)
    requires ValidState(state, isGlobal) && Written(raw, state)
    ensures Parsed(raw, isGlobal) == Some(state)
  {
    var f := raw.fields;
    NumberForms(f["schema_version"], f["ports"]);
    forall key | key in FIELDS && key !in {"schema_version", "ports"} ensures f[key] == ToJson(state).fields[key] {
      FieldsAsWritten(raw, state, key);
    }
    LinesOfRangesJson(state.ranges4);
    LinesOfRangesJson(state.ranges6);
    ValidationIsIdempotent(state.ranges4, V4, isGlobal);
    ValidationIsIdempotent(state.ranges6, V6, isGlobal);
    HashesRead(state);
  }

  lemma HashesRead(state: FirewallState)
    requires state.hashes.Keys == HASH_FIELDS && forall key :: key in state.hashes ==> ValidHash(state.hashes[key])
    ensures var hashes := HashesJson(state.hashes);
            && ValidHashes(hashes)
            && (map key | key in hashes.fields :: if hashes.fields[key].Str? then hashes.fields[key].s else "")
                == state.hashes
  {
    var hashes := HashesJson(state.hashes).fields;
    assert hashes.Keys == state.hashes.Keys;
  }

  /** Reading back what was written gives the state that was written. */
  lemma StateRoundTrip(state: FirewallState, isGlobal: Cidr -> bool)
    requires ValidState(state, isGlobal)
    ensures Parsed(ToJson(state), isGlobal) == Some(state)
  {
    var f := ToJson(state).fields;
    assert f.Keys == FIELDS;
    assert f["schema_version" := Int(1)]["ports" := List([Int(80), Int(443)])] == f;
    WrittenIsRead(ToJson(state), state, isGlobal);
  }

  lemma ParsedIsValid(raw: Json, isGlobal: Cidr -> bool)
    requires Parsed(raw, isGlobal).Some?
    ensures ValidState(Parsed(raw, isGlobal).value, isGlobal)
  {
    var f := raw.fields;
    ValidatedIsCanonical(LinesOf(f["ipv4_ranges"].items), V4, isGlobal);
    ValidatedIsCanonical(LinesOf(f["ipv6_ranges"].items), V6, isGlobal);
  }

  lemma HashesAreWritten(value: Json)
    requires ValidHashes(value)
    ensures HashesJson(map key | key in value.fields :: if value.fields[key].Str? then value.fields[key].s else "")
        == value
  {
    var hashes := map key | key in value.fields :: if value.fields[key].Str? then value.fields[key].s else "";
    assert HashesJson(hashes).fields == value.fields;
  }

  /** The reader accepts nothing but the written forms of valid states. */
  lemma ParseAcceptsOnlyWrittenStates(raw: Json, isGlobal: Cidr -> bool)
    requires Parsed(raw, isGlobal).Some?
    ensures ValidState(Parsed(raw, isGlobal).value, isGlobal)
    ensures Written(raw, Parsed(raw, isGlobal).value)
  {
    hide Validated, RangesJson, ValidHashes, EqualsPorts, HashesJson, ValidInterface, ValidState, IsTextList, LinesOf;
    ParsedIsValid(raw, isGlobal);
    var f := raw.fields;
    var state := Parsed(raw, isGlobal).value;
    NumberForms(f["schema_version"], f["ports"]);
    HashesAreWritten(f["source_hashes"]);
    var g, w := f["schema_version" := Int(1)]["ports" := List([Int(80), Int(443)])], ToJson(state).fields;
    assert g.Keys == FIELDS == w.Keys;
    forall key | key in FIELDS ensures g[key] == w[key] {
    }
  }

  /** Reading succeeds with a state exactly on its written forms. */
  lemma ReadExactlyIfWritten(raw: Json, isGlobal: Cidr -> bool)
    ensures forall s :: Parsed(raw, isGlobal) == Some(s) <==> ValidState(s, isGlobal) && Written(raw, s)
  {
    hide Parsed, ValidState, Written;
    forall s ensures Parsed(raw, isGlobal) == Some(s) <==> ValidState(s, isGlobal) && Written(raw, s) {
      if Parsed(raw, isGlobal) == Some(s) {
        ParseAcceptsOnlyWrittenStates(raw, isGlobal);
      }
      if ValidState(s, isGlobal) && Written(raw, s) {
        WrittenIsRead(raw, s, isGlobal);
      }
    }
  }

  /** So the exact comparison the schema check looks like is not made: a version `1.0`
      with ports `80.0` and `443.0` is read like the written file. */
  lemma FloatsAreAccepted(state: FirewallState, isGlobal: Cidr -> bool)
    requires ValidState(state, isGlobal)
    ensures var fields := ToJson(state).fields;
            Parsed(Obj(fields["schema_version" := Float(1.0)]["ports" := List([Float(80.0), Float(443.0)])]), isGlobal)
            == Some(state)
  {
    var fields := ToJson(state).fields;
    var floats := fields["schema_version" := Float(1.0)]["ports" := List([Float(80.0), Float(443.0)])];
    assert floats.Keys == FIELDS;
    assert floats["schema_version" := Int(1)]["ports" := List([Int(80), Int(443)])] == fields;
    WrittenIsRead(Obj(floats), state, isGlobal);
  }

  /** A state, and only that state, is read from each of its written forms; whatever
      is no written form of a valid state is rejected. */
  method ParseState(raw: Json, isGlobal: Cidr -> bool) returns (state: Option<FirewallState>)
    ensures state == Parsed(raw, isGlobal)
    ensures forall s :: state == Some(s) <==> ValidState(s, isGlobal) && Written(raw, s)
  {
    hide Acceptable, ValidState, Written;
    ReadExactlyIfWritten(raw, isGlobal);
    if !raw.Obj? || raw.fields.Keys != FIELDS {
      return None;
    }
    var f := raw.fields;
    if !EqualsInt(f["schema_version"], 1) || !EqualsPorts(f["ports"]) {
      return None;
    }
    if !f["ipv4_interface"].Str? || !ValidInterface(f["ipv4_interface"].s) {
      return None;
    }
    if !f["ipv6_interface"].Str? || !ValidInterface(f["ipv6_interface"].s) {
      return None;
    }
    if !IsTextList(f["ipv4_ranges"]) || !IsTextList(f["ipv6_ranges"]) {
      return None;
    }
    var r4 := ValidateRanges(LinesOf(f["ipv4_ranges"].items), V4, isGlobal);
    if r4.None? {
      return None;
    }
    var r6 := ValidateRanges(LinesOf(f["ipv6_ranges"].items), V6, isGlobal);
    if r6.None? {
      return None;
    }
    if f["ipv4_ranges"] != RangesJson(r4.value) || f["ipv6_ranges"] != RangesJson(r6.value) {
      return None;
    }
    if !ValidHashes(f["source_hashes"]) {
      return None;
    }
    var hashes := f["source_hashes"].fields;
    return Some(FirewallState(
      f["ipv4_interface"].s, f["ipv6_interface"].s, r4.value, r6.value,
      map key | key in hashes :: if hashes[key].Str? then hashes[key].s else ""));
  }
}
