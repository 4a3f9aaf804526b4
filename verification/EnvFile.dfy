/** The two readers of a profile's `.env` file (infra/hermes/control_server.py):
    the strict one for staged profiles and the lenient one for runtime profiles. */
module EnvFile {
  import opened Wrappers

  // ----- lines

  /** Where `str.splitlines` breaks. */
  predicate IsBreak(c: char) {
    c in {'\n', '\r', '\U{0B}', '\U{0C}', '\U{1C}', '\U{1D}', '\U{1E}', '\U{85}', '\U{2028}', '\U{2029}'}
  }

  /** The index of the first line break, or the length. */
  function LineEnd(text: string): (n: nat)
    ensures n <= |text|
  {
    if text == [] || IsBreak(text[0]) then 0 else 1 + LineEnd(text[1..])
  }

  /** What is left after the break at the front; "\r\n" is one break. */
  function AfterBreak(text: string): (rest: string)
    requires text != []
    ensures |rest| < |text|
  {
    if text[0] == '\r' && |text| > 1 && text[1] == '\n' then text[2..] else text[1..]
  }

  function SplitLines(text: string): seq<string>
    decreases |text|
  {
    if text == [] then []
    else
      var n := LineEnd(text);
      if n == |text| then [text] else [text[..n]] + SplitLines(AfterBreak(text[n..]))
  }

  /** Universal newlines, as `read_text` applies them: "\r\n" and "\r" become "\n". */
  function Translate(text: string): string
    decreases |text|
  {
    if text == [] then []
    else if text[0] == '\r' then ['\n'] + Translate(AfterBreak(text))
    else [text[0]] + Translate(text[1..])
  }

  lemma {:induction false} TranslateLine(line: string, rest: string)
    requires '\r' !in line
    ensures Translate(line + rest) == line + Translate(rest)
  {
    if line == [] {
      assert line + rest == rest;
    } else {
      assert (line + rest)[1..] == line[1..] + rest;
      TranslateLine(line[1..], rest);
    }
  }

  lemma {:induction false} LineEndIs(text: string)
    ensures forall i :: 0 <= i < LineEnd(text) ==> !IsBreak(text[i])
    ensures LineEnd(text) < |text| ==> IsBreak(text[LineEnd(text)])
  {
    if text != [] && !IsBreak(text[0]) {
      LineEndIs(text[1..]);
    }
  }

  lemma {:induction false} LineEndAt(line: string, rest: string)
    requires forall i :: 0 <= i < |line| ==> !IsBreak(line[i])
    requires rest == [] || IsBreak(rest[0])
    ensures LineEnd(line + rest) == |line|
  {
    if line == [] {
      assert line + rest == rest;
    } else {
      assert (line + rest)[1..] == line[1..] + rest;
      LineEndAt(line[1..], rest);
    }
  }

  /** A break and what follows it, translated: one break, then the rest translated. */
  lemma TranslateBreak(text: string)
    requires text != [] && IsBreak(text[0])
    ensures Translate(text) != [] && IsBreak(Translate(text)[0])
    ensures Translate(text)[0] != '\r' && AfterBreak(Translate(text)) == Translate(AfterBreak(text))
  {
  }

  /** Reading a file as text and reading its decoded bytes give the same lines. */
  lemma {:induction false} TranslationKeepsLines(text: string)
    ensures SplitLines(Translate(text)) == SplitLines(text)
    decreases |text|
  {
    if text != [] {
      var n := LineEnd(text);
      var line, tail := text[..n], text[n..];
      LineEndIs(text);
      assert '\r' !in line;
      assert text == line + tail;
      TranslateLine(line, tail);
      if n == |text| {
        assert tail == [] && text == line;
        assert Translate(text) == text;
      } else {
        TranslateBreak(tail);
        LineEndAt(line, Translate(tail));
        assert Translate(text)[n..] == Translate(tail) && Translate(text)[..n] == line;
        TranslationKeepsLines(AfterBreak(tail));
      }
    }
  }

  /** A file of lines, each ended by a newline. */
  function Terminated(lines: seq<string>): string {
    if lines == [] then "" else lines[0] + "\n" + Terminated(lines[1..])
  }

  /** Lines without breaks in them are read back as they were written. */
  lemma {:induction false} WrittenLinesAreRead(lines: seq<string>)
    requires forall line :: line in lines ==> forall c :: c in line ==> !IsBreak(c)
    ensures SplitLines(Terminated(lines)) == lines
  {
    hide LineEnd;
    if lines != [] {
      var tail := "\n" + Terminated(lines[1..]);
      assert lines[0] in lines;
      assert Terminated(lines) == lines[0] + tail;
      LineEndAt(lines[0], tail);
      assert (lines[0] + tail)[|lines[0]|..] == tail && (lines[0] + tail)[..|lines[0]|] == lines[0];
      assert AfterBreak(tail) == Terminated(lines[1..]);
      assert forall line :: line in lines[1..] ==> line in lines;
      WrittenLinesAreRead(lines[1..]);
    }
  }

  // ----- NAME=value

  datatype Assignment = Assignment(name: string, separated: bool, value: string)

  /** `line.partition("=")` */
  function Partition(line: string): Assignment {
    if line == [] then Assignment([], false, [])
    else if line[0] == '=' then Assignment([], true, line[1..])
    else
      var rest := Partition(line[1..]);
      Assignment([line[0]] + rest.name, rest.separated, rest.value)
  }

  const ENABLED := "API_SERVER_ENABLED"
  const HOST := "API_SERVER_HOST"
  const KEY := "API_SERVER_KEY"
  const PORT := "API_SERVER_PORT"
  const ALLOWED: set<string> := {ENABLED, HOST, KEY, PORT}

  type Values = map<string, string>

  function Get(values: Values, name: string): string {
    if name in values then values[name] else ""
  }

  datatype Runtime = Runtime(key: string, port: int)

  /** Both readers end by checking the key and the port; `toInt` is Python's `int`. */
  function KeyAndPort(values: Values, toInt: string -> Option<int>): Option<Runtime> {
    var port := toInt(Get(values, PORT));
    if port.Some? && |Get(values, KEY)| >= 8 && 1024 <= port.value <= 65535
    then Some(Runtime(Get(values, KEY), port.value)) else None
  }

  /** The lenient reader keeps the last value of the two names it wants. */
  function Lenient(lines: seq<string>, values: Values): Values {
    if lines == [] then values
    else
      var a := Partition(lines[0]);
      Lenient(lines[1..], if a.separated && a.name in {KEY, PORT} then values[a.name := a.value] else values)
  }

  /** The strict reader takes each of the four names once and nothing else. */
  function Strict(lines: seq<string>, values: Values): Option<Values> {
    if lines == [] then Some(values)
    else if lines[0] == [] then Strict(lines[1..], values)
    else
      var a := Partition(lines[0]);
      if !a.separated || a.name !in ALLOWED || a.name in values then None
      else Strict(lines[1..], values[a.name := a.value])
  }

  /** What `_profile_runtime` returns for a file's bytes, decoded. */
  function ProfileRuntime(content: string, toInt: string -> Option<int>): Option<Runtime> {
    KeyAndPort(Lenient(SplitLines(Translate(content)), map[]), toInt)
  }

  /** What `_runtime_values` returns for the same. */
  function RuntimeValues(content: string, toInt: string -> Option<int>): Option<Runtime> {
    var values := Strict(SplitLines(content), map[]);
    if values.None? || values.value.Keys != ALLOWED
       || values.value[ENABLED] != "true" || values.value[HOST] != "0.0.0.0" then None
    else KeyAndPort(values.value, toInt)
  }

  // ----- what is accepted

  /** The line assigns the name. */
  predicate Assigns(line: string, name: string) {
    |line| > |name| && line[..|name|] == name && line[|name|] == '='
  }

  lemma {:induction false} PartitionMeans(line: string, name: string)
    requires '=' !in name
    ensures Partition(line).separated && Partition(line).name == name <==> Assigns(line, name)
    ensures Assigns(line, name) ==> line == name + "=" + Partition(line).value
  {
    if line != [] && line[0] != '=' && name != [] {
      PartitionMeans(line[1..], name[1..]);
      assert line == [line[0]] + line[1..] && name == [name[0]] + name[1..];
      if Assigns(line, name) {
        assert line[1..][..|name| - 1] == line[..|name|][1..];
      }
      if Assigns(line[1..], name[1..]) && line[0] == name[0] {
        assert line[..|name|] == [line[0]] + line[1..][..|name| - 1];
      }
    }
  }

  lemma NamesAreNames()
    ensures forall name :: name in ALLOWED ==> '=' !in name
  {
  }

  predicate AssignsOneOf(line: string, names: set<string>) {
    exists name :: name in names && Assigns(line, name)
  }

  /** Every line is empty or assigns one of the names not taken, and no two the same. */
  ghost predicate Orderly(lines: seq<string>, taken: set<string>) {
    && (forall line :: line in lines && line != "" ==> AssignsOneOf(line, ALLOWED - taken))
    && forall i, j, name :: 0 <= i < j < |lines| && name in ALLOWED ==>
        !(Assigns(lines[i], name) && Assigns(lines[j], name))
  }

  lemma AssignsOnce(line: string, a: string, b: string)
    requires a in ALLOWED && b in ALLOWED
    ensures Assigns(line, a) && Assigns(line, b) ==> a == b
  {
    NamesAreNames();
    PartitionMeans(line, a);
    PartitionMeans(line, b);
  }

  lemma OrderlyStep(lines: seq<string>, taken: set<string>)
    requires lines != []
    ensures Orderly(lines, taken) <==>
            if lines[0] == "" then Orderly(lines[1..], taken)
            else exists name :: && name in ALLOWED - taken && Assigns(lines[0], name)
                                && Orderly(lines[1..], taken + {name})
  {
    NamesAreNames();
    var rest := lines[1..];
    assert forall i :: 1 <= i < |lines| ==> lines[i] == rest[i - 1];
    assert forall line :: line in lines <==> line == lines[0] || line in rest;
    if lines[0] != "" && Orderly(lines, taken) {
      assert AssignsOneOf(lines[0], ALLOWED - taken);
      var name :| name in ALLOWED - taken && Assigns(lines[0], name);
      assert forall a :: a in ALLOWED && Assigns(lines[0], a) ==> a == name by {
        forall a | a in ALLOWED ensures Assigns(lines[0], a) ==> a == name {
          AssignsOnce(lines[0], a, name);
        }
      }
      forall line | line in rest && line != "" ensures AssignsOneOf(line, ALLOWED - (taken + {name})) {
        assert line in lines && AssignsOneOf(line, ALLOWED - taken);
        var n :| n in ALLOWED - taken && Assigns(line, n);
        var j :| 0 <= j < |rest| && rest[j] == line;
        assert lines[j + 1] == line;
        assert n in ALLOWED - (taken + {name});
      }
      forall i, j, n | 0 <= i < j < |rest| && n in ALLOWED ensures !(Assigns(rest[i], n) && Assigns(rest[j], n)) {
        assert rest[i] == lines[i + 1] && rest[j] == lines[j + 1];
      }
    }
    if lines[0] != "" {
      if name :| name in ALLOWED - taken && Assigns(lines[0], name) && Orderly(rest, taken + {name}) {
        forall i, j, n | 0 <= i < j < |lines| && n in ALLOWED ensures !(Assigns(lines[i], n) && Assigns(lines[j], n)) {
          assert lines[j] == rest[j - 1] && lines[j] in rest;
          if i == 0 && lines[j] != "" {
            assert AssignsOneOf(lines[j], ALLOWED - (taken + {name}));
            var m :| m in ALLOWED - (taken + {name}) && Assigns(lines[j], m);
            AssignsOnce(lines[0], n, name);
            AssignsOnce(lines[j], n, m);
          }
        }
      }
    } else if Orderly(lines, taken) {
      forall i, j, n | 0 <= i < j < |rest| && n in ALLOWED ensures !(Assigns(rest[i], n) && Assigns(rest[j], n)) {
        assert rest[i] == lines[i + 1] && rest[j] == lines[j + 1];
      }
    }
  }

  /** What the strict scan accepts. */
  lemma {:induction false} StrictMeans(lines: seq<string>, values: Values)
    requires values.Keys <= ALLOWED
    ensures Strict(lines, values).Some? <==> Orderly(lines, values.Keys)
    ensures Strict(lines, values).Some? ==> Strict(lines, values).value.Keys <= ALLOWED
  {
    hide Orderly, Assigns;
    if lines == [] {
      NothingOrderly(values.Keys);
    } else {
      OrderlyStep(lines, values.Keys);
      if lines[0] == "" {
        StrictMeans(lines[1..], values);
      } else {
        var a := Partition(lines[0]);
        FirstAssigns(lines[0]);
        if a.separated && a.name in ALLOWED && a.name !in values {
          var next := values[a.name := a.value];
          assert next.Keys == values.Keys + {a.name};
          StrictMeans(lines[1..], next);
        }
      }
    }
  }

  /** And what it collects. */
  lemma {:induction false} StrictCollects(lines: seq<string>, values: Values, name: string, value: string)
    requires name in ALLOWED && Strict(lines, values).Some?
    ensures var found := Strict(lines, values).value;
            name in found && found[name] == value <==>
            (name in values && values[name] == value) || name + "=" + value in lines
  {
    hide Assigns;
    if lines != [] {
      assert name + "=" + value in lines <==> name + "=" + value == lines[0] || name + "=" + value in lines[1..];
      if lines[0] == "" {
        assert |name + "=" + value| > 0;
        StrictCollects(lines[1..], values, name, value);
      } else {
        var a := Partition(lines[0]);
        FirstAssigns(lines[0]);
        StrictCollects(lines[1..], values[a.name := a.value], name, value);
      }
    }
  }

  lemma NothingOrderly(taken: set<string>)
    ensures Orderly([], taken)
  {
  }

  /** A line read in terms of what it assigns. */
  lemma FirstAssigns(line: string)
    ensures var a := Partition(line);
            && (forall name :: name in ALLOWED ==> (Assigns(line, name) <==> a.separated && a.name == name))
            && (forall name, value :: name in ALLOWED ==>
                  (line == name + "=" + value <==> a.separated && a.name == name && a.value == value))
  {
    NamesAreNames();
    forall name | name in ALLOWED
      ensures Assigns(line, name) <==> Partition(line).separated && Partition(line).name == name
    {
      PartitionMeans(line, name);
    }
    forall name, value | name in ALLOWED
      ensures line == name + "=" + value <==>
              Partition(line).separated && Partition(line).name == name && Partition(line).value == value
    {
      PartitionMeans(line, name);
      if line == name + "=" + value {
        assert line[..|name|] == name && line[|name|] == '=';
        assert line[|name| + 1..] == value;
        assert line[|name| + 1..] == Partition(line).value;
      }
    }
  }

  /** A staged file and what it says: each line is empty or one of four assignments,
      each made once, to the values they must have. */
  ghost predicate Says(lines: seq<string>, rt: Runtime, toInt: string -> Option<int>) {
    && Orderly(lines, {})
    && "API_SERVER_ENABLED=true" in lines && "API_SERVER_HOST=0.0.0.0" in lines
    && "API_SERVER_KEY=" + rt.key in lines && |rt.key| >= 8
    && (exists text :: "API_SERVER_PORT=" + text in lines && toInt(text) == Some(rt.port))
    && 1024 <= rt.port <= 65535
  }

  lemma StrictIffOrderly(lines: seq<string>)
    ensures Strict(lines, map[]).Some? <==> Orderly(lines, {})
    ensures Strict(lines, map[]).Some? ==> Strict(lines, map[]).value.Keys <= ALLOWED
  {
    hide Orderly, Strict;
    var empty: Values := map[];
    assert empty.Keys == {};
    StrictMeans(lines, empty);
  }

  lemma Spelled()
    ensures ENABLED + "=" + "true" == "API_SERVER_ENABLED=true" && HOST + "=" + "0.0.0.0" == "API_SERVER_HOST=0.0.0.0"
    ensures KEY + "=" == "API_SERVER_KEY=" && PORT + "=" == "API_SERVER_PORT="
  {
  }

  /** The strict reader accepts exactly such files, and reads what they say. */
  lemma AcceptedIffSays(content: string, toInt: string -> Option<int>, rt: Runtime)
    ensures RuntimeValues(content, toInt) == Some(rt) <==> Says(SplitLines(content), rt, toInt)
  {
    hide Orderly, Strict, SplitLines;
    var lines := SplitLines(content);
    StrictIffOrderly(lines);
    Spelled();
    var found := Strict(lines, map[]);
    if found.Some? {
      StrictCollects(lines, map[], ENABLED, "true");
      StrictCollects(lines, map[], HOST, "0.0.0.0");
      StrictCollects(lines, map[], KEY, rt.key);
      if Says(lines, rt, toInt) {
        var text :| "API_SERVER_PORT=" + text in lines && toInt(text) == Some(rt.port);
        StrictCollects(lines, map[], PORT, text);
        assert found.value.Keys == ALLOWED;
      }
      if PORT in found.value {
        StrictCollects(lines, map[], PORT, found.value[PORT]);
      }
    }
  }

  /** The last assignment of the name gives it the value; without one it is empty. */
  ghost predicate LastSays(lines: seq<string>, name: string, value: string) {
    || (exists i: nat :: LastAt(lines, name, value, i))
    || (value == "" && forall i :: 0 <= i < |lines| ==> !Assigns(lines[i], name))
  }

  /** What the lenient scan collects. */
  lemma {:induction false} LenientMeans(lines: seq<string>, values: Values, name: string, value: string)
    requires name in {KEY, PORT}
    ensures Get(Lenient(lines, values), name) == value <==>
            if exists i :: 0 <= i < |lines| && Assigns(lines[i], name) then LastSays(lines, name, value)
            else Get(values, name) == value
  {
    if lines != [] {
      var rest := lines[1..];
      var a := Partition(lines[0]);
      FirstAssigns(lines[0]);
      assert forall i :: 1 <= i < |lines| ==> lines[i] == rest[i - 1];
      assert forall i :: 0 <= i < |rest| ==> rest[i] == lines[i + 1];
      var next := if a.separated && a.name in {KEY, PORT} then values[a.name := a.value] else values;
      LenientMeans(rest, next, name, value);
      assert Get(next, name) == if Assigns(lines[0], name) then a.value else Get(values, name);
      assert Assigns(lines[0], name) ==> (lines[0] == name + "=" + value <==> a.value == value);
      LastSaysStep(lines, name, value);
      assert (exists i :: 0 <= i < |lines| && Assigns(lines[i], name)) <==>
             Assigns(lines[0], name) || exists i :: 0 <= i < |rest| && Assigns(rest[i], name) by {
        if i :| 0 <= i < |rest| && Assigns(rest[i], name) {
          assert Assigns(lines[i + 1], name);
        }
      }
    }
  }

  lemma AssignedAssigns(line: string, name: string, value: string)
    ensures line == name + "=" + value ==> Assigns(line, name)
  {
    if line == name + "=" + value {
      assert line[..|name|] == name && line[|name|] == '=';
    }
  }

  /** The last assignment of the name is in this line. */
  ghost predicate LastAt(lines: seq<string>, name: string, value: string, i: nat) {
    i < |lines| && lines[i] == name + "=" + value && forall j :: i < j < |lines| ==> !Assigns(lines[j], name)
  }

  lemma LastAtStep(lines: seq<string>, name: string, value: string, i: nat)
    requires lines != []
    ensures LastAt(lines[1..], name, value, i) <==> LastAt(lines, name, value, i + 1)
  {
    hide Assigns;
    var rest := lines[1..];
    assert forall k :: 1 <= k < |lines| ==> lines[k] == rest[k - 1];
    assert forall k :: 0 <= k < |rest| ==> rest[k] == lines[k + 1];
  }

  lemma LastSaysStep(lines: seq<string>, name: string, value: string)
    requires lines != []
    ensures var later := exists i :: 0 <= i < |lines[1..]| && Assigns(lines[1..][i], name);
            LastSays(lines, name, value) <==>
              if later || !Assigns(lines[0], name) then LastSays(lines[1..], name, value)
              else lines[0] == name + "=" + value
  {
    hide Assigns;
    var rest := lines[1..];
    AssignedAssigns(lines[0], name, value);
    assert forall i :: 1 <= i < |lines| ==> lines[i] == rest[i - 1];
    assert forall i :: 0 <= i < |rest| ==> rest[i] == lines[i + 1];
    if i: nat :| LastAt(rest, name, value, i) {
      LastAtStep(lines, name, value, i);
    }
    if i: nat :| LastAt(lines, name, value, i) {
      if i > 0 {
        LastAtStep(lines, name, value, i - 1);
      }
    }
    if !(exists i :: 0 <= i < |rest| && Assigns(rest[i], name)) && lines[0] == name + "=" + value {
      assert LastAt(lines, name, value, 0);
    }
    if i: nat :| LastAt(rest, name, value, i) {
      AssignedAssigns(rest[i], name, value);
    }
  }

  /** The lenient reader takes the key and the port from their last assignments, if
      they are in order, and looks at nothing else. */
  lemma ReadIffLastSays(content: string, toInt: string -> Option<int>, rt: Runtime)
    ensures ProfileRuntime(content, toInt) == Some(rt) <==>
            && LastSays(SplitLines(content), KEY, rt.key) && |rt.key| >= 8
            && (exists text :: LastSays(SplitLines(content), PORT, text) && toInt(text) == Some(rt.port))
            && 1024 <= rt.port <= 65535
  {
    hide LastSays, Lenient;
    TranslationKeepsLines(content);
    var lines := SplitLines(content);
    var values := Lenient(lines, map[]);
    forall name, value | name in {KEY, PORT} ensures Get(values, name) == value <==> LastSays(lines, name, value) {
      LenientMeans(lines, map[], name, value);
      NotAssigned(lines, name, value);
    }
    assert LastSays(lines, PORT, Get(values, PORT));
  }

  lemma NotAssigned(lines: seq<string>, name: string, value: string)
    ensures !(exists i :: 0 <= i < |lines| && Assigns(lines[i], name)) ==>
              (LastSays(lines, name, value) <==> value == "")
  {
    if i: nat :| LastAt(lines, name, value, i) {
      AssignedAssigns(lines[i], name, value);
    }
  }

  /** A file of the four assignments is read as it was written. */
  lemma RenderedIsRead(key: string, text: string, toInt: string -> Option<int>, port: int)
    requires |key| >= 8 && toInt(text) == Some(port) && 1024 <= port <= 65535
    requires forall c :: c in key || c in text ==> !IsBreak(c)
    ensures var lines := ["API_SERVER_ENABLED=true", "API_SERVER_HOST=0.0.0.0",
                          "API_SERVER_KEY=" + key, "API_SERVER_PORT=" + text];
            RuntimeValues(Terminated(lines), toInt) == Some(Runtime(key, port))
  {
    var lines := ["API_SERVER_ENABLED=true", "API_SERVER_HOST=0.0.0.0",
                  "API_SERVER_KEY=" + key, "API_SERVER_PORT=" + text];
    hide Orderly, IsBreak, Terminated, SplitLines, RuntimeValues;
    forall line | line in lines ensures forall c :: c in line ==> !IsBreak(c) {
      Unbroken(key, text);
    }
    WrittenLinesAreRead(lines);
    assert lines[0] in lines && lines[1] in lines && lines[2] in lines && lines[3] in lines;
    AcceptedIffSays(Terminated(lines), toInt, Runtime(key, port));
    RenderedIsOrderly(key, text);
  }

  lemma PrintableIsNoBreak(c: char)
    ensures '!' <= c <= '~' ==> !IsBreak(c)
  {
  }

  lemma Unbroken(key: string, text: string)
    requires forall c :: c in key || c in text ==> !IsBreak(c)
    ensures forall c :: c in "API_SERVER_ENABLED=true" || c in "API_SERVER_HOST=0.0.0.0" ==> !IsBreak(c)
    ensures forall c :: c in "API_SERVER_KEY=" + key || c in "API_SERVER_PORT=" + text ==> !IsBreak(c)
  {
    hide IsBreak;
    forall c | c in "API_SERVER_ENABLED=true" || c in "API_SERVER_HOST=0.0.0.0" ensures !IsBreak(c) {
      PrintableIsNoBreak(c);
    }
    forall c | c in "API_SERVER_KEY=" + key || c in "API_SERVER_PORT=" + text ensures !IsBreak(c) {
      PrintableIsNoBreak(c);
    }
  }

  lemma RenderedIsOrderly(key: string, text: string)
    ensures Orderly(["API_SERVER_ENABLED=true", "API_SERVER_HOST=0.0.0.0",
                     "API_SERVER_KEY=" + key, "API_SERVER_PORT=" + text], {})
  {
    var lines := ["API_SERVER_ENABLED=true", "API_SERVER_HOST=0.0.0.0",
                  "API_SERVER_KEY=" + key, "API_SERVER_PORT=" + text];
    AssignsOnly(lines[0], ENABLED, "true");
    AssignsOnly(lines[1], HOST, "0.0.0.0");
    AssignsOnly(lines[2], KEY, key);
    AssignsOnly(lines[3], PORT, text);
  }

  lemma AssignsOnly(line: string, name: string, value: string)
    requires name in ALLOWED && line == name + "=" + value
    ensures forall n :: n in ALLOWED ==> (Assigns(line, n) <==> n == name)
  {
    FirstAssigns(line);
  }

  // ----- the readers

  /** `_profile_runtime` */
  method ReadProfileRuntime(content: string, toInt: string -> Option<int>) returns (r: Option<Runtime>)
    ensures r == ProfileRuntime(content, toInt)
    ensures forall rt :: r == Some(rt) <==>
              && LastSays(SplitLines(content), KEY, rt.key) && |rt.key| >= 8
              && (exists text :: LastSays(SplitLines(content), PORT, text) && toInt(text) == Some(rt.port))
              && 1024 <= rt.port <= 65535
  {
    hide LastSays;
    forall rt
      ensures ProfileRuntime(content, toInt) == Some(rt) <==>
              && LastSays(SplitLines(content), KEY, rt.key) && |rt.key| >= 8
              && (exists text :: LastSays(SplitLines(content), PORT, text) && toInt(text) == Some(rt.port))
              && 1024 <= rt.port <= 65535
    {
      ReadIffLastSays(content, toInt, rt);
    }
    var lines := SplitLines(Translate(content));
    var values: Values := map[];
    for k := 0 to |lines|
      invariant Lenient(lines, map[]) == Lenient(lines[k..], values)
    {
      var a := Partition(lines[k]);
      assert lines[k..][1..] == lines[k + 1..];
      if a.separated && a.name in {KEY, PORT} {
        values := values[a.name := a.value];
      }
    }
    return KeyAndPort(values, toInt);
  }

  /** `_runtime_values` */
  method ReadRuntimeValues(content: string, toInt: string -> Option<int>) returns (r: Option<Runtime>)
    ensures r == RuntimeValues(content, toInt)
    ensures forall rt :: r == Some(rt) <==> Says(SplitLines(content), rt, toInt)
  {
    hide Says;
    forall rt ensures RuntimeValues(content, toInt) == Some(rt) <==> Says(SplitLines(content), rt, toInt) {
      AcceptedIffSays(content, toInt, rt);
    }
    var lines := SplitLines(content);
    var values: Values := map[];
    for k := 0 to |lines|
      invariant Strict(lines, map[]) == Strict(lines[k..], values)
    {
      assert lines[k..][1..] == lines[k + 1..];
      if lines[k] == [] {
        continue;
      }
      var a := Partition(lines[k]);
      if !a.separated || a.name !in ALLOWED {
        return None;
      }
      if a.name in values {
        return None;
      }
      values := values[a.name := a.value];
    }
    if values.Keys != ALLOWED || values[ENABLED] != "true" || values[HOST] != "0.0.0.0" {
      return None;
    }
    return KeyAndPort(values, toInt);
  }

  // ----- agreement

  /** The two maps agree on the names both readers keep. */
  predicate SameKept(lenient: Values, strict: Values) {
    && (KEY in lenient <==> KEY in strict) && (PORT in lenient <==> PORT in strict)
    && (KEY in lenient && KEY in strict ==> lenient[KEY] == strict[KEY])
    && (PORT in lenient && PORT in strict ==> lenient[PORT] == strict[PORT])
  }

  lemma {:induction false} LenientFollowsStrict(lines: seq<string>, lenient: Values, strict: Values)
    requires SameKept(lenient, strict) && Strict(lines, strict).Some?
    ensures SameKept(Lenient(lines, lenient), Strict(lines, strict).value)
  {
    if lines != [] {
      var a := Partition(lines[0]);
      if lines[0] == [] {
        LenientFollowsStrict(lines[1..], lenient, strict);
      } else {
        var lenient' := if a.name in {KEY, PORT} then lenient[a.name := a.value] else lenient;
        LenientFollowsStrict(lines[1..], lenient', strict[a.name := a.value]);
      }
    }
  }

  /** Whatever the strict reader accepts, the lenient reader accepts with the same key
      and port, although it reads the file with newlines translated. */
  lemma ReadersAgree(content: string, toInt: string -> Option<int>)
    requires RuntimeValues(content, toInt).Some?
    ensures ProfileRuntime(content, toInt) == RuntimeValues(content, toInt)
  {
    TranslationKeepsLines(content);
    LenientFollowsStrict(SplitLines(content), map[], map[]);
  }
}
