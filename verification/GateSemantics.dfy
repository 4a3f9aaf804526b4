/** First-match evaluation of live chains, and soundness of the verifier's
    comparison with respect to it. */
module GateSemantics {
  import opened Wrappers
  import opened Cidrs
  import opened PersistedState
  import opened GateRules

  /** A packet of one address family, as the two gates see it: the conntrack
      original port is absent for untracked packets. */
  datatype Packet = Packet(
    iface: string,
    src: nat,
    tcp: bool,
    dport: nat,
    original: bool,
    origPort: Option<nat>)

  datatype Decision = Drop | Accept | Return

  datatype Effect = Continue | Stop(decision: Decision)

  /** The meaning of everything the gates do not use themselves: other options
      (and bare match modules), other targets. Every statement holds for all of them. */
  datatype Foreign = Foreign(pair: (Token, Token, Packet) -> bool, target: (Rule, Packet) -> Effect)

  predicate PairMatches(option: Token, value: Token, pkt: Packet, foreign: Foreign) {
    if option == Source && value.Block? then value.net.Has(pkt.src)
    else if option == InIface then value == Iface(pkt.iface)
    else if option == Protocol && value == Tcp then pkt.tcp
    else if option == Module && value in {Tcp, Conntrack} then true
    else if option == CtDir && value == Original then pkt.original
    else if option == CtOrigDstPort && value.Digits? then pkt.origPort == Some(value.n)
    else if option == Dport && value.Digits? then pkt.dport == value.n
    else if option == Jump then true
    else foreign.pair(option, value, pkt)
  }

  /** A rule matches when all its option/value pairs do. */
  predicate Matches(rule: Rule, pkt: Packet, foreign: Foreign) {
    if rule == [] then true
    else if |rule| == 1 then foreign.pair(rule[0], rule[0], pkt)
    else PairMatches(rule[0], rule[1], pkt, foreign) && Matches(rule[2..], pkt, foreign)
  }

  function Target(rule: Rule, found: Option<Token>): Option<Token> {
    if |rule| < 2 then found
    else Target(rule[2..], if rule[0] == Jump then Some(rule[1]) else found)
  }

  function RuleEffect(rule: Rule, pkt: Packet, foreign: Foreign): Effect {
    if !Matches(rule, pkt, foreign) then Continue
    else if Target(rule, None) == Some(DropTarget) then Stop(Drop)
    else if Target(rule, None) == Some(ReturnTarget) then Stop(Return)
    else foreign.target(rule, pkt)
  }

  function EvalChain(lines: seq<Rule>, pkt: Packet, foreign: Foreign): Decision {
    if lines == [] then Return
    else
      var effect := RuleEffect(lines[0], pkt, foreign);
      if effect.Stop? then effect.decision else EvalChain(lines[1..], pkt, foreign)
  }

  /** The parent chain, with jumps into the managed chain followed. */
  function EvalParent(parent: seq<Rule>, managed: seq<Rule>, pkt: Packet, foreign: Foreign): Decision {
    if parent == [] then Return
    else if IsJump(parent[0]) then
      var d := if Matches(parent[0], pkt, foreign) then EvalChain(managed, pkt, foreign) else Return;
      if d == Return then EvalParent(parent[1..], managed, pkt, foreign) else d
    else
      var effect := RuleEffect(parent[0], pkt, foreign);
      if effect.Stop? then effect.decision else EvalParent(parent[1..], managed, pkt, foreign)
  }

  /** A TCP packet addressed to `port`: its destination port before DNAT, or the
      original-direction destination port conntrack remembers after it. */
  predicate WebAt(gate: Gate, pkt: Packet, port: nat) {
    && pkt.tcp
    && match gate
       case PreDnat => pkt.dport == port
       case DockerUser => pkt.original && pkt.origPort == Some(port)
  }

  predicate InRanges(ranges: seq<Cidr>, addr: nat) {
    exists i :: 0 <= i < |ranges| && ranges[i].Has(addr)
  }

  /** What a gate is for. */
  predicate Blocks(gate: Gate, ranges: seq<Cidr>, pkt: Packet) {
    (WebAt(gate, pkt, 80) || WebAt(gate, pkt, 443)) && !InRanges(ranges, pkt.src)
  }

  predicate AllStrict(ranges: seq<Cidr>) {
    forall i :: 0 <= i < |ranges| ==> ranges[i].Strict()
  }

  /** `-C rule` succeeds when the chain lists the rule, whatever the order in which its
      options are printed. */
  predicate Probed(chain: seq<Rule>, rule: Rule) {
    exists i :: 0 <= i < |chain| && SameOptions(chain[i], Printed(rule))
  }

  /** What the verifier compares: the canonical sequence, and one `-C` per rule. */
  predicate ChainAccepted(gate: Gate, chain: seq<Rule>, ranges: seq<Cidr>) {
    && CanonicalAll(gate, ChainRules(gate, ranges)).Sequence?
    && CanonicalAll(gate, chain) == CanonicalAll(gate, ChainRules(gate, ranges))
    && forall i :: 0 <= i < |ChainRules(gate, ranges)| ==> Probed(chain, ChainRules(gate, ranges)[i])
  }

  // ----- canonical forms of built rules

  lemma {:induction false} PrintedAfter(prefix: Rule, rest: Rule)
    requires Dport !in prefix
    ensures Printed(prefix + rest) == prefix + Printed(rest)
  {
    if prefix == [] {
      assert prefix + rest == rest;
    } else {
      assert (prefix + rest)[1..] == prefix[1..] + rest;
      PrintedAfter(prefix[1..], rest);
    }
  }

  function PrintedPort(gate: Gate, port: nat): Rule {
    (if gate.PreDnat? then [Module, Tcp] else []) + Port(gate, port)
  }

  function SourcePart(source: Option<Cidr>): Rule {
    if source.Some? then [Source, Block(source.value)] else []
  }

  function Verdict(drop: bool): (verdict: Rule)
    ensures |verdict| == 2
  {
    [Jump, if drop then DropTarget else ReturnTarget]
  }

  /** A single pair read off the front. */
  lemma ScanPair(gate: Gate, option: Token, value: Token, rest: Rule, fields: Fields)
    ensures var next := ReadPair(gate, option, value, fields);
            ScanFrom(gate, [option, value] + rest, fields)
                == if next.Scanned? then ScanFrom(gate, rest, next.fields) else next
  {
    assert ([option, value] + rest)[2..] == rest;
  }

  function AfterPort(gate: Gate, port: nat, printed: bool, fields: Fields): Fields {
    match gate
    case DockerUser => fields.(matcher := Some(Conntrack), direction := Some(Original), port := Some(port))
    case PreDnat => fields.(matcher := if printed then Some(Tcp) else fields.matcher, port := Some(port))
  }

  function PortPart(gate: Gate, port: nat, printed: bool): Rule {
    if printed then PrintedPort(gate, port) else Port(gate, port)
  }

  lemma PortPairs(gate: Gate, name: Token, port: nat, f: Fields)
    ensures ReadPair(gate, Module, name, f) == Scanned(f.(matcher := Some(name)))
    ensures ReadPair(DockerUser, CtDir, Original, f) == Scanned(f.(direction := Some(Original)))
    ensures ReadPair(gate, PortOption(gate), Digits(port), f) == Scanned(f.(port := Some(port)))
  {
  }

  lemma ScanPort(gate: Gate, port: nat, rest: Rule, fields: Fields, printed: bool)
    ensures ScanFrom(gate, PortPart(gate, port, printed) + rest, fields)
         == ScanFrom(gate, rest, AfterPort(gate, port, printed, fields))
  {
    hide ScanFrom, ReadPair;
    if gate.DockerUser? {
      var a, b, c := [Module, Conntrack], [CtDir, Original], [CtOrigDstPort, Digits(port)];
      assert PortPart(gate, port, printed) + rest == a + (b + (c + rest));
      var f1 := fields.(matcher := Some(Conntrack));
      var f2 := f1.(direction := Some(Original));
      PortPairs(gate, Conntrack, port, fields);
      ScanPair(gate, Module, Conntrack, b + (c + rest), fields);
      PortPairs(gate, Conntrack, port, f1);
      ScanPair(gate, CtDir, Original, c + rest, f1);
      PortPairs(gate, Conntrack, port, f2);
      ScanPair(gate, CtOrigDstPort, Digits(port), rest, f2);
    } else {
      var c := [Dport, Digits(port)];
      var f1 := if printed then fields.(matcher := Some(Tcp)) else fields;
      PortPairs(gate, Tcp, port, fields);
      if printed {
        assert PortPart(gate, port, printed) + rest == [Module, Tcp] + (c + rest);
        ScanPair(gate, Module, Tcp, c + rest, fields);
      }
      PortPairs(gate, Tcp, port, f1);
      ScanPair(gate, Dport, Digits(port), rest, f1);
    }
  }

  /** A rule the builders emit (`printed` false) or the kernel lists for it. */
  function WebRule(gate: Gate, source: Option<Cidr>, port: nat, drop: bool, printed: bool): Rule {
    SourcePart(source) + ([Protocol, Tcp] + (PortPart(gate, port, printed) + Verdict(drop)))
  }

  lemma VerdictScans(gate: Gate, drop: bool, fields: Fields)
    ensures ScanFrom(gate, Verdict(drop), fields) == Scanned(fields.(jump := Some(Verdict(drop)[1])))
  {
    assert Verdict(drop) + [] == Verdict(drop);
    ScanPair(gate, Jump, Verdict(drop)[1], [], fields);
  }

  lemma WebRuleScans(gate: Gate, source: Option<Cidr>, port: nat, drop: bool, printed: bool, fields: Fields)
    requires source.Some? ==> source.value.Strict()
    ensures var f1 := fields.(source := if source.Some? then source else fields.source, protocol := Some(Tcp));
            ScanFrom(gate, WebRule(gate, source, port, drop, printed), fields)
            == Scanned(AfterPort(gate, port, printed, f1).(jump := Some(Verdict(drop)[1])))
  {
    hide ScanFrom, PortPart, AfterPort, Verdict;
    var middle := PortPart(gate, port, printed) + Verdict(drop);
    var tail := [Protocol, Tcp] + middle;
    var f1 := fields.(source := if source.Some? then source else fields.source);
    if source.Some? {
      ScanPair(gate, Source, Block(source.value), tail, fields);
    } else {
      assert SourcePart(source) + tail == tail;
    }
    ScanPair(gate, Protocol, Tcp, middle, f1);
    var f2 := f1.(protocol := Some(Tcp));
    ScanPort(gate, port, Verdict(drop), f2, printed);
    VerdictScans(gate, drop, AfterPort(gate, port, printed, f2));
  }

  lemma PortPrints(gate: Gate, port: nat, rest: Rule)
    requires Dport !in rest
    ensures Printed(PortPart(gate, port, false) + rest) == PortPart(gate, port, true) + rest
  {
    var all := PortPart(gate, port, false) + rest;
    if gate.DockerUser? {
      assert Dport !in all;
      PrintedAfter(all, []);
      assert all + [] == all;
    } else {
      assert all[0] == Dport;
      assert PortPart(gate, port, true) + rest == [Module, Tcp] + all;
    }
  }

  /** The kernel lists a built rule with the port match spelled out. */
  lemma WebRulePrints(gate: Gate, source: Option<Cidr>, port: nat, drop: bool)
    ensures Printed(WebRule(gate, source, port, drop, false)) == WebRule(gate, source, port, drop, true)
  {
    var rest := PortPart(gate, port, false) + Verdict(drop);
    PortPrints(gate, port, Verdict(drop));
    PrintedAfter([Protocol, Tcp], rest);
    PrintedAfter(SourcePart(source), [Protocol, Tcp] + rest);
  }

  /** Canonicalising a built rule, as built or as listed, recovers what it says. */
  lemma WebRuleReads(gate: Gate, source: Option<Cidr>, port: nat, drop: bool, printed: bool)
    requires port in PORTS && (drop <==> source.None?) && (source.Some? ==> source.value.Strict())
    ensures Canonical(gate, WebRule(gate, source, port, drop, printed)) == Read(Web(port, source, drop))
  {
    WebRuleScans(gate, source, port, drop, printed, NO_FIELDS);
    assert |WebRule(gate, source, port, drop, printed)| > 2;
  }

  lemma BuiltRulesAreWebRules(gate: Gate, source: Cidr, port: nat)
    ensures AllowRule(gate, source, port) == WebRule(gate, Some(source), port, false, false)
    ensures DropRule(gate, port) == WebRule(gate, None, port, true, false)
    ensures Printed(AllowRule(gate, source, port)) == WebRule(gate, Some(source), port, false, true)
    ensures Printed(DropRule(gate, port)) == WebRule(gate, None, port, true, true)
  {
    WebRulePrints(gate, Some(source), port, false);
    WebRulePrints(gate, None, port, true);
    assert AllowRule(gate, source, port) == WebRule(gate, Some(source), port, false, false);
    assert DropRule(gate, port) == WebRule(gate, None, port, true, false);
  }
}
