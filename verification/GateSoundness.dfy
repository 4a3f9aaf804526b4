/** Soundness of the verifier: a chain it accepts decides every packet as the
    range list says, whatever else the live table contains. */
module GateSoundness {
  import opened Wrappers
  import opened Cidrs
  import opened Sequences
  import opened PersistedState
  import opened GateRules
  import opened GateSemantics
  import opened OptionOrder

  // ----- the canonical sequence of a built chain

  lemma {:induction false} SequenceOf(gate: Gate, lines: seq<Rule>, canons: seq<Canon>)
    requires |lines| == |canons| && forall i :: 0 <= i < |lines| ==> LineReading(gate, lines[i]) == Read(canons[i])
    ensures CanonicalAll(gate, lines) == Sequence(canons)
  {
    hide LineReading;
    if lines != [] {
      SequenceOf(gate, lines[1..], canons[1..]);
      assert canons == [canons[0]] + canons[1..];
    }
  }

  lemma FallThroughReads(gate: Gate)
    ensures Printed(FALL_THROUGH) == FALL_THROUGH && Canonical(gate, FALL_THROUGH) == Read(FallThrough)
    ensures Pairs(FALL_THROUGH) == [Pair(Jump, ReturnTarget)]
    ensures DistinctOptions(Pairs(FALL_THROUGH))
  {
  }

  lemma RuleReads(gate: Gate, ranges: seq<Cidr>, i: nat)
    requires AllStrict(ranges) && i < |ChainRules(gate, ranges)|
    ensures |ChainCanons(ranges)| == |ChainRules(gate, ranges)|
    ensures Canonical(gate, ChainRules(gate, ranges)[i]) == Read(ChainCanons(ranges)[i])
    ensures LineReading(gate, ChainRules(gate, ranges)[i]) == Read(ChainCanons(ranges)[i])
    ensures Canonical(gate, Printed(ChainRules(gate, ranges)[i])) == Read(ChainCanons(ranges)[i])
    ensures DistinctOptions(Pairs(Printed(ChainRules(gate, ranges)[i])))
    ensures |Printed(ChainRules(gate, ranges)[i])| % 2 == 0
  {
    hide Canonical, Printed, WebRule, AllowRule, DropRule, Pairs, DistinctOptions;
    var n := |ranges|;
    var port := if i <= n then 80 else 443;
    var k := if i <= n then i else i - n - 1;
    assert port in PORTS;
    if k < n {
      BuiltRulesAreWebRules(gate, ranges[k], port);
      assert ChainRules(gate, ranges)[i] == AllowRule(gate, ranges[k], port);
      WebRuleReads(gate, Some(ranges[k]), port, false, false);
      WebRuleReads(gate, Some(ranges[k]), port, false, true);
      WebPairsAre(gate, Some(ranges[k]), port, false, false);
      WebPairsAre(gate, Some(ranges[k]), port, false, true);
      WebOptionsDistinct(gate, Some(ranges[k]), port, false, true);
    } else if k == n {
      BuiltRulesAreWebRules(gate, Cidr(V4, 0, 0), port);
      assert ChainRules(gate, ranges)[i] == DropRule(gate, port);
      WebRuleReads(gate, None, port, true, false);
      WebRuleReads(gate, None, port, true, true);
      WebPairsAre(gate, None, port, true, false);
      WebPairsAre(gate, None, port, true, true);
      WebOptionsDistinct(gate, None, port, true, true);
    } else {
      FallThroughReads(gate);
      assert ChainRules(gate, ranges)[i] == FALL_THROUGH;
    }
  }

  /** Whatever order the options of a built rule are listed in, it reads the same. */
  lemma ListedReads(gate: Gate, ranges: seq<Cidr>, i: nat, line: Rule)
    requires AllStrict(ranges) && i < |ChainRules(gate, ranges)|
    requires SameOptions(line, Printed(ChainRules(gate, ranges)[i]))
    ensures |ChainCanons(ranges)| == |ChainRules(gate, ranges)|
    ensures LineReading(gate, line) == Read(ChainCanons(ranges)[i])
  {
    hide Canonical, LineReading, SameOptions, DistinctOptions, ChainRules, ChainCanons;
    RuleReads(gate, ranges, i);
    OrderReads(gate, line, Printed(ChainRules(gate, ranges)[i]));
  }

  /** Canonicalising the built rules always succeeds, and so does canonicalising
      any listing the kernel may give back for them, with the same outcome. */
  lemma BuiltChainReads(gate: Gate, ranges: seq<Cidr>)
    requires AllStrict(ranges)
    ensures CanonicalAll(gate, ChainRules(gate, ranges)) == Sequence(ChainCanons(ranges))
    ensures forall lines :: InstalledAs(gate, lines, ranges) ==>
        CanonicalAll(gate, lines) == Sequence(ChainCanons(ranges))
  {
    hide LineReading, SameOptions, CanonicalAll, Canonical;
    var rules, canons := ChainRules(gate, ranges), ChainCanons(ranges);
    forall i | 0 <= i < |rules| ensures LineReading(gate, rules[i]) == Read(canons[i]) {
      RuleReads(gate, ranges, i);
    }
    SequenceOf(gate, rules, canons);
    forall lines | InstalledAs(gate, lines, ranges) ensures CanonicalAll(gate, lines) == Sequence(canons) {
      forall i | 0 <= i < |lines| ensures LineReading(gate, lines[i]) == Read(canons[i]) {
        ListedReads(gate, ranges, i, lines[i]);
      }
      SequenceOf(gate, lines, canons);
    }
  }

  /** One such listing: the options in the order they were given. */
  function PlainListing(gate: Gate, ranges: seq<Cidr>): (lines: seq<Rule>)
    ensures |lines| == |ChainRules(gate, ranges)|
    ensures forall i :: 0 <= i < |lines| ==> lines[i] == Printed(ChainRules(gate, ranges)[i])
  {
    var rules := ChainRules(gate, ranges);
    seq(|rules|, i requires 0 <= i < |rules| => Printed(rules[i]))
  }

  lemma PlainIsListing(gate: Gate, ranges: seq<Cidr>)
    requires AllStrict(ranges)
    ensures InstalledAs(gate, PlainListing(gate, ranges), ranges)
  {
    hide Printed, Pairs;
    var rules, lines := ChainRules(gate, ranges), PlainListing(gate, ranges);
    forall i | 0 <= i < |rules| ensures SameOptions(lines[i], Printed(rules[i])) {
      RuleReads(gate, ranges, i);
    }
  }

  /** Two range lists have the same canonical sequence only if they are equal. */
  lemma CanonsDetermineRanges(a: seq<Cidr>, b: seq<Cidr>)
    requires ChainCanons(a) == ChainCanons(b)
    ensures a == b
  {
    assert |a| == |b|;
    forall i | 0 <= i < |a| ensures a[i] == b[i] {
      assert ChainCanons(a)[i] == Web(80, Some(a[i]), false);
      assert ChainCanons(b)[i] == Web(80, Some(b[i]), false);
    }
  }

  lemma {:induction false} SequenceAt(gate: Gate, lines: seq<Rule>, canons: seq<Canon>)
    requires CanonicalAll(gate, lines) == Sequence(canons)
    ensures |lines| == |canons|
    ensures forall i :: 0 <= i < |lines| ==> LineReading(gate, lines[i]) == Read(canons[i])
    ensures forall i :: 0 <= i < |lines| ==> Canonical(gate, lines[i]) == Read(canons[i])
  {
    if lines != [] {
      var rest := CanonicalAll(gate, lines[1..]);
      SequenceAt(gate, lines[1..], rest.canons);
    }
  }

  /** A freshly restored chain is accepted for its own ranges, however it is listed. */
  lemma InstalledIsAccepted(gate: Gate, lines: seq<Rule>, ranges: seq<Cidr>)
    requires AllStrict(ranges) && InstalledAs(gate, lines, ranges)
    ensures ChainAccepted(gate, lines, ranges)
  {
    hide SameOptions, CanonicalAll;
    BuiltChainReads(gate, ranges);
    var rules := ChainRules(gate, ranges);
    forall i | 0 <= i < |rules| ensures Probed(lines, rules[i]) {
      assert SameOptions(lines[i], Printed(rules[i]));
    }
  }

  /** For a list without repeats, the comparison and the `-C` probes together
      accept no chain but the built one, in some order of its options. */
  lemma AcceptedIsInstalled(gate: Gate, chain: seq<Rule>, ranges: seq<Cidr>)
    requires AllStrict(ranges) && NoRepeats(ranges) && ChainAccepted(gate, chain, ranges)
    ensures InstalledAs(gate, chain, ranges)
  {
    hide SameOptions, CanonicalAll, ChainCanons, ChainAccepted;
    var rules := ChainRules(gate, ranges);
    AcceptedReads(gate, chain, ranges);
    BuiltLength(gate, ranges);
    forall i | 0 <= i < |rules| ensures SameOptions(chain[i], Printed(rules[i])) {
      var p := Listed(gate, chain, ranges, i);
      CanonsDistinct(ranges, p, i);
    }
  }

  lemma BuiltLength(gate: Gate, ranges: seq<Cidr>)
    ensures |ChainRules(gate, ranges)| == |ChainCanons(ranges)| == 2 * |ranges| + 3
  {
  }

  lemma CanonsDistinct(ranges: seq<Cidr>, p: nat, i: nat)
    requires NoRepeats(ranges) && p < |ChainCanons(ranges)| && i < |ChainCanons(ranges)|
    requires ChainCanons(ranges)[p] == ChainCanons(ranges)[i]
    ensures p == i
  {
    var n := |ranges|;
    CanonAt(ranges, p);
    CanonAt(ranges, i);
  }

  /** The canonical sequence position by position. */
  lemma CanonAt(ranges: seq<Cidr>, i: nat)
    requires i < |ChainCanons(ranges)|
    ensures var n := |ranges|;
            ChainCanons(ranges)[i] ==
            if i < n then Web(80, Some(ranges[i]), false)
            else if i == n then Web(80, None, true)
            else if i < 2 * n + 1 then Web(443, Some(ranges[i - n - 1]), false)
            else if i == 2 * n + 1 then Web(443, None, true)
            else FallThrough
  {
  }

  // ----- what reading a rule says about the packets it matches

  predicate HoldsOf(gate: Gate, f: Fields, pkt: Packet) {
    && (f.source.Some? ==> f.source.value.Has(pkt.src))
    && (f.protocol == Some(Tcp) ==> pkt.tcp)
    && (f.direction == Some(Original) ==> pkt.original)
    && (f.port.Some? ==> if gate.PreDnat? then pkt.dport == f.port.value else pkt.origPort == Some(f.port.value))
  }

  /** Whatever a matching rule scans to holds of the packet; the last `-j` read is
      the rule's target. */
  lemma {:induction false} ScanHolds(gate: Gate, tokens: Rule, f: Fields, pkt: Packet, foreign: Foreign)
    requires ScanFrom(gate, tokens, f).Scanned?
    ensures ScanFrom(gate, tokens, f).fields.jump == Target(tokens, f.jump)
    ensures HoldsOf(gate, f, pkt) && Matches(tokens, pkt, foreign) ==>
        HoldsOf(gate, ScanFrom(gate, tokens, f).fields, pkt)
    decreases |tokens|
  {
    if |tokens| >= 2 {
      ScanHolds(gate, tokens[2..], ReadPair(gate, tokens[0], tokens[1], f).fields, pkt, foreign);
    }
  }

  /** A rule that reads as a web rule only ever matches web packets of that port
      and source, and its effect is its verdict. */
  lemma WebEffect(gate: Gate, rule: Rule, port: nat, source: Option<Cidr>, drop: bool, pkt: Packet, foreign: Foreign)
    requires Canonical(gate, rule) == Read(Web(port, source, drop))
    ensures RuleEffect(rule, pkt, foreign) in {Continue, Stop(if drop then Drop else Return)}
    ensures RuleEffect(rule, pkt, foreign).Stop? ==>
              WebAt(gate, pkt, port) && (source.Some? ==> source.value.Has(pkt.src))
  {
    ScanHolds(gate, rule, NO_FIELDS, pkt, foreign);
  }

  lemma BuiltEffect(gate: Gate, source: Option<Cidr>, port: nat, drop: bool, pkt: Packet, foreign: Foreign)
    requires WebAt(gate, pkt, port) && (source.Some? ==> source.value.Has(pkt.src))
    ensures RuleEffect(WebRule(gate, source, port, drop, true), pkt, foreign) == Stop(if drop then Drop else Return)
    ensures Target(WebRule(gate, source, port, drop, true), None) == Some(if drop then DropTarget else ReturnTarget)
  {
    var verdict, ports := Verdict(drop), PortPart(gate, port, true);
    PortMatches(gate, port, verdict, pkt, foreign);
    var middle := ports + verdict;
    MatchPair(Protocol, Tcp, middle, pkt, foreign);
    if source.Some? {
      MatchPair(Source, Block(source.value), [Protocol, Tcp] + middle, pkt, foreign);
    } else {
      assert SourcePart(source) + ([Protocol, Tcp] + middle) == [Protocol, Tcp] + middle;
    }
  }

  /** The line acts on every packet of the port from the source. */
  ghost predicate ActsFor(gate: Gate, line: Rule, source: Option<Cidr>, port: nat, drop: bool, pkt: Packet,
                          foreign: Foreign)
  {
    WebAt(gate, pkt, port) && (source.Some? ==> source.value.Has(pkt.src)) ==>
      RuleEffect(line, pkt, foreign) == Stop(if drop then Drop else Return)
  }

  /** A built rule does, with its options listed in any order. */
  lemma ListedActs(gate: Gate, line: Rule, source: Option<Cidr>, port: nat, drop: bool, pkt: Packet, foreign: Foreign)
    requires SameOptions(line, WebRule(gate, source, port, drop, true))
    ensures ActsFor(gate, line, source, port, drop, pkt, foreign)
  {
    hide RuleEffect, SameOptions, DistinctOptions, WebRule, Target;
    if WebAt(gate, pkt, port) && (source.Some? ==> source.value.Has(pkt.src)) {
      BuiltEffect(gate, source, port, drop, pkt, foreign);
      WebOptionsDistinct(gate, source, port, drop, true);
      OrderActs(line, WebRule(gate, source, port, drop, true), pkt, foreign);
    }
  }

  lemma MatchPair(option: Token, value: Token, rest: Rule, pkt: Packet, foreign: Foreign)
    ensures Matches([option, value] + rest, pkt, foreign)
        == (PairMatches(option, value, pkt, foreign) && Matches(rest, pkt, foreign))
    ensures option != Jump ==> Target([option, value] + rest, None) == Target(rest, None)
  {
    assert ([option, value] + rest)[2..] == rest;
  }

  lemma VerdictMatches(verdict: Rule, pkt: Packet, foreign: Foreign)
    requires |verdict| == 2 && verdict[0] == Jump
    ensures Matches(verdict, pkt, foreign) && Target(verdict, None) == Some(verdict[1])
  {
    assert verdict == [Jump, verdict[1]] + [];
    MatchPair(Jump, verdict[1], [], pkt, foreign);
  }

  lemma PortMatches(gate: Gate, port: nat, verdict: Rule, pkt: Packet, foreign: Foreign)
    requires WebAt(gate, pkt, port) && |verdict| == 2 && verdict[0] == Jump
    ensures Matches(PortPart(gate, port, true) + verdict, pkt, foreign)
    ensures Target(PortPart(gate, port, true) + verdict, None) == Some(verdict[1])
  {
    hide Matches, Target;
    VerdictMatches(verdict, pkt, foreign);
    if gate.PreDnat? {
      var c := [Dport, Digits(port)];
      assert PortPart(gate, port, true) + verdict == [Module, Tcp] + (c + verdict);
      MatchPair(Module, Tcp, c + verdict, pkt, foreign);
      MatchPair(Dport, Digits(port), verdict, pkt, foreign);
    } else {
      var b, c := [CtDir, Original], [CtOrigDstPort, Digits(port)];
      assert PortPart(gate, port, true) + verdict == [Module, Conntrack] + (b + (c + verdict));
      MatchPair(Module, Conntrack, b + (c + verdict), pkt, foreign);
      MatchPair(CtDir, Original, c + verdict, pkt, foreign);
      MatchPair(CtOrigDstPort, Digits(port), verdict, pkt, foreign);
    }
  }

  // ----- evaluating an accepted chain

  lemma {:induction false} SkipContinues(lines: seq<Rule>, k: nat, pkt: Packet, foreign: Foreign)
    requires k <= |lines| && forall i :: 0 <= i < k ==> RuleEffect(lines[i], pkt, foreign) == Continue
    ensures EvalChain(lines, pkt, foreign) == EvalChain(lines[k..], pkt, foreign)
  {
    if k > 0 {
      SkipContinues(lines[1..], k - 1, pkt, foreign);
      assert lines[1..][k - 1..] == lines[k..];
    }
  }

  lemma {:induction false} FirstReturn(lines: seq<Rule>, k: nat, pkt: Packet, foreign: Foreign)
    requires k < |lines| && RuleEffect(lines[k], pkt, foreign) == Stop(Return)
    requires forall i :: 0 <= i < k ==> RuleEffect(lines[i], pkt, foreign) in {Continue, Stop(Return)}
    ensures EvalChain(lines, pkt, foreign) == Return
  {
    if k > 0 && RuleEffect(lines[0], pkt, foreign).Continue? {
      FirstReturn(lines[1..], k - 1, pkt, foreign);
    }
  }

  /** The i-th place of a port's block reads as its RETURN rule, or as its DROP rule
      after the last range, and some line of the block acts as that rule must. */
  ghost predicate BlockPlace(gate: Gate, lines: seq<Rule>, from: nat, ranges: seq<Cidr>, port: nat,
                             pkt: Packet, foreign: Foreign, i: nat) {
    && i <= |ranges| && from + |ranges| < |lines|
    && (if i < |ranges| then
          && Canonical(gate, lines[from + i]) == Read(Web(port, Some(ranges[i]), false))
          && exists p :: from <= p < from + |ranges|
              && ActsFor(gate, lines[p], Some(ranges[i]), port, false, pkt, foreign)
        else
          && Canonical(gate, lines[from + i]) == Read(Web(port, None, true))
          && ActsFor(gate, lines[from + i], None, port, true, pkt, foreign))
  }

  /** The lines from `from` on start with the RETURN and DROP rules of one port. */
  ghost predicate PortBlock(gate: Gate, lines: seq<Rule>, from: nat, ranges: seq<Cidr>, port: nat, pkt: Packet,
                            foreign: Foreign)
  {
    && from + |ranges| < |lines|
    && forall i :: 0 <= i <= |ranges| ==> BlockPlace(gate, lines, from, ranges, port, pkt, foreign, i)
  }

  /** The RETURN rules of a block pass over or return, and return only packets of the
      port from a range; so does the DROP rule, with dropping. */
  lemma BlockEffects(gate: Gate, lines: seq<Rule>, from: nat, ranges: seq<Cidr>, port: nat, pkt: Packet,
                     foreign: Foreign, i: nat)
    requires PortBlock(gate, lines, from, ranges, port, pkt, foreign) && i <= |ranges|
    ensures var effect := RuleEffect(lines[from + i], pkt, foreign);
            && effect in {Continue, Stop(if i < |ranges| then Return else Drop)}
            && (effect.Stop? ==> WebAt(gate, pkt, port) && (i < |ranges| ==> ranges[i].Has(pkt.src)))
  {
    assert BlockPlace(gate, lines, from, ranges, port, pkt, foreign, i);
    if i < |ranges| {
      WebEffect(gate, lines[from + i], port, Some(ranges[i]), false, pkt, foreign);
    } else {
      WebEffect(gate, lines[from + i], port, None, true, pkt, foreign);
    }
  }

  lemma BlockDecides(gate: Gate, lines: seq<Rule>, from: nat, ranges: seq<Cidr>, port: nat, pkt: Packet,
                     foreign: Foreign)
    requires PortBlock(gate, lines, from, ranges, port, pkt, foreign)
    ensures EvalChain(lines[from..], pkt, foreign) ==
            if !WebAt(gate, pkt, port) then EvalChain(lines[from + |ranges| + 1..], pkt, foreign)
            else if InRanges(ranges, pkt.src) then Return
            else Drop
  {
    hide RuleEffect, Canonical, EvalChain;
    var n := |ranges|;
    assert BlockPlace(gate, lines, from, ranges, port, pkt, foreign, n);
    var block := lines[from..];
    forall i | 0 <= i <= n
      ensures RuleEffect(block[i], pkt, foreign) in {Continue, Stop(if i < n then Return else Drop)}
      ensures RuleEffect(block[i], pkt, foreign).Stop? ==> WebAt(gate, pkt, port) && (i < n ==> ranges[i].Has(pkt.src))
    {
      BlockEffects(gate, lines, from, ranges, port, pkt, foreign, i);
    }
    if !WebAt(gate, pkt, port) {
      SkipContinues(block, n + 1, pkt, foreign);
      assert block[n + 1..] == lines[from + n + 1..];
    } else if InRanges(ranges, pkt.src) {
      var j :| 0 <= j < n && ranges[j].Has(pkt.src);
      assert BlockPlace(gate, lines, from, ranges, port, pkt, foreign, j);
      var p :| from <= p < from + n && ActsFor(gate, lines[p], Some(ranges[j]), port, false, pkt, foreign);
      FirstReturn(block, p - from, pkt, foreign);
    } else {
      SkipContinues(block, n, pkt, foreign);
      FirstStops(block[n..], pkt, foreign);
    }
  }

  lemma FirstStops(lines: seq<Rule>, pkt: Packet, foreign: Foreign)
    ensures lines != [] && RuleEffect(lines[0], pkt, foreign).Stop? ==>
              EvalChain(lines, pkt, foreign) == RuleEffect(lines[0], pkt, foreign).decision
  {
  }

  /** The i-th built rule of a block, and the canonical rule at that position. */
  lemma BlockRule(gate: Gate, ranges: seq<Cidr>, second: bool, i: nat)
    requires i <= |ranges|
    ensures var at := if second then |ranges| + 1 + i else i;
            var port := if second then 443 else 80;
            && at < |ChainRules(gate, ranges)| == |ChainCanons(ranges)|
            && ChainCanons(ranges)[at]
                == (if i < |ranges| then Web(port, Some(ranges[i]), false) else Web(port, None, true))
            && Printed(ChainRules(gate, ranges)[at]) ==
               if i < |ranges| then WebRule(gate, Some(ranges[i]), port, false, true)
               else WebRule(gate, None, port, true, true)
  {
    var at := if second then |ranges| + 1 + i else i;
    var port := if second then 443 else 80;
    CanonAt(ranges, at);
    BuiltRulesAreWebRules(gate, if i < |ranges| then ranges[i] else Cidr(V4, 0, 0), port);
    assert ChainRules(gate, ranges)[at]
        == if i < |ranges| then AllowRule(gate, ranges[i], port) else DropRule(gate, port);
  }

  /** Every place of a block of an accepted chain is right: the comparison fixes how
      it reads, and the `-C` probe found the rule itself. */
  lemma AcceptedPlace(gate: Gate, chain: seq<Rule>, ranges: seq<Cidr>, second: bool, pkt: Packet, foreign: Foreign,
                      i: nat)
    requires AllStrict(ranges) && ChainAccepted(gate, chain, ranges) && i <= |ranges|
    ensures var from, port := if second then |ranges| + 1 else 0, if second then 443 else 80;
            BlockPlace(gate, chain, from, ranges, port, pkt, foreign, i)
  {
    hide CanonicalAll, ChainRules, WebRule, Canonical, ChainAccepted, Printed, SameOptions, ActsFor;
    var at := if second then |ranges| + 1 + i else i;
    var port := if second then 443 else 80;
    BlockRule(gate, ranges, second, i);
    var p := Listed(gate, chain, ranges, at);
    AcceptedReads(gate, chain, ranges);
    CanonAt(ranges, p);
    assert |chain| == 2 * |ranges| + 3;
    ListedActs(gate, chain[p], if i < |ranges| then Some(ranges[i]) else None, port, i == |ranges|, pkt, foreign);
  }

  lemma AcceptedReads(gate: Gate, chain: seq<Rule>, ranges: seq<Cidr>)
    requires AllStrict(ranges) && ChainAccepted(gate, chain, ranges)
    ensures |chain| == |ChainCanons(ranges)|
    ensures forall i :: 0 <= i < |chain| ==> Canonical(gate, chain[i]) == Read(ChainCanons(ranges)[i])
    ensures forall i :: 0 <= i < |chain| ==> LineReading(gate, chain[i]) == Read(ChainCanons(ranges)[i])
  {
    BuiltChainReads(gate, ranges);
    SequenceAt(gate, chain, ChainCanons(ranges));
  }

  lemma AcceptedEnd(gate: Gate, chain: seq<Rule>, ranges: seq<Cidr>)
    requires AllStrict(ranges) && ChainAccepted(gate, chain, ranges)
    ensures |chain| == 2 * |ranges| + 3 && chain[2 * |ranges| + 2..] == [FALL_THROUGH]
  {
    BuiltChainReads(gate, ranges);
    SequenceAt(gate, chain, ChainCanons(ranges));
    CanonAt(ranges, 2 * |ranges| + 2);
    OnlyFallThroughReadsSo(gate, chain[2 * |ranges| + 2]);
  }

  lemma AcceptedBlock(gate: Gate, chain: seq<Rule>, ranges: seq<Cidr>, second: bool, pkt: Packet, foreign: Foreign)
    requires AllStrict(ranges) && ChainAccepted(gate, chain, ranges)
    ensures PortBlock(gate, chain, if second then |ranges| + 1 else 0, ranges, if second then 443 else 80, pkt, foreign)
  {
    hide ChainAccepted, BlockPlace;
    var from, port := if second then |ranges| + 1 else 0, if second then 443 else 80;
    AcceptedEnd(gate, chain, ranges);
    forall i | 0 <= i <= |ranges| ensures BlockPlace(gate, chain, from, ranges, port, pkt, foreign, i) {
      AcceptedPlace(gate, chain, ranges, second, pkt, foreign, i);
    }
  }

  lemma OnlyFallThroughReadsSo(gate: Gate, rule: Rule)
    requires Canonical(gate, rule) == Read(FallThrough)
    ensures rule == FALL_THROUGH
  {
  }

  /** Where the probe for the i-th built rule found it. */
  lemma Listed(gate: Gate, chain: seq<Rule>, ranges: seq<Cidr>, i: nat) returns (p: nat)
    requires AllStrict(ranges) && ChainAccepted(gate, chain, ranges) && i < |ChainRules(gate, ranges)|
    ensures |chain| == |ChainCanons(ranges)| == |ChainRules(gate, ranges)|
    ensures p < |chain| && SameOptions(chain[p], Printed(ChainRules(gate, ranges)[i]))
    ensures ChainCanons(ranges)[p] == ChainCanons(ranges)[i]
  {
    hide SameOptions, CanonicalAll, Canonical;
    AcceptedReads(gate, chain, ranges);
    BuiltLength(gate, ranges);
    assert Probed(chain, ChainRules(gate, ranges)[i]);
    p :| 0 <= p < |chain| && SameOptions(chain[p], Printed(ChainRules(gate, ranges)[i]));
    ListedReads(gate, ranges, i, chain[p]);
  }

  lemma BlocksDecide(gate: Gate, chain: seq<Rule>, ranges: seq<Cidr>, pkt: Packet, foreign: Foreign)
    requires |chain| == 2 * |ranges| + 3 && chain[2 * |ranges| + 2..] == [FALL_THROUGH]
    requires PortBlock(gate, chain, 0, ranges, 80, pkt, foreign)
    requires PortBlock(gate, chain, |ranges| + 1, ranges, 443, pkt, foreign)
    ensures EvalChain(chain, pkt, foreign) == if Blocks(gate, ranges, pkt) then Drop else Return
  {
    BlockDecides(gate, chain, 0, ranges, 80, pkt, foreign);
    BlockDecides(gate, chain, |ranges| + 1, ranges, 443, pkt, foreign);
    assert chain[0..] == chain;
    FallThroughReturns(pkt, foreign);
  }

  /** First-match evaluation of any chain the verifier accepts drops exactly the
      packets the gate is to block and returns all others. */
  lemma AcceptedChainDecides(gate: Gate, chain: seq<Rule>, ranges: seq<Cidr>, pkt: Packet, foreign: Foreign)
    requires AllStrict(ranges) && ChainAccepted(gate, chain, ranges)
    ensures EvalChain(chain, pkt, foreign) == if Blocks(gate, ranges, pkt) then Drop else Return
  {
    AcceptedBlock(gate, chain, ranges, false, pkt, foreign);
    AcceptedBlock(gate, chain, ranges, true, pkt, foreign);
    AcceptedEnd(gate, chain, ranges);
    BlocksDecide(gate, chain, ranges, pkt, foreign);
  }

  lemma FallThroughReturns(pkt: Packet, foreign: Foreign)
    ensures RuleEffect(FALL_THROUGH, pkt, foreign) == Stop(Return)
  {
    assert FALL_THROUGH == [Jump, ReturnTarget] + [];
    MatchPair(Jump, ReturnTarget, [], pkt, foreign);
  }
}
