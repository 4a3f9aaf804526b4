/** What equal canonical sequences are worth without the `-C` probes, which chains
    cannot be read at all, and how the two gates compare. */
module GateForms {
  import opened Wrappers
  import opened Cidrs
  import opened GateRules
  import opened GateSemantics
  import opened OptionOrder
  import opened GateSoundness

  /** What the gates' options mean when nothing else ever matches or decides. */
  const INERT := Foreign((option, value, pkt) => false, (rule, pkt) => Continue)

  // ----- when equal canonical sequences mean equal behaviour

  /** The pair asks no more of a packet than the web rule it is part of. The canonical
      form keeps only the last value of an option, the kernel requires them all. */
  predicate PairSound(gate: Gate, pair: Pair, source: Option<Cidr>, port: nat) {
    match pair.option
    case Source =>
      pair.value.Block? && (source.Some? ==> Encloses(pair.value.net, source.value))
    case Protocol => pair.value == Tcp
    case Module => pair.value in {Tcp, Conntrack}
    case CtDir => pair.value == Original
    case Jump => true
    case _ => pair.option == PortOption(gate) && pair.value == Digits(port)
  }

  /** The addresses of `inner` are addresses of `outer`. */
  predicate Encloses(outer: Cidr, inner: Cidr) {
    outer.base <= inner.base && inner.Broadcast() <= outer.Broadcast()
  }

  predicate RuleSound(gate: Gate, rule: Rule, canon: Canon) {
    canon.Web? ==> forall pair :: pair in Pairs(rule) ==> PairSound(gate, pair, canon.source, canon.port)
  }

  /** No rule of the chain asks for more than it reads as. */
  predicate ChainSound(gate: Gate, chain: seq<Rule>, canons: seq<Canon>)
    requires |chain| == |canons|
  {
    forall i :: 0 <= i < |chain| ==> RuleSound(gate, chain[i], canons[i])
  }

  /** Every `-s` of a rule without a source in its canonical form would be one. */
  lemma {:induction false} ScannedPairs(gate: Gate, tokens: Rule, f: Fields)
    requires ScanFrom(gate, tokens, f).Scanned?
    ensures |tokens| % 2 == 0
    ensures forall pair :: pair in Pairs(tokens) ==> Readable(gate, pair)
    ensures ScanFrom(gate, tokens, f).fields.source.None? ==>
              f.source.None? && forall pair :: pair in Pairs(tokens) ==> pair.option != Source
    decreases |tokens|
  {
    hide ReadPair;
    if |tokens| >= 2 {
      var pair := Pair(tokens[0], tokens[1]);
      ReadPairShows(gate, pair, f);
      SourceStays(gate, pair, f);
      ScannedPairs(gate, tokens[2..], ReadPair(gate, tokens[0], tokens[1], f).fields);
      assert Pairs(tokens) == [pair] + Pairs(tokens[2..]);
    }
  }

  lemma SourceStays(gate: Gate, pair: Pair, f: Fields)
    ensures var next := ReadPair(gate, pair.option, pair.value, f);
            next.Scanned? && next.fields.source.None? ==> f.source.None? && pair.option != Source
  {
  }

  /** What a rule that reads as a web rule consists of. */
  lemma WebTokens(gate: Gate, rule: Rule, port: nat, source: Option<Cidr>, drop: bool)
    requires Canonical(gate, rule) == Read(Web(port, source, drop))
    ensures |rule| % 2 == 0
    ensures forall pair :: pair in Pairs(rule) ==> Readable(gate, pair)
    ensures source.None? ==> forall pair :: pair in Pairs(rule) ==> pair.option != Source
    ensures Target(rule, None) == Some(if drop then DropTarget else ReturnTarget)
  {
    hide ScanFrom;
    ScannedPairs(gate, rule, NO_FIELDS);
    ScanHolds(gate, rule, NO_FIELDS, Packet("", 0, true, 0, true, None), INERT);
  }

  lemma PairHoldsIfSound(gate: Gate, pair: Pair, source: Option<Cidr>, port: nat, pkt: Packet, foreign: Foreign)
    requires Readable(gate, pair) && PairSound(gate, pair, source, port)
    requires WebAt(gate, pkt, port) && (source.Some? ==> source.value.Strict() && source.value.Has(pkt.src))
    requires pair.option == Source ==> source.Some?
    ensures PairHolds(pair, pkt, foreign)
  {
    if pair.option == Source {
      HasIsInterval(source.value, pkt.src);
      HasIsInterval(pair.value.net, pkt.src);
    }
  }

  /** A sound rule acts on everything it reads as. */
  lemma SoundActs(gate: Gate, rule: Rule, port: nat, source: Option<Cidr>, drop: bool, pkt: Packet, foreign: Foreign)
    requires Canonical(gate, rule) == Read(Web(port, source, drop)) && (source.Some? ==> source.value.Strict())
    requires RuleSound(gate, rule, Web(port, source, drop))
    ensures ActsFor(gate, rule, source, port, drop, pkt, foreign)
  {
    hide Canonical, Matches, Target, PairSound, PairHolds;
    WebTokens(gate, rule, port, source, drop);
    MatchesByPairs(rule, pkt, foreign);
    if WebAt(gate, pkt, port) && (source.Some? ==> source.value.Has(pkt.src)) {
      forall pair | pair in Pairs(rule) ensures PairHolds(pair, pkt, foreign) {
        PairHoldsIfSound(gate, pair, source, port, pkt, foreign);
      }
    }
  }

  /** A web packet as both gates see it before any rewriting. */
  function PlainPacket(src: nat, port: nat): Packet {
    Packet("", src, true, port, true, Some(port))
  }

  /** An unsound pair keeps its rule from some packet the rule is for. */
  lemma UnsoundPairMisses(gate: Gate, pair: Pair, source: Option<Cidr>, port: nat, free: nat) returns (src: nat)
    requires Readable(gate, pair) && !PairSound(gate, pair, source, port)
    requires source.Some? ==> source.value.Strict()
    requires pair.option == Source ==> source.Some?
    ensures if source.Some? then source.value.Has(src) else src == free
    ensures !PairHolds(pair, PlainPacket(src, port), INERT)
  {
    src := free;
    if source.Some? {
      src := source.value.base;
      HasIsInterval(source.value, src);
      if pair.option == Source && pair.value.net.base <= src {
        src := source.value.Broadcast();
        HasIsInterval(source.value, src);
      }
      if pair.option == Source {
        HasIsInterval(pair.value.net, src);
      }
    }
  }

  /** So an unsound rule passes over it. */
  lemma UnsoundMisses(gate: Gate, rule: Rule, port: nat, source: Option<Cidr>, drop: bool, free: nat) returns (src: nat)
    requires Canonical(gate, rule) == Read(Web(port, source, drop)) && (source.Some? ==> source.value.Strict())
    requires !RuleSound(gate, rule, Web(port, source, drop))
    ensures if source.Some? then source.value.Has(src) else src == free
    ensures RuleEffect(rule, PlainPacket(src, port), INERT) == Continue
  {
    hide Canonical, PairSound, PairHolds, Matches, Readable;
    WebTokens(gate, rule, port, source, drop);
    var pair :| pair in Pairs(rule) && !PairSound(gate, pair, source, port);
    src := UnsoundPairMisses(gate, pair, source, port, free);
    MatchesByPairs(rule, PlainPacket(src, port), INERT);
  }

  predicate Disjoint(ranges: seq<Cidr>) {
    forall i, j :: 0 <= i < j < |ranges| ==> !Overlaps(ranges[i], ranges[j]) && ranges[i].family == ranges[j].family
  }

  lemma InOneRange(ranges: seq<Cidr>, i: nat, j: nat, addr: nat)
    requires AllStrict(ranges) && Disjoint(ranges) && i < |ranges| && j < |ranges|
    requires ranges[i].Has(addr) && ranges[j].Has(addr)
    ensures i == j
  {
    if i < j {
      OverlapMeansNesting(ranges[i], ranges[j]);
    } else if j < i {
      OverlapMeansNesting(ranges[j], ranges[i]);
    }
  }

  /** An address behind every range. */
  function Beyond(ranges: seq<Cidr>): nat {
    if ranges == [] then 0
    else if ranges[0].Broadcast() >= Beyond(ranges[1..]) then ranges[0].Broadcast() + 1
    else Beyond(ranges[1..])
  }

  lemma {:induction false} BeyondIsOutside(ranges: seq<Cidr>)
    requires AllStrict(ranges)
    ensures forall i :: 0 <= i < |ranges| ==> ranges[i].Broadcast() < Beyond(ranges)
    ensures !InRanges(ranges, Beyond(ranges))
  {
    if ranges != [] {
      BeyondIsOutside(ranges[1..]);
      assert forall i :: 1 <= i < |ranges| ==> ranges[i] == ranges[1..][i - 1];
    }
    forall i | 0 <= i < |ranges| ensures !ranges[i].Has(Beyond(ranges)) {
      HasIsInterval(ranges[i], Beyond(ranges));
    }
  }

  /** A chain that reads as the built one and whose rules are sound decides like it. */
  lemma SoundChainDecides(gate: Gate, chain: seq<Rule>, ranges: seq<Cidr>, pkt: Packet, foreign: Foreign)
    requires AllStrict(ranges) && CanonicalAll(gate, chain) == Sequence(ChainCanons(ranges))
    requires |chain| == |ChainCanons(ranges)| && ChainSound(gate, chain, ChainCanons(ranges))
    ensures EvalChain(chain, pkt, foreign) == if Blocks(gate, ranges, pkt) then Drop else Return
  {
    SequenceAt(gate, chain, ChainCanons(ranges));
    CanonAt(ranges, 2 * |ranges| + 2);
    OnlyFallThroughReadsSo(gate, chain[2 * |ranges| + 2]);
    SoundBlock(gate, chain, ranges, false, pkt, foreign);
    SoundBlock(gate, chain, ranges, true, pkt, foreign);
    BlocksDecide(gate, chain, ranges, pkt, foreign);
  }

  lemma SoundBlock(gate: Gate, chain: seq<Rule>, ranges: seq<Cidr>, second: bool, pkt: Packet, foreign: Foreign)
    requires AllStrict(ranges) && CanonicalAll(gate, chain) == Sequence(ChainCanons(ranges))
    requires |chain| == |ChainCanons(ranges)| && ChainSound(gate, chain, ChainCanons(ranges))
    ensures PortBlock(gate, chain, if second then |ranges| + 1 else 0, ranges, if second then 443 else 80, pkt, foreign)
  {
    hide Canonical, CanonicalAll, ActsFor, RuleSound;
    SequenceAt(gate, chain, ChainCanons(ranges));
    var from, port := if second then |ranges| + 1 else 0, if second then 443 else 80;
    forall i | 0 <= i <= |ranges| ensures BlockPlace(gate, chain, from, ranges, port, pkt, foreign, i) {
      CanonAt(ranges, from + i);
      var source := if i < |ranges| then Some(ranges[i]) else None;
      SoundActs(gate, chain[from + i], port, source, i == |ranges|, pkt, foreign);
    }
  }

  /** At the `k`-th place of a chain that reads as the built one. */
  lemma PlaceReads(gate: Gate, chain: seq<Rule>, ranges: seq<Cidr>, k: nat, port: nat, source: Option<Cidr>, drop: bool)
    requires CanonicalAll(gate, chain) == Sequence(ChainCanons(ranges)) && k < |ChainCanons(ranges)|
    requires ChainCanons(ranges)[k] == Web(port, source, drop)
    ensures k < |chain| && Canonical(gate, chain[k]) == Read(Web(port, source, drop))
    ensures source.Some? ==> source.value in ranges
  {
    SequenceAt(gate, chain, ChainCanons(ranges));
    CanonAt(ranges, k);
  }

  /** A rule other than the `k`-th passes over a packet of `k`'s port from `k`'s
      source, or, where `k` is a DROP rule, from outside all ranges; unless it is the
      final RETURN or, for a RETURN rule `k`, its port's DROP rule. */
  lemma OthersMiss(gate: Gate, chain: seq<Rule>, ranges: seq<Cidr>, k: nat, m: nat, src: nat, port: nat,
                   source: Option<Cidr>, drop: bool)
    requires AllStrict(ranges) && Disjoint(ranges) && CanonicalAll(gate, chain) == Sequence(ChainCanons(ranges))
    requires k < |ChainCanons(ranges)| && ChainCanons(ranges)[k] == Web(port, source, drop)
    requires if source.Some? then source.value.Has(src) else !InRanges(ranges, src)
    requires m < |ChainCanons(ranges)| && m != k && ChainCanons(ranges)[m].Web?
    requires source.None? || ChainCanons(ranges)[m] != Web(port, None, true)
    ensures m < |chain| && RuleEffect(chain[m], PlainPacket(src, port), INERT) == Continue
  {
    hide Canonical, CanonicalAll, RuleEffect, ChainCanons, InRanges, Disjoint;
    var canon := ChainCanons(ranges)[m];
    PlaceReads(gate, chain, ranges, m, canon.port, canon.source, canon.drop);
    WebEffect(gate, chain[m], canon.port, canon.source, canon.drop, PlainPacket(src, port), INERT);
    OthersElsewhere(ranges, k, m, src, port, source, drop);
  }

  /** Such a rule is for another port or another source. */
  lemma OthersElsewhere(ranges: seq<Cidr>, k: nat, m: nat, src: nat, port: nat, source: Option<Cidr>, drop: bool)
    requires AllStrict(ranges) && Disjoint(ranges)
    requires k < |ChainCanons(ranges)| && ChainCanons(ranges)[k] == Web(port, source, drop)
    requires if source.Some? then source.value.Has(src) else !InRanges(ranges, src)
    requires m < |ChainCanons(ranges)| && m != k && ChainCanons(ranges)[m].Web?
    requires source.None? || ChainCanons(ranges)[m] != Web(port, None, true)
    ensures var canon := ChainCanons(ranges)[m];
            canon.port != port || (canon.source.Some? && !canon.source.value.Has(src))
  {
    var canon := ChainCanons(ranges)[m];
    CanonAt(ranges, k);
    CanonAt(ranges, m);
    var n := |ranges|;
    if canon.port == port && canon.source.Some? && source.Some? && canon.source.value.Has(src) {
      InOneRange(ranges, if m < n then m else m - n - 1, if k < n then k else k - n - 1, src);
    }
  }

  /** An unsound DROP rule lets a web packet by. */
  lemma UnsoundDropLeaks(gate: Gate, chain: seq<Rule>, ranges: seq<Cidr>, k: nat, port: nat)
    requires AllStrict(ranges) && Disjoint(ranges) && CanonicalAll(gate, chain) == Sequence(ChainCanons(ranges))
    requires k < |chain| == |ChainCanons(ranges)| && ChainCanons(ranges)[k] == Web(port, None, true)
    requires !RuleSound(gate, chain[k], ChainCanons(ranges)[k])
    ensures var pkt := PlainPacket(Beyond(ranges), port);
            Blocks(gate, ranges, pkt) && EvalChain(chain, pkt, INERT) == Return
  {
    hide Canonical, CanonicalAll, RuleEffect, RuleSound;
    var src, last := Beyond(ranges), 2 * |ranges| + 2;
    BeyondIsOutside(ranges);
    PlaceReads(gate, chain, ranges, k, port, None, true);
    var missed := UnsoundMisses(gate, chain[k], port, None, true, src);
    CanonAt(ranges, k);
    CanonAt(ranges, last);
    forall m | 0 <= m < last ensures RuleEffect(chain[m], PlainPacket(src, port), INERT) == Continue {
      CanonAt(ranges, m);
      if m != k {
        OthersMiss(gate, chain, ranges, k, m, src, port, None, true);
      }
    }
    LastReturns(gate, chain, ranges, PlainPacket(src, port), INERT);
    FirstReturn(chain, last, PlainPacket(src, port), INERT);
  }

  lemma LastReturns(gate: Gate, chain: seq<Rule>, ranges: seq<Cidr>, pkt: Packet, foreign: Foreign)
    requires CanonicalAll(gate, chain) == Sequence(ChainCanons(ranges))
    ensures |chain| == 2 * |ranges| + 3
    ensures RuleEffect(chain[2 * |ranges| + 2], pkt, foreign) == Stop(Return)
  {
    SequenceAt(gate, chain, ChainCanons(ranges));
    CanonAt(ranges, 2 * |ranges| + 2);
    OnlyFallThroughReadsSo(gate, chain[2 * |ranges| + 2]);
    FallThroughReturns(pkt, foreign);
  }

  /** With a sound DROP rule, an unsound RETURN rule drops a packet of its range. */
  lemma UnsoundReturnDrops(gate: Gate, chain: seq<Rule>, ranges: seq<Cidr>, k: nat, port: nat, net: Cidr)
    returns (src: nat)
    requires AllStrict(ranges) && Disjoint(ranges) && CanonicalAll(gate, chain) == Sequence(ChainCanons(ranges))
    requires k < |chain| == |ChainCanons(ranges)| && ChainCanons(ranges)[k] == Web(port, Some(net), false)
    requires !RuleSound(gate, chain[k], ChainCanons(ranges)[k])
    requires forall m :: 0 <= m < |chain| && ChainCanons(ranges)[m] == Web(port, None, true) ==>
                           RuleSound(gate, chain[m], ChainCanons(ranges)[m])
    ensures var pkt := PlainPacket(src, port);
            !Blocks(gate, ranges, pkt) && EvalChain(chain, pkt, INERT) == Drop
  {
    hide Canonical, CanonicalAll, RuleEffect, RuleSound, EvalChain;
    var n := |ranges|;
    PlaceReads(gate, chain, ranges, k, port, Some(net), false);
    CanonAt(ranges, k);
    src := UnsoundMisses(gate, chain[k], port, Some(net), false, 0);
    var pkt := PlainPacket(src, port);
    var d := if port == 80 then n else 2 * n + 1;
    CanonAt(ranges, d);
    PlaceReads(gate, chain, ranges, d, port, None, true);
    SoundActs(gate, chain[d], port, None, true, pkt, INERT);
    forall m | 0 <= m < d ensures RuleEffect(chain[m], pkt, INERT) == Continue {
      CanonAt(ranges, m);
      if m != k {
        OthersMiss(gate, chain, ranges, k, m, src, port, Some(net), false);
      }
    }
    SkipContinues(chain, d, pkt, INERT);
    FirstStops(chain[d..], pkt, INERT);
  }

  /** Exactly when a chain with the right canonical sequence decides like the range
      list, for every packet and every meaning of what the gates do not interpret: when
      no rule carries a pair that asks for more than the rule reads as. */
  lemma ComparisonIsSoundIff(gate: Gate, chain: seq<Rule>, ranges: seq<Cidr>)
    requires AllStrict(ranges) && Disjoint(ranges) && CanonicalAll(gate, chain) == Sequence(ChainCanons(ranges))
    ensures |chain| == |ChainCanons(ranges)|
    ensures (forall pkt, foreign ::
               EvalChain(chain, pkt, foreign) == if Blocks(gate, ranges, pkt) then Drop else Return)
       <==> ChainSound(gate, chain, ChainCanons(ranges))
  {
    hide EvalChain, CanonicalAll, Blocks, RuleSound;
    SequenceAt(gate, chain, ChainCanons(ranges));
    var canons := ChainCanons(ranges);
    if ChainSound(gate, chain, canons) {
      forall pkt, foreign ensures EvalChain(chain, pkt, foreign) == if Blocks(gate, ranges, pkt) then Drop else Return {
        SoundChainDecides(gate, chain, ranges, pkt, foreign);
      }
    } else if k :|
      0 <= k < |chain| && canons[k].Web? && canons[k].source.None? && !RuleSound(gate, chain[k], canons[k])
    {
      CanonAt(ranges, k);
      UnsoundDropLeaks(gate, chain, ranges, k, canons[k].port);
    } else {
      var k :| 0 <= k < |chain| && !RuleSound(gate, chain[k], canons[k]);
      CanonAt(ranges, k);
      FallThroughSound(gate, chain[k]);
      var src := UnsoundReturnDrops(gate, chain, ranges, k, canons[k].port, canons[k].source.value);
    }
  }

  lemma FallThroughSound(gate: Gate, rule: Rule)
    ensures RuleSound(gate, rule, FallThrough)
  {
  }

  // ----- why the `-C` probes are needed

  /** `-p tcp -m socket -m tcp --dport 80 -j DROP`: a match on local sockets slipped
      into the port 80 drop of the raw gate. */
  const SOCKET_DROP: Rule :=
    [Protocol, Tcp] + ([Module, Other("socket")] + (PortPart(PreDnat, 80, true) + Verdict(true)))

  /** The installed chain for no ranges at all, with that rule in it. */
  function Tampered(): seq<Rule> {
    [SOCKET_DROP, WebRule(PreDnat, None, 443, true, true), FALL_THROUGH]
  }

  lemma SocketDropReads()
    ensures Canonical(PreDnat, SOCKET_DROP) == Read(Web(80, None, true))
    ensures Pair(Module, Other("socket")) in Pairs(SOCKET_DROP)
  {
    var rest := PortPart(PreDnat, 80, true) + Verdict(true);
    var f1 := NO_FIELDS.(protocol := Some(Tcp));
    var f2 := f1.(matcher := Some(Other("socket")));
    ScanPair(PreDnat, Protocol, Tcp, [Module, Other("socket")] + rest, NO_FIELDS);
    ScanPair(PreDnat, Module, Other("socket"), rest, f1);
    ScanPort(PreDnat, 80, Verdict(true), f2, true);
    VerdictScans(PreDnat, true, AfterPort(PreDnat, 80, true, f2));
    PairsCons(Protocol, Tcp, [Module, Other("socket")] + rest);
    PairsCons(Module, Other("socket"), rest);
  }

  lemma TamperedReads()
    ensures CanonicalAll(PreDnat, Tampered()) == CanonicalAll(PreDnat, ChainRules(PreDnat, []))
        == Sequence(ChainCanons([]))
  {
    hide Canonical, SOCKET_DROP, WebRule, FALL_THROUGH, ChainRules;
    SocketDropReads();
    WebRuleReads(PreDnat, None, 443, true, true);
    FallThroughReads(PreDnat);
    BuiltChainReads(PreDnat, []);
    var lines, canons := Tampered(), ChainCanons([]);
    assert canons == [Web(80, None, true), Web(443, None, true), FallThrough];
    forall i | 0 <= i < 3 ensures LineReading(PreDnat, lines[i]) == Read(canons[i]) {
      ReadLine(PreDnat, lines[i]);
    }
    SequenceOf(PreDnat, lines, canons);
  }

  lemma ReadLine(gate: Gate, line: Rule)
    ensures Canonical(gate, line).Read? ==> LineReading(gate, line) == Canonical(gate, line)
  {
  }

  /** The canonical sequences alone do not distinguish the tampered chain, although
      it lets web packets through; the probe for the displaced rule does. */
  lemma ComparisonAloneIsUnsound()
    ensures CanonicalAll(PreDnat, Tampered()) == CanonicalAll(PreDnat, ChainRules(PreDnat, []))
    ensures var pkt := PlainPacket(0, 80); Blocks(PreDnat, [], pkt) && EvalChain(Tampered(), pkt, INERT) == Return
    ensures !ChainAccepted(PreDnat, Tampered(), [])
  {
    hide Canonical, CanonicalAll, EvalChain, ChainAccepted, SOCKET_DROP;
    TamperedReads();
    SocketDropReads();
    SequenceAt(PreDnat, Tampered(), ChainCanons([]));
    CanonAt([], 0);
    assert !PairSound(PreDnat, Pair(Module, Other("socket")), None, 80);
    UnsoundDropLeaks(PreDnat, Tampered(), [], 0, 80);
    if ChainAccepted(PreDnat, Tampered(), []) {
      AcceptedChainDecides(PreDnat, Tampered(), [], PlainPacket(0, 80), INERT);
      assert false;
    }
  }

  // ----- chains that cannot be read

  /** A `-s` that is no canonical CIDR block, or a port that only looks like digits. */
  predicate BadValue(gate: Gate, pair: Pair) {
    || (pair.option == Source && !(pair.value.Block? && pair.value.net.Strict()))
    || (pair.option == PortOption(gate) && pair.value.DigitLike?)
  }

  /** The first pair of the rule that cannot be read has a bad value. */
  predicate StopsAtBadValue(gate: Gate, rule: Rule) {
    exists m :: 0 <= m < |Pairs(rule)| && BadAt(gate, rule, m)
  }

  predicate BadAt(gate: Gate, rule: Rule, m: nat)
    requires m < |Pairs(rule)|
  {
    BadValue(gate, Pairs(rule)[m]) && forall j :: 0 <= j < m ==> Readable(gate, Pairs(rule)[j])
  }

  predicate BadLine(gate: Gate, line: Rule) {
    (|line| == 1 && line[0].Unsplit?) || StopsAtBadValue(gate, line)
  }

  /** The first line that does not read as a rule of the gate is one with an
      unbalanced quote, or with a bad value before anything else is wrong with it. */
  predicate BadLineFirst(gate: Gate, chain: seq<Rule>) {
    exists k :: 0 <= k < |chain| && BadLine(gate, chain[k]) && ReadableBefore(gate, chain, k)
  }

  predicate ReadableBefore(gate: Gate, chain: seq<Rule>, k: nat)
    requires k <= |chain|
  {
    forall i :: 0 <= i < k ==> LineReading(gate, chain[i]).Read?
  }

  lemma BadValueCrashes(gate: Gate, pair: Pair, f: Fields)
    ensures ReadPair(gate, pair.option, pair.value, f).ScanCrashed? <==> BadValue(gate, pair)
    ensures ReadPair(gate, pair.option, pair.value, f).Scanned? <==> Readable(gate, pair)
  {
  }

  lemma {:induction false} ScanCrashesIff(gate: Gate, rule: Rule, f: Fields)
    ensures ScanFrom(gate, rule, f).ScanCrashed? <==> StopsAtBadValue(gate, rule)
    decreases |rule|
  {
    hide ReadPair, BadValue;
    if |rule| >= 2 {
      var pair, rest, pairs := Pair(rule[0], rule[1]), rule[2..], Pairs(rule);
      var next := ReadPair(gate, rule[0], rule[1], f);
      BadValueCrashes(gate, pair, f);
      assert pairs[0] == pair;
      assert forall i :: 1 <= i < |pairs| ==> pairs[i] == Pairs(rest)[i - 1];
      if next.Scanned? {
        ScanCrashesIff(gate, rest, next.fields);
        forall m | 0 <= m < |Pairs(rest)| ensures BadAt(gate, rest, m) <==> BadAt(gate, rule, m + 1) {
          assert forall j :: 0 <= j < m ==> Pairs(rest)[j] == pairs[j + 1];
        }
        if m :| 0 <= m < |Pairs(rest)| && BadAt(gate, rest, m) {
          assert BadAt(gate, rule, m + 1);
        }
        if m :| 0 <= m < |pairs| && BadAt(gate, rule, m) {
          assert m > 0;
          assert BadAt(gate, rest, m - 1);
        }
      } else if next.ScanCrashed? {
        assert BadAt(gate, rule, 0);
      }
    }
  }

  /** Exactly when reading a line ends in an uncaught ValueError. */
  lemma UnreadableIff(gate: Gate, line: Rule)
    ensures LineReading(gate, line) == Unreadable <==> BadLine(gate, line)
  {
    ScanCrashesIff(gate, line, NO_FIELDS);
    if line == FALL_THROUGH {
      assert Pairs(line) == [Pair(Jump, ReturnTarget)];
    }
  }

  /** Exactly when reading a chain does. */
  lemma {:induction false} ChainUnreadableIff(gate: Gate, chain: seq<Rule>)
    ensures CanonicalAll(gate, chain).ListCrashed? <==> BadLineFirst(gate, chain)
  {
    hide LineReading, BadLine;
    if chain != [] {
      var rest := chain[1..];
      UnreadableIff(gate, chain[0]);
      ChainUnreadableIff(gate, rest);
      if LineReading(gate, chain[0]).Read? {
        if k :| 0 <= k < |rest| && BadLine(gate, rest[k]) && ReadableBefore(gate, rest, k) {
          assert BadLine(gate, chain[k + 1]) && ReadableBefore(gate, chain, k + 1);
        }
        if k :| 0 <= k < |chain| && BadLine(gate, chain[k]) && ReadableBefore(gate, chain, k) {
          assert k > 0;
          assert BadLine(gate, rest[k - 1]) && ReadableBefore(gate, rest, k - 1);
        }
      } else if BadLine(gate, chain[0]) {
        assert ReadableBefore(gate, chain, 0);
      }
    }
  }

  // ----- the two gates

  /** On a packet whose destination port is still the one it was sent to, accepted
      chains of the two gates decide alike. */
  lemma GatesAgree(pre: seq<Rule>, docker: seq<Rule>, ranges: seq<Cidr>, pkt: Packet, foreign: Foreign)
    requires AllStrict(ranges) && ChainAccepted(PreDnat, pre, ranges) && ChainAccepted(DockerUser, docker, ranges)
    requires pkt.original && pkt.origPort == Some(pkt.dport)
    ensures EvalChain(pre, pkt, foreign) == EvalChain(docker, pkt, foreign)
  {
    AcceptedChainDecides(PreDnat, pre, ranges, pkt, foreign);
    AcceptedChainDecides(DockerUser, docker, ranges, pkt, foreign);
  }
}
