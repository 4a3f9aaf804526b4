/** The order of a rule's options: it changes neither how a rule reads nor what it
    does. `iptables -S` prints options in the order its extensions choose. */
module OptionOrder {
  import opened Wrappers
  import opened Cidrs
  import opened Ranges
  import opened GateRules
  import opened GateSemantics

  function Flatten(pairs: seq<Pair>): Rule {
    if pairs == [] then [] else [pairs[0].option, pairs[0].value] + Flatten(pairs[1..])
  }

  /** Field by field: the value of the option if some pair has it, else as before. */
  ghost predicate Collected(gate: Gate, pairs: seq<Pair>, before: Fields, after: Fields) {
    && (forall i :: 0 <= i < |pairs| ==> Shows(gate, pairs[i], after))
    && (forall option :: Absent(pairs, option) ==> SameField(gate, option, before, after))
  }

  predicate Absent(pairs: seq<Pair>, option: Token) {
    forall i :: 0 <= i < |pairs| ==> pairs[i].option != option
  }

  predicate SameField(gate: Gate, option: Token, a: Fields, b: Fields) {
    match option
    case Source => a.source == b.source
    case Protocol => a.protocol == b.protocol
    case Module => a.matcher == b.matcher
    case CtDir => a.direction == b.direction
    case Jump => a.jump == b.jump
    case _ => option == PortOption(gate) ==> a.port == b.port
  }

  predicate Shows(gate: Gate, pair: Pair, f: Fields) {
    match pair.option
    case Source => pair.value.Block? && f.source == Some(pair.value.net)
    case Protocol => f.protocol == Some(pair.value)
    case Module => f.matcher == Some(pair.value)
    case CtDir => f.direction == Some(pair.value)
    case Jump => f.jump == Some(pair.value)
    case _ => pair.option == PortOption(gate) && pair.value.Digits? && f.port == Some(pair.value.n)
  }

  predicate Readable(gate: Gate, pair: Pair) {
    ReadPair(gate, pair.option, pair.value, NO_FIELDS).Scanned?
  }

  predicate DistinctOptions(pairs: seq<Pair>) {
    forall i, j :: 0 <= i < j < |pairs| ==> pairs[i].option != pairs[j].option
  }

  lemma ReadPairShows(gate: Gate, pair: Pair, f: Fields)
    ensures ReadPair(gate, pair.option, pair.value, f).Scanned? <==> Readable(gate, pair)
    ensures Readable(gate, pair) ==>
              var next := ReadPair(gate, pair.option, pair.value, f).fields;
              && Shows(gate, pair, next)
              && forall option :: option != pair.option ==> SameField(gate, option, f, next)
  {
  }

  lemma {:induction false} ScanCollects(gate: Gate, pairs: seq<Pair>, f: Fields)
    requires DistinctOptions(pairs)
    ensures ScanFrom(gate, Flatten(pairs), f).Scanned? <==> forall i :: 0 <= i < |pairs| ==> Readable(gate, pairs[i])
    ensures var r := ScanFrom(gate, Flatten(pairs), f); r.Scanned? ==> Collected(gate, pairs, f, r.fields)
    decreases |pairs|
  {
    if pairs != [] {
      var rest, next := pairs[1..], ReadPair(gate, pairs[0].option, pairs[0].value, f);
      ScanPair(gate, pairs[0].option, pairs[0].value, Flatten(rest), f);
      ReadPairShows(gate, pairs[0], f);
      assert forall i :: 1 <= i < |pairs| ==> pairs[i] == rest[i - 1];
      if next.Scanned? {
        ScanCollects(gate, rest, next.fields);
        var r := ScanFrom(gate, Flatten(pairs), f);
        if r.Scanned? {
          CollectFirst(gate, pairs, f, next.fields, r.fields);
        }
      }
    }
  }

  lemma CollectFirst(gate: Gate, pairs: seq<Pair>, f: Fields, mid: Fields, after: Fields)
    requires pairs != [] && DistinctOptions(pairs)
    requires Shows(gate, pairs[0], mid) && Collected(gate, pairs[1..], mid, after)
    requires forall option :: option != pairs[0].option ==> SameField(gate, option, f, mid)
    ensures Collected(gate, pairs, f, after)
  {
    var rest := pairs[1..];
    assert Absent(rest, pairs[0].option);
    assert SameField(gate, pairs[0].option, mid, after);
    forall option | Absent(pairs, option) ensures SameField(gate, option, f, after) {
      assert pairs[0].option != option;
      assert Absent(rest, option);
      assert SameField(gate, option, f, mid) && SameField(gate, option, mid, after);
    }
    forall i | 0 <= i < |pairs| ensures Shows(gate, pairs[i], after) {
      if i > 0 {
        assert pairs[i] == rest[i - 1];
      }
    }
  }

  lemma FieldDetermined(gate: Gate, p: seq<Pair>, q: seq<Pair>, f: Fields, a: Fields, b: Fields, option: Token)
    requires forall pair :: pair in p <==> pair in q
    requires Collected(gate, p, f, a) && Collected(gate, q, f, b)
    ensures SameField(gate, option, a, b)
  {
    if i :| 0 <= i < |p| && p[i].option == option {
      assert p[i] in q;
      var j :| 0 <= j < |q| && q[j] == p[i];
      assert Shows(gate, p[i], a) && Shows(gate, q[j], b);
    } else {
      forall j | 0 <= j < |q| ensures q[j].option != option {
        assert q[j] in p;
      }
      assert Absent(p, option) && Absent(q, option);
    }
  }

  lemma CollectedUnique(gate: Gate, p: seq<Pair>, q: seq<Pair>, f: Fields, a: Fields, b: Fields)
    requires forall pair :: pair in p <==> pair in q
    requires Collected(gate, p, f, a) && Collected(gate, q, f, b)
    ensures a == b
  {
    forall option ensures SameField(gate, option, a, b) {
      FieldDetermined(gate, p, q, f, a, b, option);
    }
    assert SameField(gate, Source, a, b) && SameField(gate, Protocol, a, b) && SameField(gate, Module, a, b);
    assert SameField(gate, CtDir, a, b) && SameField(gate, Jump, a, b) && SameField(gate, PortOption(gate), a, b);
  }

  /** The order of a rule's options does not change what it reads as. */
  lemma CanonicalIgnoresOptionOrder(gate: Gate, p: seq<Pair>, q: seq<Pair>)
    requires DistinctOptions(p) && DistinctOptions(q) && multiset(p) == multiset(q)
    ensures Canonical(gate, Flatten(p)).Read? ==> Canonical(gate, Flatten(q)) == Canonical(gate, Flatten(p))
  {
    if Canonical(gate, Flatten(p)).Read? {
      forall pair ensures pair in p <==> pair in q {
        assert pair in multiset(p) <==> pair in multiset(q);
      }
      if Flatten(p) == FALL_THROUGH || Flatten(q) == FALL_THROUGH {
        assert |p| == |multiset(p)| == |q|;
        FlattenLength(p);
        FlattenLength(q);
        assert p[0] in q;
        assert p == q;
      } else {
        ScanCollects(gate, p, NO_FIELDS);
        ScanCollects(gate, q, NO_FIELDS);
        forall i | 0 <= i < |q| ensures Readable(gate, q[i]) {
          assert q[i] in p;
        }
        CollectedUnique(gate, p, q, NO_FIELDS,
                        ScanFrom(gate, Flatten(p), NO_FIELDS).fields, ScanFrom(gate, Flatten(q), NO_FIELDS).fields);
      }
    }
  }

  lemma {:induction false} FlattenLength(pairs: seq<Pair>)
    ensures |Flatten(pairs)| == 2 * |pairs|
  {
    if pairs != [] {
      FlattenLength(pairs[1..]);
    }
  }

  // ----- rules as token lists

  lemma {:induction false} FlattenPairs(rule: Rule)
    requires |rule| % 2 == 0
    ensures Flatten(Pairs(rule)) == rule
  {
    if rule != [] {
      FlattenPairs(rule[2..]);
      assert rule == [rule[0], rule[1]] + rule[2..];
    }
  }

  lemma PairsCons(option: Token, value: Token, rest: Rule)
    ensures Pairs([option, value] + rest) == [Pair(option, value)] + Pairs(rest)
  {
    assert ([option, value] + rest)[2..] == rest;
  }

  lemma DistinctPermuted(p: seq<Pair>, q: seq<Pair>)
    requires multiset(p) == multiset(q) && DistinctOptions(p)
    ensures DistinctOptions(q)
  {
    forall i, j | 0 <= i < j < |q| ensures q[i].option != q[j].option {
      assert q[i] in multiset(p) && q[j] in multiset(p);
      var k, m :| 0 <= k < |p| && 0 <= m < |p| && p[k] == q[i] && p[m] == q[j];
      if k == m {
        CountTwice(q, i, j);
        forall x, y | 0 <= x < y < |p| ensures p[x] != p[y] {
          assert p[x].option != p[y].option;
        }
        CountOnce(p, p[k]);
        assert false;
      }
    }
  }

  /** A readable rule and any reordering of it read alike. */
  lemma OrderReads(gate: Gate, line: Rule, rule: Rule)
    requires SameOptions(line, rule) && DistinctOptions(Pairs(rule)) && Canonical(gate, rule).Read?
    ensures Canonical(gate, line) == Canonical(gate, rule) && LineReading(gate, line) == Canonical(gate, rule)
  {
    FlattenPairs(line);
    FlattenPairs(rule);
    DistinctPermuted(Pairs(rule), Pairs(line));
    CanonicalIgnoresOptionOrder(gate, Pairs(rule), Pairs(line));
  }

  // ----- what a reordered rule does

  predicate PairHolds(pair: Pair, pkt: Packet, foreign: Foreign) {
    PairMatches(pair.option, pair.value, pkt, foreign)
  }

  lemma {:induction false} MatchesByPairs(rule: Rule, pkt: Packet, foreign: Foreign)
    requires |rule| % 2 == 0
    ensures Matches(rule, pkt, foreign) <==> forall pair :: pair in Pairs(rule) ==> PairHolds(pair, pkt, foreign)
    decreases |rule|
  {
    hide PairMatches;
    if rule != [] {
      MatchesByPairs(rule[2..], pkt, foreign);
      assert Pairs(rule) == [Pair(rule[0], rule[1])] + Pairs(rule[2..]);
      assert PairHolds(Pair(rule[0], rule[1]), pkt, foreign) <==> PairMatches(rule[0], rule[1], pkt, foreign);
      assert Pair(rule[0], rule[1]) in Pairs(rule);
    }
  }

  lemma {:induction false} TargetByPairs(rule: Rule, found: Option<Token>)
    requires DistinctOptions(Pairs(rule))
    ensures Absent(Pairs(rule), Jump) ==> Target(rule, found) == found
    ensures forall i :: 0 <= i < |Pairs(rule)| && Pairs(rule)[i].option == Jump ==>
        Target(rule, found) == Some(Pairs(rule)[i].value)
    decreases |rule|
  {
    if |rule| >= 2 {
      var rest, pairs := rule[2..], Pairs(rule);
      assert forall i :: 1 <= i < |pairs| ==> pairs[i] == Pairs(rest)[i - 1];
      assert forall i :: 0 <= i < |Pairs(rest)| ==> Pairs(rest)[i] == pairs[i + 1];
      assert pairs[0].option == rule[0];
      TargetByPairs(rest, if rule[0] == Jump then Some(rule[1]) else found);
    }
  }

  lemma OrderMatches(line: Rule, rule: Rule, pkt: Packet, foreign: Foreign)
    requires SameOptions(line, rule)
    ensures Matches(line, pkt, foreign) <==> Matches(rule, pkt, foreign)
  {
    hide Matches, Pairs, PairHolds;
    MatchesByPairs(line, pkt, foreign);
    MatchesByPairs(rule, pkt, foreign);
    forall pair ensures pair in Pairs(line) <==> pair in Pairs(rule) {
      assert pair in multiset(Pairs(line)) <==> pair in multiset(Pairs(rule));
    }
  }

  lemma OrderTargets(line: Rule, rule: Rule)
    requires SameOptions(line, rule) && DistinctOptions(Pairs(rule))
    ensures Target(line, None) == Target(rule, None)
  {
    var p, q := Pairs(line), Pairs(rule);
    DistinctPermuted(q, p);
    TargetByPairs(line, None);
    TargetByPairs(rule, None);
    if i :| 0 <= i < |p| && p[i].option == Jump {
      assert p[i] in multiset(q);
      var j :| 0 <= j < |q| && q[j] == p[i];
    } else {
      forall j | 0 <= j < |q| ensures q[j].option != Jump {
        assert q[j] in multiset(p);
      }
    }
  }

  /** A rule that drops or returns does the same with its options in any order. */
  lemma OrderActs(line: Rule, rule: Rule, pkt: Packet, foreign: Foreign)
    requires SameOptions(line, rule) && DistinctOptions(Pairs(rule))
    requires Target(rule, None) in {Some(DropTarget), Some(ReturnTarget)}
    ensures RuleEffect(line, pkt, foreign) == RuleEffect(rule, pkt, foreign)
  {
    OrderMatches(line, rule, pkt, foreign);
    OrderTargets(line, rule);
  }

  // ----- web rules

  function PrintedPortPairs(gate: Gate, port: nat, printed: bool): seq<Pair> {
    match gate
    case PreDnat => (if printed then [Pair(Module, Tcp)] else []) + [Pair(Dport, Digits(port))]
    case DockerUser => [Pair(Module, Conntrack), Pair(CtDir, Original), Pair(CtOrigDstPort, Digits(port))]
  }

  function WebPairs(gate: Gate, source: Option<Cidr>, port: nat, drop: bool, printed: bool): seq<Pair> {
    (if source.Some? then [Pair(Source, Block(source.value))] else [])
    + ([Pair(Protocol, Tcp)] + (PrintedPortPairs(gate, port, printed) + [Pair(Jump, Verdict(drop)[1])]))
  }

  lemma ConntrackPairsAre(port: nat, printed: bool, rest: Rule)
    ensures Pairs(PortPart(DockerUser, port, printed) + rest) ==
            PrintedPortPairs(DockerUser, port, printed) + Pairs(rest)
  {
    hide Pairs;
    var c := [CtOrigDstPort, Digits(port)];
    var b := [CtDir, Original] + (c + rest);
    assert PortPart(DockerUser, port, printed) + rest == [Module, Conntrack] + b;
    PairsCons(Module, Conntrack, b);
    PairsCons(CtDir, Original, c + rest);
    PairsCons(CtOrigDstPort, Digits(port), rest);
  }

  lemma PortPairsAre(gate: Gate, port: nat, printed: bool, rest: Rule)
    ensures Pairs(PortPart(gate, port, printed) + rest) == PrintedPortPairs(gate, port, printed) + Pairs(rest)
  {
    hide Pairs;
    if gate.DockerUser? {
      ConntrackPairsAre(port, printed, rest);
    } else {
      var c := [Dport, Digits(port)];
      PairsCons(Dport, Digits(port), rest);
      if printed {
        assert PortPart(gate, port, printed) + rest == [Module, Tcp] + (c + rest);
        PairsCons(Module, Tcp, c + rest);
      } else {
        assert PortPart(gate, port, printed) == c;
      }
    }
  }

  lemma VerdictPairs(drop: bool)
    ensures Verdict(drop)[0] == Jump && Pairs(Verdict(drop)) == [Pair(Jump, Verdict(drop)[1])]
  {
  }

  lemma WebPairsAre(gate: Gate, source: Option<Cidr>, port: nat, drop: bool, printed: bool)
    ensures Pairs(WebRule(gate, source, port, drop, printed)) == WebPairs(gate, source, port, drop, printed)
    ensures |WebRule(gate, source, port, drop, printed)| % 2 == 0
  {
    hide Pairs, PrintedPortPairs;
    var verdict := Verdict(drop);
    var middle := PortPart(gate, port, printed) + verdict;
    VerdictPairs(drop);
    PortPairsAre(gate, port, printed, verdict);
    PairsCons(Protocol, Tcp, middle);
    if source.Some? {
      PairsCons(Source, Block(source.value), [Protocol, Tcp] + middle);
    } else {
      assert SourcePart(source) + ([Protocol, Tcp] + middle) == [Protocol, Tcp] + middle;
    }
  }

  lemma WebOptionsDistinct(gate: Gate, source: Option<Cidr>, port: nat, drop: bool, printed: bool)
    ensures DistinctOptions(Pairs(WebRule(gate, source, port, drop, printed)))
  {
    hide Pairs, WebRule;
    WebPairsAre(gate, source, port, drop, printed);
  }
}
