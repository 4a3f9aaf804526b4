/** What table states mean for packets: soundness of `verify`, safety of every
    guarded state, and the one kind of failure that opens a gate. */
module GateGuarantees {
  import opened Wrappers
  import opened Cidrs
  import opened GateRules
  import opened GateSemantics
  import opened GateSoundness
  import opened GateForms
  import opened Netfilter
  import opened Faults

  predicate WebTraffic(gate: Gate, pkt: Packet) {
    WebAt(gate, pkt, 80) || WebAt(gate, pkt, 443)
  }

  lemma HookMatches(iface: string, pkt: Packet, foreign: Foreign)
    ensures IsJump(HookRule(iface))
    ensures Matches(HookRule(iface), pkt, foreign) <==> pkt.iface == iface
  {
    MatchPair(InIface, Iface(iface), [Jump, Managed], pkt, foreign);
    MatchPair(Jump, Managed, [], pkt, foreign);
    assert HookRule(iface) == [InIface, Iface(iface)] + [Jump, Managed];
    assert [Jump, Managed] == [Jump, Managed] + [];
  }

  /** A hook at the head sends the packets of its interface, and no others, through
      the managed chain before anything else. */
  lemma HookGoesFirst(s: TableState, iface: string, pkt: Packet, foreign: Foreign)
    requires HookFirst(s, iface) && s.managed.Some?
    ensures var rest := EvalParent(s.parent.value[1..], s.managed.value, pkt, foreign);
            var through := EvalChain(s.managed.value, pkt, foreign);
            EvalParent(s.parent.value, s.managed.value, pkt, foreign)
            == if pkt.iface == iface && through != Return then through else rest
  {
    HookMatches(iface, pkt, foreign);
  }

  /** Soundness of `verify`, for any live table whatever else it holds: on the
      interface, web packets from outside the ranges are dropped before any other
      rule sees them; every other packet goes on to the rest of the parent chain,
      in which no other rule ends in a jump to the managed chain. */
  lemma VerifierSound(gate: Gate, s: TableState, iface: string, ranges: seq<Cidr>, pkt: Packet, foreign: Foreign)
    requires AllStrict(ranges) && Accepts(gate, s, iface, ranges)
    ensures EvalParent(s.parent.value, s.managed.value, pkt, foreign)
         == if pkt.iface == iface && Blocks(gate, ranges, pkt) then Drop
            else EvalParent(s.parent.value[1..], s.managed.value, pkt, foreign)
    ensures Jumps(s.parent.value[1..]) == 0
  {
    AcceptedChainDecides(gate, s.managed.value, ranges, pkt, foreign);
    HookGoesFirst(s, iface, pkt, foreign);
    HookMatches(iface, pkt, foreign);
  }

  /** In a guarded state, a web packet on the interface whose source is in none of
      the lists is dropped. */
  lemma GuardedDrops(gate: Gate, s: TableState, iface: string, lists: set<seq<Cidr>>, pkt: Packet, foreign: Foreign)
    requires Guarded(gate, s, iface, lists)
    requires forall ranges :: ranges in lists ==> AllStrict(ranges) && !InRanges(ranges, pkt.src)
    requires pkt.iface == iface && WebTraffic(gate, pkt)
    ensures EvalParent(s.parent.value, s.managed.value, pkt, foreign) == Drop
  {
    var ranges :| ranges in lists && ChainAccepted(gate, s.managed.value, ranges);
    AcceptedChainDecides(gate, s.managed.value, ranges, pkt, foreign);
    HookGoesFirst(s, iface, pkt, foreign);
  }

  /** Where a log has kept its guard, every state that follows a closed one drops that
      packet, crash points between commands included. */
  lemma NoOpenWindow(gate: Gate, iface: string, lists: set<seq<Cidr>>, before: seq<TableState>, after: seq<TableState>,
                     i: nat, j: nat, pkt: Packet, foreign: Foreign)
    requires Kept(gate, iface, lists, before, after)
    requires |before| - 1 <= i <= j < |after| && Guarded(gate, after[i], iface, lists)
    requires forall ranges :: ranges in lists ==> AllStrict(ranges) && !InRanges(ranges, pkt.src)
    requires pkt.iface == iface && WebTraffic(gate, pkt)
    ensures after[j].parent.Some? && after[j].managed.Some?
    ensures EvalParent(after[j].parent.value, after[j].managed.value, pkt, foreign) == Drop
  {
    assert Guarded(gate, after[j], iface, lists);
    GuardedDrops(gate, after[j], iface, lists, pkt, foreign);
  }

  /** A gate enforced on another interface, as after a wrong fallback, does not see the
      packets of this one at all. */
  lemma MovedHookIsOpen(gate: Gate, s: TableState, other: string, iface: string, lists: set<seq<Cidr>>, pkt: Packet,
                        foreign: Foreign)
    requires Accepts(gate, s, other, []) && other != iface && pkt.iface == iface
    ensures !Guarded(gate, s, iface, lists)
    ensures EvalParent(s.parent.value, s.managed.value, pkt, foreign)
         == EvalParent(s.parent.value[1..], s.managed.value, pkt, foreign)
    ensures Jumps(s.parent.value[1..]) == 0
  {
    VerifierSound(gate, s, other, [], pkt, foreign);
  }

  /** An emptied managed chain blocks nothing, although the hook is still first. */
  lemma EmptyChainIsOpen(s: TableState, iface: string, pkt: Packet, foreign: Foreign)
    requires HookFirst(s, iface) && s.managed == Some([])
    ensures EvalParent(s.parent.value, s.managed.value, pkt, foreign)
         == EvalParent(s.parent.value[1..], s.managed.value, pkt, foreign)
  {
    HookGoesFirst(s, iface, pkt, foreign);
  }

  /** A restore that fails right after an existence probe failed. */
  function WindowPlan(gate: Gate): Plan {
    (if gate.DockerUser? then [Fine] else []) + [Nonzero, Fine, Nonzero, Fine, Fine]
  }

  lemma WindowPlanOpens(gate: Gate, s: TableState)
    requires s.parent.Some? && s.managed.Some?
    ensures OpensWindow(gate, s, WindowPlan(gate), 0)
  {
  }

  function DenyAll(gate: Gate, iface: string): TableState {
    TableState(Some([HookRule(iface)]), Some(PlainListing(gate, [])))
  }

  lemma DenyAllAccepts(gate: Gate, iface: string)
    ensures Accepts(gate, DenyAll(gate, iface), iface, [])
  {
    hide ChainAccepted, PlainListing, InstalledAs;
    PlainIsListing(gate, []);
    InstalledIsAccepted(gate, PlainListing(gate, []), []);
    ForeignersAfterHook(HookRule(iface), []);
    assert [HookRule(iface)] + Foreigners([]) == [HookRule(iface)];
  }

  /** The gate does not stay closed under every failure: from a state that denies all
      web traffic, this plan makes `replace_chain` pass through a state that lets
      the blocked packets by. */
  lemma WindowExists(gate: Gate, iface: string, pkt: Packet, foreign: Foreign)
    requires pkt.iface == iface && WebTraffic(gate, pkt)
    ensures var s := DenyAll(gate, iface);
            var open := s.(managed := Some([]));
            && Accepts(gate, s, iface, [])
            && EvalParent(s.parent.value, s.managed.value, pkt, foreign) == Drop
            && OpensWindow(gate, s, WindowPlan(gate), 0)
            && EvalParent(open.parent.value, open.managed.value, pkt, foreign) == Return
  {
    var s := DenyAll(gate, iface);
    DenyAllAccepts(gate, iface);
    WindowPlanOpens(gate, s);
    VerifierSound(gate, s, iface, [], pkt, foreign);
    EmptyChainIsOpen(s.(managed := Some([])), iface, pkt, foreign);
  }

  /** A DROP rule whose source has a mask with a gap. */
  const GAP_RULE: Rule := [Source, Other("10.0.0.0/255.0.255.0"), Protocol, Tcp, Jump, DropTarget]

  /** A hooked table no `apply` can read, and so none repairs. */
  lemma StuckExists(gate: Gate, iface: string)
    ensures Stuck(gate, TableState(Some([HookRule(iface)]), Some([GAP_RULE])), iface)
  {
    var s := TableState(Some([HookRule(iface)]), Some([GAP_RULE]));
    ForeignersAfterHook(HookRule(iface), []);
    assert Pairs(GAP_RULE)[0] == Pair(Source, Other("10.0.0.0/255.0.255.0"));
    assert BadAt(gate, GAP_RULE, 0);
    assert BadLine(gate, [GAP_RULE][0]) && ReadableBefore(gate, [GAP_RULE], 0);
  }
}
