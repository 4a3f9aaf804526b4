/** The gate backends: NetfilterBackend and PreDnatBackend of
    scripts/cloudflare_docker_firewall.py, over one table of one address family. */
module Backends {
  import opened Wrappers
  import opened Cidrs
  import opened GateRules
  import opened GateSemantics
  import opened GateSoundness
  import opened GateForms
  import opened GateGuarantees
  import opened Deletion
  import opened Netfilter
  import opened Faults

  datatype Presence = Present | Absent | ProbeRaised

  class Backend {
    const gate: Gate
    /** How the commands go, one after another. */
    const plan: Plan
    var state: TableState
    /** How many of them have gone. */
    var clock: nat
    /** Every state the table has been in, one entry per mutating command, and every
        call that replaces the chain or hooks it. */
    ghost var log: seq<TableState>
    ghost var calls: seq<Call>

    ghost predicate Valid()
      reads this
    {
      && Consistent(state)
      && log != []
      && log[|log| - 1] == state
    }

    ghost function Past(): History
      reads this
    {
      History(log, calls, clock)
    }

    constructor (gate: Gate, state: TableState, plan: Plan)
      requires Consistent(state)
      ensures Valid() && this.gate == gate && this.state == state && this.plan == plan
      ensures log == [state] && calls == [] && clock == 0
    {
      this.gate := gate;
      this.plan := plan;
      this.state := state;
      clock := 0;
      log := [state];
      calls := [];
    }

    method Next() returns (outcome: Outcome)
      modifies `clock
      ensures outcome == At(plan, old(clock)) && clock == old(clock) + 1
    {
      outcome := if clock < |plan| then plan[clock] else Fine;
      clock := clock + 1;
    }

    /** `self.run(arguments)` for a command whose normal effect is `next`. */
    method Run(next: Option<TableState>, ghost w: Watch) returns (ok: bool)
      requires Valid() && (next.Some? ==> Consistent(next.value) && SameForeigners(state, next.value))
      modifies `state, `clock, `log
      ensures Valid()
      ensures ok <==> At(plan, old(clock)) == Fine && next.Some?
      ensures state == if next.Some? && At(plan, old(clock)) in {Fine, Raised(true)} then next.value else old(state)
      ensures log == old(log) + [state] && clock == old(clock) + 1
      ensures Traced(gate, w, old(log), log, Opening(gate, w, old(state), state))
    {
      hide SameForeigners, Closed;
      SameAsBefore(state);
      var outcome := Next();
      ok := outcome == Fine && next.Some?;
      ghost var before := state;
      if next.Some? && (outcome == Fine || outcome == Raised(true)) {
        state := next.value;
      }
      TracedStep(gate, w, log, state);
      log := log + [state];
    }

    /** `chain_exists` and `raw_chain_exists`: any nonzero status reads as absent. */
    method Probe(exists_: bool) returns (presence: Presence)
      modifies `clock
      ensures clock == old(clock) + 1
      ensures presence == match At(plan, old(clock))
                          case Fine => if exists_ then Present else Absent
                          case Nonzero => Absent
                          case Raised(_) => ProbeRaised
    {
      var outcome := Next();
      match outcome
      case Fine => presence := if exists_ then Present else Absent;
      case Nonzero => presence := Absent;
      case Raised(_) => presence := ProbeRaised;
    }

    /** `-S chain` with `check=True`. */
    method List(rules: Option<seq<Rule>>) returns (listed: Option<seq<Rule>>)
      modifies `clock
      ensures clock == old(clock) + 1
      ensures listed == if At(plan, old(clock)) == Fine then rules else None
    {
      var outcome := Next();
      listed := if outcome == Fine then rules else None;
    }

    method CheckHook(iface: string) returns (ok: bool)
      modifies `clock
      ensures ok ==> HookOk(state, iface)
      ensures clock == old(clock) + 1
      ensures Went(plan, old(clock), clock) ==> (ok <==> HookOk(state, iface))
      ensures ok ==> Went(plan, old(clock), clock)
    {
      var parent := List(state.parent);
      return parent.Some? && parent.value != [] && parent.value[0] == HookRule(iface) && Jumps(parent.value) == 1;
    }

    /** One `-C` per expected rule. */
    method CheckEach(expected: seq<Rule>) returns (ok: bool)
      requires state.managed.Some?
      modifies `clock
      ensures ok ==> forall i :: 0 <= i < |expected| ==> Probed(state.managed.value, expected[i])
      ensures clock >= old(clock)
      ensures Went(plan, old(clock), clock) ==>
                (ok <==> forall i :: 0 <= i < |expected| ==> Probed(state.managed.value, expected[i]))
      ensures ok ==> Went(plan, old(clock), clock)
    {
      for k := 0 to |expected|
        invariant forall i :: 0 <= i < k ==> Probed(state.managed.value, expected[i])
        invariant clock >= old(clock) && Went(plan, old(clock), clock)
      {
        var found := Probe(Probed(state.managed.value, expected[k]));
        if !found.Present? {
          return false;
        }
      }
      return true;
    }

    method CheckChain(ranges: seq<Cidr>) returns (exit: Exit)
      modifies `clock
      ensures exit.Done? ==> state.managed.Some? && ChainAccepted(gate, state.managed.value, ranges)
      ensures exit.Crashed? ==> state.managed.Some? && ChainCrashes(gate, state.managed.value, ranges)
      ensures clock > old(clock)
      ensures Went(plan, old(clock), clock) ==>
                exit == if state.managed.None? then Failed
                           else if ChainAccepted(gate, state.managed.value, ranges) then Done
                           else if ChainCrashes(gate, state.managed.value, ranges) then Crashed
                           else Failed
      ensures exit.Done? ==> Went(plan, old(clock), clock)
    {
      hide Canonical, CanonicalAll, ChainRules, Probed;
      var chain := List(state.managed);
      if chain.None? {
        return Failed;
      }
      var expected := BuildChainRules(gate, ranges);
      var order := CanonicalChainOutput(gate, expected);
      if !order.Sequence? {
        return if order.ListCrashed? then Crashed else Failed;
      }
      var actual := CanonicalChainOutput(gate, chain.value);
      if actual.ListCrashed? {
        return Crashed;
      }
      if actual != order {
        return Failed;
      }
      var found := CheckEach(expected);
      return if found then Done else Failed;
    }

    method Verify(iface: string, ranges: seq<Cidr>) returns (exit: Exit)
      modifies `clock
      ensures exit.Done? ==> Accepts(gate, state, iface, ranges)
      ensures exit.Crashed? ==> Crashes(gate, state, iface, ranges)
      ensures clock > old(clock)
      ensures Went(plan, old(clock), clock) ==>
                exit == if Accepts(gate, state, iface, ranges) then Done
                           else if Crashes(gate, state, iface, ranges) then Crashed
                           else Failed
      ensures exit.Done? ==> Went(plan, old(clock), clock)
    {
      var hook := CheckHook(iface);
      if !hook {
        return Failed;
      }
      exit := CheckChain(ranges);
    }

    method EnsureManagedChain(ghost w: Watch) returns (ok: bool)
      requires Valid()
      modifies `state, `clock, `log
      ensures Valid() && |old(log)| <= |log| && log[..|old(log)|] == old(log) && clock > old(clock)
      ensures Traced(gate, w, old(log), log, false)
      ensures ok ==> state.managed.Some?
      ensures state.parent == old(state).parent
      ensures state.managed == old(state).managed || (old(state).managed.None? && state.managed == Some([]))
      ensures forall i :: |old(log)| <= i < |log| ==> log[i] in {old(state), state}
      ensures old(state).managed.Some? ==>
                && (ok <==> At(plan, old(clock)) == Fine)
                && (ok ==> clock == old(clock) + 1)
      ensures old(state).managed.None? && Went(plan, old(clock), old(clock) + 2) ==>
                ok && clock == old(clock) + 2 && state == old(state).(managed := Some([]))
      ensures Went(plan, old(clock), clock) ==> ok
      ensures ok ==> Unraised(plan, old(clock), clock)
    {
      hide Traced;
      TracedStart(gate, w, log);
      var present := Probe(state.managed.Some?);
      if present.ProbeRaised? {
        return false;
      }
      if present.Absent? {
        CreationKeeps(gate, w, state);
        NothingOpens(gate, w, state);
        ok := Run(Netfilter.Created(state), w);
        return;
      }
      return true;
    }

    /** The restore with `--test`, then the restore. */
    method RestoreChain(lines: seq<Rule>, ghost ranges: seq<Cidr>, ghost w: Watch) returns (ok: bool)
      requires Valid() && state.managed.Some?
      requires ranges in w.lists && AllStrict(ranges) && InstalledAs(gate, lines, ranges)
      modifies `state, `clock, `log
      ensures Valid() && |old(log)| <= |log| && log[..|old(log)|] == old(log)
      ensures Traced(gate, w, old(log), log, false)
      ensures ok <==> Went(plan, old(clock), old(clock) + 2)
      ensures state == if ok || RestoreTakes(plan, old(clock)) then old(state).(managed := Some(lines)) else old(state)
      ensures RestoreTakes(plan, old(clock)) ==> (Closed(gate, w, state) <==> HookFirst(old(state), w.iface))
      ensures forall i :: |old(log)| <= i < |log| ==> log[i] in {old(state), state}
      ensures clock == old(clock) + if At(plan, old(clock)) == Fine then 2 else 1
    {
      hide Traced, SameForeigners, Closed, HookFirst;
      ghost var a := log;
      SameAsBefore(state);
      NothingOpens(gate, w, state);
      ok := Run(Some(state), w);
      if ok {
        ghost var b := log;
        RestoreCloses(gate, w, state, lines, ranges);
        ok := Run(Restored(state, lines), w);
        TracedChains(gate, w, a, b, log, false, false);
      }
    }

    /** The clean-up of a failed restore, for a chain taken to be newly created. */
    method CleanUp(ghost w: Watch)
      requires Valid() && StrictLists(w)
      modifies `state, `clock, `log
      ensures Valid() && |old(log)| <= |log| && log[..|old(log)|] == old(log) && clock > old(clock)
      ensures var flushes := && old(state).managed.Some? && At(plan, old(clock)) == Fine
                             && At(plan, old(clock) + 1) in {Fine, Raised(true)};
              && Traced(gate, w, old(log), log, flushes && Closed(gate, w, old(state)))
              && if flushes then
                   && |old(log)| < |log|
                   && log[|old(log)|] == old(state).(managed := Some([]))
                   && state.parent == old(state).parent && state.managed in {Some([]), None}
                   && (state.managed.None? <==>
                         && At(plan, old(clock) + 1) == Fine && At(plan, old(clock) + 2) in {Fine, Raised(true)}
                         && !(state.parent.Some? && HasJump(state.parent.value)))
                   && forall i :: |old(log)| <= i < |log| ==> log[i] in {old(state).(managed := Some([])), state}
                 else
                   state == old(state) && forall i :: |old(log)| <= i < |log| ==> log[i] == old(state)
    {
      hide Traced, SameForeigners, Consistent, StrictLists, HasJump, Closed;
      ghost var a := log;
      TracedStart(gate, w, a);
      var present := Probe(state.managed.Some?);
      if present.Present? {
        FlushIsConsistent(state);
        FlushOpens(gate, w, state);
        NothingOpens(gate, w, state);
        var flushed := Run(Flushed(state), w);
        if flushed {
          ghost var b, reopened := log, Opening(gate, w, old(state), state);
          FlushIsConsistent(state);
          RemovalKeeps(gate, w, state);
          NothingOpens(gate, w, state);
          var removed := Run(Removed(state), w);
          TracedChains(gate, w, a, b, log, reopened, false);
        }
      }
    }

    /** The `try` of `replace_chain`: the restore, and the clean-up of a chain taken to
        be newly created. */
    method RestoreOrCleanUp(lines: seq<Rule>, created: bool, ghost ranges: seq<Cidr>, ghost w: Watch) returns (ok: bool)
      requires Valid() && state.managed.Some? && StrictLists(w)
      requires ranges in w.lists && InstalledAs(gate, lines, ranges)
      modifies `state, `clock, `log
      ensures Valid() && |old(log)| <= |log| && log[..|old(log)|] == old(log) && clock > old(clock)
      ensures Traced(gate, w, old(log), log,
                     && created && FailsAndFlushes(plan, old(clock)) && HookFirst(old(state), w.iface)
                     && (Closed(gate, w, old(state)) || RestoreTakes(plan, old(clock))))
      ensures ok ==> state == old(state).(managed := Some(lines))
      ensures Went(plan, old(clock), clock) ==> ok
      ensures state.parent == old(state).parent
      ensures state.managed in {old(state).managed, Some(lines), Some([]), None}
      ensures forall i :: |old(log)| <= i < |log| ==> log[i].parent == old(state).parent
      ensures if created && FailsAndFlushes(plan, old(clock)) then
                && !ok
                && (forall i :: |old(log)| <= i < |log| ==>
                    log[i].managed in {old(state).managed, Some(lines), Some([]), None})
                && exists i :: |old(log)| <= i < |log| && log[i] == old(state).(managed := Some([]))
              else forall i :: |old(log)| <= i < |log| ==> log[i].managed in {old(state).managed, Some(lines)}
      ensures created && FailsAndFlushes(plan, old(clock)) ==>
                (state.managed.None? <==>
                  && FailsAndRemoves(plan, old(clock)) && !(state.parent.Some? && HasJump(state.parent.value)))
      ensures ok ==> Went(plan, old(clock), clock)
    {
      hide Traced, Closed, StrictLists, InstalledAs, HookFirst;
      ghost var a := log;
      ClosedIsHooked(gate, w, state);
      StrictIn(w, ranges);
      ok := RestoreChain(lines, ranges, w);
      if !ok && created {
        ghost var b := log;
        ghost var flushes := FailsAndFlushes(plan, old(clock));
        ghost var closed := Closed(gate, w, state);
        CleanUp(w);
        TracedChains(gate, w, a, b, log, false, flushes && closed);
      }
    }

    /** Everything after the check for the parent chain. */
    method ReplaceManaged(lines: seq<Rule>, ghost ranges: seq<Cidr>, ghost w: Watch) returns (ok: bool)
      requires Valid() && StrictLists(w) && ranges in w.lists && InstalledAs(gate, lines, ranges)
      modifies `state, `clock, `log
      ensures Valid() && |old(log)| <= |log| && log[..|old(log)|] == old(log) && clock > old(clock)
      ensures Traced(gate, w, old(log), log,
                     && old(state).managed.Some? && Flushes(plan, old(clock)) && HookFirst(old(state), w.iface)
                     && (Closed(gate, w, old(state)) || RestoreTakes(plan, old(clock) + 2)))
      ensures ok ==> state == old(state).(managed := Some(lines))
      ensures Went(plan, old(clock), clock) ==> ok
      ensures state.parent == old(state).parent
      ensures state.managed in {old(state).managed, Some(lines), Some([]), None}
      ensures forall i :: |old(log)| <= i < |log| ==> log[i].parent == old(state).parent
      ensures if old(state).managed.Some? && Flushes(plan, old(clock))
              then !ok && exists i :: |old(log)| <= i < |log| && log[i] == old(state).(managed := Some([]))
              else forall i :: |old(log)| <= i < |log| ==> ReplacePhase(gate, ranges, old(state), log[i])
      ensures old(state).managed.None? && Went(plan, old(clock), old(clock) + 3)
                && FailsAndRemoves(plan, old(clock) + 3) ==>
                !ok && state == old(state)
      ensures ok ==> Unraised(plan, old(clock), clock)
    {
      hide Traced, InstalledAs, Closed, StrictLists, HookFirst, Consistent, FailsAndFlushes;
      ghost var a, s := log, state;
      TracedStart(gate, w, a);
      HookNeedsChain(state, w.iface);
      var first := Probe(state.managed.Some?);
      if first.ProbeRaised? {
        return false;
      }
      var created := first.Absent?;
      ok := EnsureManagedChain(w);
      if !ok {
        return false;
      }
      ghost var b, start, found := log, clock, state;
      RemovesFlushes(plan, start);
      if s.managed.None? {
        NoChainNoJump(s);
      }
      HookStays(s, found, w.iface);
      ok := RestoreOrCleanUp(lines, created, ranges, w);
      TracedChains(gate, w, a, b, log, false,
                   && created && FailsAndFlushes(plan, start) && HookFirst(found, w.iface)
                   && (Closed(gate, w, found) || RestoreTakes(plan, start)));
    }

    /** Success installs the built chain, listed in whatever option order. A failure
        leaves the chain as it was or as built, and a chain that was absent may be left
        absent or empty; an existing chain is emptied in just the cases of
        `OpensWindow`. */
    method ReplaceChain(ranges: seq<Cidr>, ghost w: Watch) returns (ok: bool)
      requires Valid() && StrictLists(w) && ranges in w.lists
      modifies `state, `clock, `log, `calls
      ensures Valid() && |old(log)| <= |log| && log[..|old(log)|] == old(log)
      ensures calls == old(calls) + [Replacing(old(state), old(clock))] && clock > old(clock)
      ensures Accounted(gate, plan, w, old(Past()), Past())
      ensures ok ==>
                && state == old(state).(managed := state.managed)
                && state.managed.Some? && InstalledAs(gate, state.managed.value, ranges)
      ensures Went(plan, old(clock), clock) ==> (ok <==> gate.PreDnat? || old(state).parent.Some?)
      ensures forall i :: |old(log)| <= i < |log| ==> log[i].parent == old(state).parent
      ensures if OpensWindow(gate, old(state), plan, old(clock))
              then !ok && exists i :: |old(log)| <= i < |log| && log[i] == old(state).(managed := Some([]))
              else forall i :: |old(log)| <= i < |log| ==> ReplacePhase(gate, ranges, old(state), log[i])
      ensures old(state).managed.None? && CleansUp(gate, plan, old(clock)) ==> !ok && state == old(state)
      ensures ok ==> Unraised(plan, old(clock), clock)
    {
      hide Traced, Accounted, InstalledAs, Closed, StrictLists, HookFirst, Flushes, RestoreTakes, Legible;
      ghost var a, call := Past(), Replacing(state, clock);
      calls := calls + [call];
      TracedStart(gate, w, log);
      if gate.DockerUser? {
        var docker := Probe(state.parent.Some?);
        if !docker.Present? {
          CallAccounted(gate, plan, w, a, Past(), call);
          return false;
        }
      }
      var rules := BuildChainRules(gate, ranges);
      StrictIn(w, ranges);
      PlainIsListing(gate, ranges);
      var lines :| InstalledAs(gate, lines, ranges);
      ok := ReplaceManaged(lines, ranges, w);
      BuiltIsLegible(gate, state, ranges);
      NoneIsLegible(gate, state);
      assert state.managed == old(state).managed ==> state == old(state);
      CallAccounted(gate, plan, w, a, Past(), call);
    }

    method DeleteOne(iface: string, ghost before: TableState, ghost list: seq<Rule>, position: nat, ghost bound: nat,
                     ghost w: Watch)
      returns (ok: bool)
      requires Valid() && state.managed.Some? && bound <= |list|
      requires state.parent == Some(DeletedFrom(list, LaterJumps(list), bound)) && HookFirst(state, iface)
      requires HookPhase(iface, before, state)
      requires 2 <= position <= bound && position in LaterJumps(list)
      requires forall n :: position < n <= bound ==> n !in LaterJumps(list)
      modifies `state, `clock, `log
      ensures Valid() && log == old(log) + [state] && clock == old(clock) + 1
      ensures Traced(gate, w, old(log), log, false)
      ensures ok <==> At(plan, old(clock)) == Fine
      ensures ok ==> state == old(state).(parent := Some(DeletedFrom(list, LaterJumps(list), position - 1)))
      ensures state.managed.Some? && HookFirst(state, iface) && HookPhase(iface, before, state)
      ensures state.managed == old(state).managed
    {
      hide Traced, SameForeigners, Closed;
      LaterJumpDeleted(list, position, bound);
      UnhookKeeps(gate, w, state, position);
      NothingOpens(gate, w, state);
      ok := Run(Unhooked(state, position), w);
    }

    /** Deletes the given positions, last first. */
    method DeletePositions(iface: string, ghost before: TableState, ghost list: seq<Rule>, order: seq<nat>,
                           ghost w: Watch)
      returns (ok: bool)
      requires Valid() && state.managed.Some? && state.parent == Some(list) && list != [] && HookFirst(state, iface)
      requires HookPhase(iface, before, state) && Pending(LaterJumps(list), order, |list|)
      modifies `state, `clock, `log
      ensures Valid() && |old(log)| <= |log| && log[..|old(log)|] == old(log) && clock >= old(clock)
      ensures Traced(gate, w, old(log), log, false)
      ensures ok ==> state == old(state).(parent := Some([list[0]] + Foreigners(list[1..])))
      ensures Went(plan, old(clock), clock) ==> ok
      ensures state.managed == old(state).managed
      ensures forall i :: |old(log)| <= i < |log| ==> HookPhase(iface, before, log[i]) && HookFirst(log[i], iface)
      ensures ok ==> Went(plan, old(clock), clock)
    {
      hide Traced, LaterJumps, DeletedFrom, Pending, Foreigners, HookPhase, HookFirst;
      ghost var bound, a := |list|, log;
      TracedStart(gate, w, a);
      NoneDeletedYet(list, LaterJumps(list));
      LaterBounds(list);
      assert order[0..] == order;
      for k := 0 to |order|
        invariant Went(plan, old(clock), clock)
        invariant Valid() && |old(log)| <= |log| && log[..|old(log)|] == old(log) && clock >= old(clock)
        invariant Traced(gate, w, a, log, false)
        invariant 1 <= bound <= |list| && Pending(LaterJumps(list), order[k..], bound)
        invariant state == old(state).(parent := Some(DeletedFrom(list, LaterJumps(list), bound)))
        invariant HookPhase(iface, before, state) && HookFirst(state, iface)
        invariant forall i :: |old(log)| <= i < |log| ==> HookPhase(iface, before, log[i]) && HookFirst(log[i], iface)
      {
        PendingStep(LaterJumps(list), order[k..], bound);
        assert order[k..][1..] == order[k + 1..];
        ghost var b := log;
        ok := DeleteOne(iface, before, list, order[k], bound, w);
        TracedChains(gate, w, a, b, log, false, false);
        if !ok {
          return false;
        }
        bound := order[k] - 1;
      }
      PendingNone(LaterJumps(list), order[|order|..], bound);
      LaterJumpsDeleted(list, bound);
      return true;
    }

    /** Reads the parent chain back and deletes every jump but the first rule. */
    method RemoveOtherJumps(iface: string, ghost before: TableState, ghost w: Watch) returns (ok: bool)
      requires Valid() && state.managed.Some? && HookFirst(state, iface) && HookPhase(iface, before, state)
      modifies `state, `clock, `log
      ensures Valid() && |old(log)| <= |log| && log[..|old(log)|] == old(log) && clock >= old(clock)
      ensures Traced(gate, w, old(log), log, false)
      ensures ok ==> state == old(state).(parent := Some([HookRule(iface)] + Foreigners(old(state).parent.value[1..])))
      ensures Went(plan, old(clock), clock) ==> ok
      ensures state.managed == old(state).managed
      ensures forall i :: |old(log)| <= i < |log| ==> HookPhase(iface, before, log[i]) && HookFirst(log[i], iface)
      ensures ok ==> Went(plan, old(clock), clock)
    {
      hide Traced, IsJump, HookRule, HookPhase, Foreigners, LaterJumps, Pending;
      TracedStart(gate, w, log);
      var listed := List(state.parent);
      if listed.None? {
        return false;
      }
      var positions := ManagedHookPositions(listed.value);
      LaterPositions(listed.value, positions, iface);
      if positions == [] || positions[0] != 1 {
        return false;
      }
      var order := SortDescending(set n | n in positions[1..]);
      ok := DeletePositions(iface, before, listed.value, order, w);
    }

    /** `-I parent 1`: the hook goes in front, or nothing changes. */
    method InsertHook(iface: string, ghost w: Watch) returns (ok: bool)
      requires Valid()
      modifies `state, `clock, `log
      ensures Valid() && log == old(log) + [state] && clock == old(clock) + 1
      ensures Traced(gate, w, old(log), log,
                     Closed(gate, w, old(state)) && iface != w.iface && HookTakes(old(state), plan, old(clock)))
      ensures ok <==> old(state).parent.Some? && old(state).managed.Some? && At(plan, old(clock)) == Fine
      ensures if HookTakes(old(state), plan, old(clock))
              then state == old(state).(parent := Some([HookRule(iface)] + old(state).parent.value))
              else state == old(state)
    {
      hide Traced, SameForeigners, HookRule, IsJump, Closed;
      HookOpens(gate, w, state, iface);
      NothingOpens(gate, w, state);
      HookIsConsistent(state, iface);
      ok := Run(Hooked(state, HookRule(iface)), w);
    }

    /** From the moment the insertion takes effect the hook is first; nothing changes
        before. The interface comes from the host's probes at step `probe`. */
    method EnsureFirstHook(iface: string, ghost probe: nat, ghost w: Watch) returns (ok: bool)
      requires Valid() && w.hooks(iface, probe)
      modifies `state, `clock, `log, `calls
      ensures Valid() && |old(log)| <= |log| && log[..|old(log)|] == old(log)
      ensures calls == old(calls) + [Hooking(iface, probe, old(state), old(clock))] && clock > old(clock)
      ensures Legible(gate, old(state)) ==> Accounted(gate, plan, w, old(Past()), Past())
      ensures ok ==> old(state).parent.Some? && old(state).managed.Some?
                     && state == old(state).(parent := Some([HookRule(iface)] + Foreigners(old(state).parent.value)))
      ensures Went(plan, old(clock), clock) ==> (ok <==> old(state).parent.Some? && old(state).managed.Some?)
      ensures forall i :: |old(log)| <= i < |log| ==>
                if HookTakes(old(state), plan, old(clock))
                then HookPhase(iface, old(state), log[i]) && HookFirst(log[i], iface)
                else log[i] == old(state)
      ensures ok ==> Went(plan, old(clock), clock)
    {
      hide Traced, Accounted, HookRule, Foreigners, HookPhase, HookFirst, Closed, Legible, HookTakes;
      ghost var before, a, call := state, Past(), Hooking(iface, probe, state, clock);
      calls := calls + [call];
      ghost var breach := Breach(gate, plan, w, call);
      ok := InsertHook(iface, w);
      HookTakesOn(before, plan, old(clock));
      if before.parent.Some? {
        InsertedHook(before, iface);
      }
      LegibleWithParent(gate, before, state);
      if !ok {
        if Legible(gate, before) {
          CallAccounted(gate, plan, w, a, Past(), call);
        }
        return false;
      }
      assert state.parent.value[1..] == before.parent.value;
      ghost var b := log;
      ok := RemoveOtherJumps(iface, before, w);
      TracedChains(gate, w, a.log, b, log, breach, false);
      LegibleWithParent(gate, before, state);
      if Legible(gate, before) {
        CallAccounted(gate, plan, w, a, Past(), call);
      }
    }

    /** The two mutating steps of `apply`. Watched on the interface it is applied to, a
        gate once closed stays closed at every step unless its chain, hooked, is flushed
        by the failures of `OpensWindow`; if it was closed to begin with, exactly unless
        the failures are those. */
    method Install(iface: string, ranges: seq<Cidr>, ghost probe: nat, ghost w: Watch) returns (ok: bool)
      requires Valid() && StrictLists(w) && ranges in w.lists && w.hooks(iface, probe)
      modifies `state, `clock, `log, `calls
      ensures Valid() && clock > old(clock)
      ensures Accounted(gate, plan, w, old(Past()), Past()) && NewHooks(old(calls), calls, iface, probe)
      ensures ok ==> InstalledOn(gate, old(state), state, iface, ranges)
      ensures Went(plan, old(clock), clock) ==> (ok <==> old(state).parent.Some?)
      ensures iface == w.iface ==>
                (Kept(gate, w.iface, w.lists, old(log), log)
                 <==> !Breach(gate, plan, w, Replacing(old(state), old(clock))))
      ensures iface == w.iface && Closed(gate, w, old(state)) ==>
                (Kept(gate, w.iface, w.lists, old(log), log) <==> !OpensWindow(gate, old(state), plan, old(clock)))
      ensures ok ==> Unraised(plan, old(clock), clock)
    {
      hide Accounted, Closed, OpensWindow, InstalledAs, Foreigners, HookPhase, HookFirst, ReplacePhase, Consistent;
      hide StrictLists, Kept, Legible;
      ghost var s, a, call := state, Past(), Replacing(state, clock);
      ClosedIsHooked(gate, w, state);
      ok := ReplaceChain(ranges, w);
      ghost var b := Past();
      KeptUnless(gate, plan, w, a, b, call);
      if !ok {
        return false;
      }
      StrictIn(w, ranges);
      BuiltIsLegible(gate, state, ranges);
      ok := EnsureFirstHook(iface, probe, w);
      AccountedChains(gate, plan, w, a, b, Past());
      KeptUnlessFirst(gate, plan, w, a, Past(), call);
    }

    /** `apply` once the first verification has failed. */
    method Enforce(iface: string, ranges: seq<Cidr>, ghost probe: nat, ghost w: Watch) returns (exit: Exit)
      requires Valid() && StrictLists(w) && ranges in w.lists && w.hooks(iface, probe)
      modifies `state, `clock, `log, `calls
      ensures Valid() && clock > old(clock)
      ensures Accounted(gate, plan, w, old(Past()), Past()) && NewHooks(old(calls), calls, iface, probe)
      ensures exit.Done? ==> InstalledOn(gate, old(state), state, iface, ranges)
      ensures !exit.Crashed?
      ensures Went(plan, old(clock), clock) ==> (exit.Done? <==> old(state).parent.Some?)
      ensures iface == w.iface ==>
                (Kept(gate, w.iface, w.lists, old(log), log)
                 <==> !Breach(gate, plan, w, Replacing(old(state), old(clock))))
      ensures exit.Done? ==> Unraised(plan, old(clock), clock)
    {
      hide Accepts, Crashes, Accounted, Foreigners, OpensWindow, Kept, Breach, InstalledAs, Consistent;
      ghost var before, a := state, Past();
      var ok := Install(iface, ranges, probe, w);
      if !ok {
        return Failed;
      }
      InstalledAccepts(gate, before, state, iface, ranges);
      ghost var b := Past();
      exit := Verify(iface, ranges);
      AccountedIdle(gate, plan, w, b, Past());
      AccountedChains(gate, plan, w, a, b, Past());
    }

    /** Makes the gate enforce `ranges` on `iface`. On success the parent chain is one
        hook followed by the old rules minus every jump to the managed chain. No
        step, failed or not, removes any other rule, and a gate closed at some step is
        opened at a later one exactly if a call breached it. If no command fails, none
        does, watched on `iface`. */
    method Apply(iface: string, ranges: seq<Cidr>, ghost probe: nat, ghost w: Watch) returns (exit: Exit)
      requires Valid() && StrictLists(w) && ranges in w.lists && w.hooks(iface, probe)
      modifies `state, `clock, `log, `calls
      ensures Valid() && clock > old(clock)
      ensures Accounted(gate, plan, w, old(Past()), Past()) && NewHooks(old(calls), calls, iface, probe)
      ensures exit.Done? ==>
                && Accepts(gate, state, iface, ranges)
                && old(state).parent.Some?
                && state.parent.value == [HookRule(iface)] + Foreigners(old(state).parent.value)
                && (state == old(state) || InstalledAs(gate, state.managed.value, ranges))
      ensures exit.Crashed? ==> state == old(state) && Stuck(gate, state, iface)
      ensures Went(plan, old(clock), clock) ==>
                && (exit.Done? <==> Repairable(gate, old(state), iface))
                && (exit.Crashed? <==> Stuck(gate, old(state), iface))
                && (Accepts(gate, old(state), iface, ranges) ==> state == old(state) && log == old(log))
      ensures iface == w.iface && (forall i :: old(clock) <= i < clock ==> !WindowFailures(gate, plan, i)) ==>
                Kept(gate, w.iface, w.lists, old(log), log)
    {
      hide ChainAccepted, ChainCrashes, Accounted, BadLineFirst, InstalledAs, Jumps, Foreigners, Kept, Closed;
      hide WindowFailures, Consistent;
      ghost var a := Past();
      CrashesIffStuck(gate, state, iface, ranges);
      exit := Verify(iface, ranges);
      AccountedIdle(gate, plan, w, a, Past());
      if exit != Failed {
        KeptIdle(gate, w, log);
        if exit.Done? {
          HookOkForeigners(state, iface);
          AcceptedIsLegible(gate, state, iface, ranges);
        }
        return;
      }
      ghost var before, b := state, Past();
      if Accepts(gate, before, iface, ranges) {
        AcceptedIsLegible(gate, before, iface, ranges);
      }
      exit := Enforce(iface, ranges, probe, w);
      AccountedChains(gate, plan, w, a, b, Past());
      if exit.Done? {
        InstalledAccepts(gate, before, state, iface, ranges);
      }
    }

    /** `managed_present`; None when it raises. */
    method ManagedPresent() returns (present: Option<bool>)
      requires Valid()
      modifies `clock
      ensures present == Some(true) ==> state.managed.Some?
      ensures clock >= old(clock)
      ensures present == Some(false) && gate.DockerUser? && state.parent.Some? && At(plan, old(clock) + 1) == Fine ==>
                At(plan, old(clock) + 2) == Fine
      ensures Went(plan, old(clock), clock) ==> present == Some(state.managed.Some?)
      ensures present.Some? ==> Unraised(plan, old(clock), clock)
    {
      var chain := Probe(state.managed.Some?);
      if chain.ProbeRaised? {
        return None;
      }
      if chain.Present? {
        return Some(true);
      }
      var parent := Probe(state.parent.Some?);
      if parent.ProbeRaised? {
        return None;
      }
      if parent.Absent? {
        return Some(false);
      }
      var rules := state.parent;
      if gate.DockerUser? {
        rules := List(state.parent);
        if rules.None? {
          return None;
        }
      }
      var positions := ManagedHookPositions(rules.value);
      if positions != [] {
        assert positions[0] in positions;
        assert HasJump(state.parent.value);
      }
      return Some(positions != []);
    }

    /** `require_parent_chain` and `require_docker_chain` */
    method RequireParent() returns (ok: bool)
      modifies `clock
      ensures ok ==> state.parent.Some?
      ensures clock >= old(clock)
      ensures Went(plan, old(clock), clock) ==> ok == state.parent.Some?
      ensures ok ==> Went(plan, old(clock), clock)
    {
      var parent := Probe(state.parent.Some?);
      return parent.Present?;
    }
  }

  /** The gate does not stay closed under every failure: on a table that denies all web
      traffic, `replace_chain` under these failures passes through a state that lets
      every packet it is to block by. */
  method WindowHappens(gate: Gate, iface: string, ranges: seq<Cidr>, ghost pkt: Packet, ghost foreign: Foreign)
    returns (table: Backend)
    requires AllStrict(ranges) && pkt.iface == iface && WebTraffic(gate, pkt)
    ensures table.log != [] && table.log[0] == DenyAll(gate, iface) && Accepts(gate, table.log[0], iface, [])
    ensures EvalParent(table.log[0].parent.value, table.log[0].managed.value, pkt, foreign) == Drop
    ensures exists i :: 0 < i < |table.log| && LetsBy(table.log[i], pkt, foreign)
  {
    hide Accepts, EvalParent, EvalChain, OpensWindow, Accounted, ReplacePhase, WindowPlan;
    WindowExists(gate, iface, pkt, foreign);
    table := new Backend(gate, DenyAll(gate, iface), WindowPlan(gate));
    var ok := table.ReplaceChain(ranges, Watch(iface, {ranges}, (hooked, probe) => hooked == iface));
    ghost var i :| 1 <= i < |table.log| && table.log[i] == DenyAll(gate, iface).(managed := Some([]));
    assert LetsBy(table.log[i], pkt, foreign);
    assert table.log[..1][0] == table.log[0];
  }

  ghost predicate LetsBy(s: TableState, pkt: Packet, foreign: Foreign) {
    s.parent.Some? && s.managed.Some? && EvalParent(s.parent.value, s.managed.value, pkt, foreign) == Return
  }
}
