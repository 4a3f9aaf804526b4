/** One netfilter table as the gate sees it: a parent chain and the managed chain,
    changed by commands any of which may fail (scripts/cloudflare_docker_firewall.py,
    NetfilterBackend and PreDnatBackend). */
module Netfilter {
  import opened Wrappers
  import opened Cidrs
  import opened GateRules
  import opened GateSemantics
  import opened GateSoundness
  import opened GateForms
  import opened Deletion
  import opened Faults

  datatype TableState = TableState(parent: Option<seq<Rule>>, managed: Option<seq<Rule>>)

  predicate HasJump(rules: seq<Rule>) {
    exists i :: 0 <= i < |rules| && IsJump(rules[i])
  }

  /** The kernel keeps no jump to a chain that does not exist. */
  predicate Consistent(s: TableState) {
    s.parent.Some? && HasJump(s.parent.value) ==> s.managed.Some?
  }

  // ----- commands, as the kernel executes them; None when it refuses

  function Created(s: TableState): Option<TableState> {
    if s.managed.None? then Some(s.(managed := Some([]))) else None
  }

  function Restored(s: TableState, lines: seq<Rule>): Option<TableState> {
    if s.managed.Some? then Some(s.(managed := Some(lines))) else None
  }

  function Flushed(s: TableState): Option<TableState> {
    if s.managed.Some? then Some(s.(managed := Some([]))) else None
  }

  function Removed(s: TableState): Option<TableState> {
    if s.managed == Some([]) && !(s.parent.Some? && HasJump(s.parent.value))
    then Some(s.(managed := None)) else None
  }

  function Hooked(s: TableState, rule: Rule): Option<TableState> {
    if s.parent.Some? && s.managed.Some? then Some(s.(parent := Some([rule] + s.parent.value))) else None
  }

  function Unhooked(s: TableState, number: int): Option<TableState> {
    if s.parent.Some? && 1 <= number <= |s.parent.value|
    then Some(s.(parent := Some(Delete(s.parent.value, number)))) else None
  }

  // ----- specification of the backend operations

  function Jumps(rules: seq<Rule>): nat {
    if rules == [] then 0 else (if IsJump(rules[0]) then 1 else 0) + Jumps(rules[1..])
  }

  /** The rules that are not jumps to the managed chain, in order. */
  function Foreigners(rules: seq<Rule>): seq<Rule> {
    if rules == [] then [] else (if IsJump(rules[0]) then [] else [rules[0]]) + Foreigners(rules[1..])
  }

  predicate HookFirst(s: TableState, iface: string) {
    s.parent.Some? && s.parent.value != [] && s.parent.value[0] == HookRule(iface)
  }

  predicate HookOk(s: TableState, iface: string) {
    HookFirst(s, iface) && Jumps(s.parent.value) == 1
  }

  /** What `verify` checks. */
  predicate Accepts(gate: Gate, s: TableState, iface: string, ranges: seq<Cidr>) {
    && HookOk(s, iface)
    && s.managed.Some?
    && ChainAccepted(gate, s.managed.value, ranges)
  }

  /** When `verify` dies of an uncaught ValueError instead. */
  predicate Crashes(gate: Gate, s: TableState, iface: string, ranges: seq<Cidr>) {
    && HookOk(s, iface)
    && s.managed.Some?
    && ChainCrashes(gate, s.managed.value, ranges)
  }

  predicate ChainCrashes(gate: Gate, chain: seq<Rule>, ranges: seq<Cidr>) {
    var expected := CanonicalAll(gate, ChainRules(gate, ranges));
    expected.ListCrashed? || (expected.Sequence? && CanonicalAll(gate, chain).ListCrashed?)
  }

  /** A hooked chain with a line that makes the reader raise ValueError. */
  predicate Stuck(gate: Gate, s: TableState, iface: string) {
    HookOk(s, iface) && s.managed.Some? && BadLineFirst(gate, s.managed.value)
  }

  /** The reader gets through the managed chain, if there is one. */
  ghost predicate Legible(gate: Gate, s: TableState) {
    s.managed.Some? ==> !BadLineFirst(gate, s.managed.value)
  }

  /** What `apply` needs besides commands that do not fail. */
  ghost predicate Repairable(gate: Gate, s: TableState, iface: string) {
    s.parent.Some? && !Stuck(gate, s, iface)
  }

  /** For validated ranges `verify` dies exactly of such a line. */
  lemma CrashesIffStuck(gate: Gate, s: TableState, iface: string, ranges: seq<Cidr>)
    requires AllStrict(ranges)
    ensures Crashes(gate, s, iface, ranges) <==> Stuck(gate, s, iface)
  {
    hide CanonicalAll, BadLineFirst;
    BuiltChainReads(gate, ranges);
    if s.managed.Some? {
      ChainUnreadableIff(gate, s.managed.value);
    }
  }

  /** What `verify` accepts it can read. */
  lemma AcceptedIsLegible(gate: Gate, s: TableState, iface: string, ranges: seq<Cidr>)
    requires Accepts(gate, s, iface, ranges)
    ensures Legible(gate, s) && forall other :: Repairable(gate, s, other)
  {
    hide CanonicalAll, BadLineFirst;
    ChainUnreadableIff(gate, s.managed.value);
  }

  /** So it can what a replacement leaves behind. */
  lemma BuiltIsLegible(gate: Gate, s: TableState, ranges: seq<Cidr>)
    requires AllStrict(ranges)
    ensures s.managed.Some? && InstalledAs(gate, s.managed.value, ranges) ==> Legible(gate, s)
    ensures s.managed == Some([]) ==> Legible(gate, s)
  {
    hide CanonicalAll, BadLineFirst, InstalledAs;
    BuiltChainReads(gate, ranges);
    if s.managed.Some? {
      ChainUnreadableIff(gate, s.managed.value);
    }
    NothingUnreadable(gate);
  }

  lemma NothingUnreadable(gate: Gate)
    ensures !BadLineFirst(gate, [])
  {
  }

  /** A normal return, the script's own error, or an uncaught one. */
  datatype Exit = Done | Failed | Crashed

  /** The gate is closed to all but one of the given lists. */
  ghost predicate Guarded(gate: Gate, s: TableState, iface: string, lists: set<seq<Cidr>>) {
    && HookFirst(s, iface)
    && s.managed.Some?
    && exists ranges :: ranges in lists && ChainAccepted(gate, s.managed.value, ranges)
  }

  /** The stretch of the log that comes after `before`: no state after a guarded one,
      first state included, is unguarded. */
  ghost predicate Kept(gate: Gate, iface: string, lists: set<seq<Cidr>>, before: seq<TableState>,
                       after: seq<TableState>)
  {
    && 0 < |before| <= |after|
    && before == after[..|before|]
    && forall i, j :: |before| - 1 <= i <= j < |after| && Guarded(gate, after[i], iface, lists) ==>
                        Guarded(gate, after[j], iface, lists)
  }

  /** A stretch is kept exactly if its parts are. */
  lemma KeptSplits(gate: Gate, iface: string, lists: set<seq<Cidr>>, a: seq<TableState>, b: seq<TableState>,
                   c: seq<TableState>)
    requires 0 < |a| <= |b| <= |c| && a == b[..|a|] && b == c[..|b|]
    ensures Kept(gate, iface, lists, a, c) <==> Kept(gate, iface, lists, a, b) && Kept(gate, iface, lists, b, c)
  {
    hide Guarded;
    assert a == c[..|a|];
    assert forall i :: 0 <= i < |b| ==> b[i] == c[i];
    var m := |b| - 1;
    if Kept(gate, iface, lists, a, b) && Kept(gate, iface, lists, b, c) {
      forall i, j | |a| - 1 <= i <= j < |c| && Guarded(gate, c[i], iface, lists)
        ensures Guarded(gate, c[j], iface, lists)
      {
        if i <= m < j {
          assert Guarded(gate, b[i], iface, lists);
          assert Guarded(gate, b[m], iface, lists);
          assert Guarded(gate, c[m], iface, lists);
        } else if j <= m {
          assert Guarded(gate, b[i], iface, lists);
        }
      }
    }
    if Kept(gate, iface, lists, a, c) {
      forall i, j | |a| - 1 <= i <= j < |b| && Guarded(gate, b[i], iface, lists)
        ensures Guarded(gate, b[j], iface, lists)
      {
        assert Guarded(gate, c[i], iface, lists);
      }
    }
  }

  // ----- the failures that open a gate

  /** The trial restore or the restore fails, at the `b`-th command or the next, and
      the clean-up's probe and flush go through. */
  predicate FailsAndFlushes(plan: Plan, b: nat) {
    if At(plan, b) != Fine
    then At(plan, b + 1) == Fine && At(plan, b + 2) in {Fine, Raised(true)}
    else At(plan, b + 1) != Fine && At(plan, b + 2) == Fine && At(plan, b + 3) in {Fine, Raised(true)}
  }

  /** And the removal of the flushed chain goes through as well. */
  predicate FailsAndRemoves(plan: Plan, b: nat) {
    if At(plan, b) != Fine
    then Went(plan, b + 1, b + 3) && At(plan, b + 3) in {Fine, Raised(true)}
    else At(plan, b + 1) != Fine && Went(plan, b + 2, b + 4) && At(plan, b + 4) in {Fine, Raised(true)}
  }

  lemma RemovesFlushes(plan: Plan, b: nat)
    ensures FailsAndRemoves(plan, b) ==> FailsAndFlushes(plan, b)
  {
  }

  /** Nothing jumps to a chain that does not exist. */
  lemma NoChainNoJump(s: TableState)
    requires Consistent(s) && s.managed.None?
    ensures !(s.parent.Some? && HasJump(s.parent.value))
  {
  }

  /** A `replace_chain` from the `b`-th command on of which nothing fails but the restore,
      and then nothing of the clean-up. */
  predicate CleansUp(gate: Gate, plan: Plan, b: nat) {
    match gate
    case PreDnat => Went(plan, b, b + 3) && FailsAndRemoves(plan, b + 3)
    case DockerUser => Went(plan, b, b + 4) && FailsAndRemoves(plan, b + 4)
  }

  /** The failing restore, at the command after the `b`-th, took effect all the same. */
  predicate RestoreTakes(plan: Plan, b: nat) {
    At(plan, b) == Fine && At(plan, b + 1) == Raised(true)
  }

  /** The failures, from the `b`-th command on, that flush a chain which was not
      created here: the first existence probe fails although the chain exists, the
      second does not, and the restore fails and is cleaned up. */
  predicate Flushes(plan: Plan, b: nat) {
    At(plan, b) == Nonzero && At(plan, b + 1) == Fine && FailsAndFlushes(plan, b + 2)
  }

  /** Those failures for a `replace_chain` that begins with the `b`-th command; the
      DOCKER-USER gate probes for its parent chain first. */
  predicate WindowFailures(gate: Gate, plan: Plan, b: nat) {
    match gate
    case PreDnat => Flushes(plan, b)
    case DockerUser => At(plan, b) == Fine && Flushes(plan, b + 1)
  }

  /** When that `replace_chain` empties an existing managed chain. */
  predicate OpensWindow(gate: Gate, s: TableState, plan: Plan, b: nat) {
    s.managed.Some? && (gate.DockerUser? ==> s.parent.Some?) && WindowFailures(gate, plan, b)
  }

  /** The hook of `ensure_first_hook`, the `b`-th command, goes in. */
  predicate HookTakes(s: TableState, plan: Plan, b: nat) {
    s.parent.Some? && s.managed.Some? && At(plan, b) in {Fine, Raised(true)}
  }

  // ----- calls, and the account of them

  /** A call of `replace_chain` or `ensure_first_hook`: the table it found, and the
      command it began with. The interface of a hook was found by the probes that began
      with step `probe` of the host. */
  datatype Call =
    | Replacing(at: TableState, step: nat)
    | Hooking(iface: string, probe: nat, at: TableState, step: nat)

  /** Every state of a table, every such call, and how many commands there were. */
  datatype History = History(log: seq<TableState>, calls: seq<Call>, clock: nat)

  /** The interface a gate is watched on, the lists it may be closed to all but, and which
      interfaces it may be hooked on after which probes. */
  datatype Watch = Watch(iface: string, lists: set<seq<Cidr>>, hooks: (string, nat) -> bool)

  ghost predicate StrictLists(w: Watch) {
    forall ranges :: ranges in w.lists ==> AllStrict(ranges)
  }

  ghost predicate Closed(gate: Gate, w: Watch, s: TableState) {
    Guarded(gate, s, w.iface, w.lists)
  }

  /** The call opens a gate that it found closed, or that it closed itself. What it finds
      and how its commands go decide that: it replaces the chain, and the failures are
      those that flush it, while the hook is first and the chain closed, or closed by the
      failing restore; or it hooks another interface, and the hook goes in. */
  ghost predicate Breach(gate: Gate, plan: Plan, w: Watch, call: Call) {
    match call
    case Replacing(at, step) =>
      && OpensWindow(gate, at, plan, step) && HookFirst(at, w.iface)
      && (Closed(gate, w, at) || RestoreTakes(plan, if gate.PreDnat? then step + 2 else step + 3))
    case Hooking(iface, _, at, step) =>
      Closed(gate, w, at) && iface != w.iface && HookTakes(at, plan, step)
  }

  /** The new hooks are for this interface, on the word of these probes. */
  ghost predicate NewHooks(before: seq<Call>, after: seq<Call>, iface: string, probe: nat) {
    forall k :: |before| <= k < |after| && after[k].Hooking? ==> after[k].iface == iface && after[k].probe == probe
  }

  ghost predicate CallFits(w: Watch, before: History, after: History, call: Call) {
    && before.clock <= call.step < after.clock
    && (exists i :: 0 <= i < |after.log| && |before.log| - 1 <= i && after.log[i] == call.at)
    && (call.Hooking? ==> w.hooks(call.iface, call.probe))
  }

  /** The full account of a stretch of the table's history: no rule of another program
      has gone; a chain that is not the one found can be read; and the gate was opened
      after it had been closed if and only if one of the calls, each made in this stretch
      on a table of this stretch, breached it. */
  ghost predicate Accounted(gate: Gate, plan: Plan, w: Watch, before: History, after: History) {
    && Extends(before.log, after.log)
    && before.clock <= after.clock
    && |before.calls| <= |after.calls| && before.calls == after.calls[..|before.calls|]
    && (Last(after) == Last(before) || Legible(gate, Last(after)))
    && (forall k :: |before.calls| <= k < |after.calls| ==> CallFits(w, before, after, after.calls[k]))
    && (Kept(gate, w.iface, w.lists, before.log, after.log) <==>
          forall k :: |before.calls| <= k < |after.calls| ==> !Breach(gate, plan, w, after.calls[k]))
  }

  function Last(h: History): TableState
    requires h.log != []
  {
    h.log[|h.log| - 1]
  }

  lemma FitsLonger(w: Watch, a: History, b: History, c: History, d: History, call: Call)
    requires CallFits(w, b, c, call)
    requires a.clock <= b.clock && c.clock <= d.clock
    requires 0 < |a.log| <= |b.log| && |c.log| <= |d.log| && c.log == d.log[..|c.log|]
    ensures CallFits(w, a, d, call)
  {
    var i :| 0 <= i < |c.log| && |b.log| - 1 <= i && c.log[i] == call.at;
    assert d.log[i] == call.at;
  }

  lemma AccountedChains(gate: Gate, plan: Plan, w: Watch, a: History, b: History, c: History)
    requires Accounted(gate, plan, w, a, b) && Accounted(gate, plan, w, b, c)
    ensures Accounted(gate, plan, w, a, c)
  {
    hide Breach, SameForeigners, Guarded, Kept, CallFits, Legible;
    ExtendsChains(a.log, b.log, c.log);
    KeptSplits(gate, w.iface, w.lists, a.log, b.log, c.log);
    assert a.calls == c.calls[..|a.calls|];
    assert forall k :: 0 <= k < |b.calls| ==> b.calls[k] == c.calls[k];
    forall k | |a.calls| <= k < |c.calls| ensures CallFits(w, a, c, c.calls[k]) {
      if k < |b.calls| {
        FitsLonger(w, a, a, b, c, c.calls[k]);
      } else {
        FitsLonger(w, a, b, c, c, c.calls[k]);
      }
    }
  }

  /** Commands that change nothing are accounted for. */
  lemma AccountedIdle(gate: Gate, plan: Plan, w: Watch, a: History, b: History)
    requires a.log != [] && b == a.(clock := b.clock) && a.clock <= b.clock
    ensures Accounted(gate, plan, w, a, b)
  {
    hide Guarded, SameForeigners, Breach, CallFits;
  }

  /** One call, with what it does to the log. */
  lemma CallAccounted(gate: Gate, plan: Plan, w: Watch, a: History, b: History, call: Call)
    requires Traced(gate, w, a.log, b.log, Breach(gate, plan, w, call))
    requires b.calls == a.calls + [call] && a.clock <= call.step < b.clock && call.at == Last(a)
    requires Last(b) == Last(a) || Legible(gate, Last(b))
    requires call.Hooking? ==> w.hooks(call.iface, call.probe)
    ensures Accounted(gate, plan, w, a, b)
  {
    hide Guarded, SameForeigners, Breach, Kept, Legible;
    assert b.log[|a.log| - 1] == call.at;
    assert b.calls[|a.calls|] == call;
  }

  // ----- single commands

  /** The log has grown without losing a foreign rule; `reopened` says whether a state
      in which the gate is closed is followed by one in which it is not. */
  ghost predicate Traced(gate: Gate, w: Watch, before: seq<TableState>, after: seq<TableState>, reopened: bool) {
    && Extends(before, after)
    && (Kept(gate, w.iface, w.lists, before, after) <==> !reopened)
  }

  ghost predicate Opening(gate: Gate, w: Watch, s: TableState, t: TableState) {
    Closed(gate, w, s) && !Closed(gate, w, t)
  }

  lemma TracedStart(gate: Gate, w: Watch, log: seq<TableState>)
    requires log != []
    ensures Traced(gate, w, log, log, false)
  {
    hide Guarded, SameForeigners;
  }

  lemma TracedStep(gate: Gate, w: Watch, log: seq<TableState>, t: TableState)
    requires log != [] && SameForeigners(log[|log| - 1], t)
    ensures Traced(gate, w, log, log + [t], Opening(gate, w, log[|log| - 1], t))
  {
    hide SameForeigners, Guarded;
    var s, n, after := log[|log| - 1], |log|, log + [t];
    assert after[n - 1] == s && after[n] == t;
  }

  lemma TracedChains(gate: Gate, w: Watch, a: seq<TableState>, b: seq<TableState>, c: seq<TableState>, o1: bool,
                     o2: bool)
    requires Traced(gate, w, a, b, o1) && Traced(gate, w, b, c, o2)
    ensures Traced(gate, w, a, c, o1 || o2)
  {
    hide SameForeigners, Guarded, Kept;
    ExtendsChains(a, b, c);
    KeptSplits(gate, w.iface, w.lists, a, b, c);
  }

  lemma SameAsBefore(s: TableState)
    ensures SameForeigners(s, s)
  {
  }

  lemma NothingOpens(gate: Gate, w: Watch, s: TableState)
    ensures !Opening(gate, w, s, s)
  {
  }

  lemma CreationKeeps(gate: Gate, w: Watch, s: TableState)
    ensures var t := Created(s); t.Some? ==> SameForeigners(s, t.value) && !Opening(gate, w, s, t.value)
  {
  }

  /** Restoring a validated list closes a hooked gate, or keeps it closed. */
  lemma RestoreCloses(gate: Gate, w: Watch, s: TableState, lines: seq<Rule>, ranges: seq<Cidr>)
    requires ranges in w.lists && AllStrict(ranges) && InstalledAs(gate, lines, ranges)
    ensures var t := Restored(s, lines);
            t.Some? ==> && SameForeigners(s, t.value) && !Opening(gate, w, s, t.value)
                        && (Closed(gate, w, t.value) <==> HookFirst(s, w.iface))
  {
    hide ChainAccepted, InstalledAs, Foreigners;
    InstalledIsAccepted(gate, lines, ranges);
  }

  /** A flush opens the gate exactly if it was closed. */
  lemma FlushOpens(gate: Gate, w: Watch, s: TableState)
    requires StrictLists(w)
    ensures var t := Flushed(s);
            t.Some? ==> && SameForeigners(s, t.value) && !Closed(gate, w, t.value)
                        && (Opening(gate, w, s, t.value) <==> Closed(gate, w, s))
  {
    EmptiedIsUnguarded(gate, s, w.iface, w.lists);
  }

  lemma RemovalKeeps(gate: Gate, w: Watch, s: TableState)
    requires StrictLists(w)
    ensures var t := Removed(s); t.Some? ==> SameForeigners(s, t.value) && !Opening(gate, w, s, t.value)
  {
    EmptiedIsUnguarded(gate, s, w.iface, w.lists);
    assert s.managed == Some([]) ==> s == s.(managed := Some([]));
  }

  /** A hook for the watched interface keeps a closed gate closed; a hook for another
      one opens it, because it then comes first. */
  lemma HookOpens(gate: Gate, w: Watch, s: TableState, iface: string)
    ensures var t := Hooked(s, HookRule(iface));
            t.Some? ==> && SameForeigners(s, t.value)
                        && (Opening(gate, w, s, t.value) <==> Closed(gate, w, s) && iface != w.iface)
  {
    if s.parent.Some? {
      ForeignersAfterHook(HookRule(iface), s.parent.value);
      assert HookRule(iface)[1] == Iface(iface) && HookRule(w.iface)[1] == Iface(w.iface);
    }
  }

  lemma UnhookKeeps(gate: Gate, w: Watch, s: TableState, number: int)
    requires s.parent.Some? && 2 <= number <= |s.parent.value| && IsJump(s.parent.value[number - 1])
    ensures var t := Unhooked(s, number); t.Some? && SameForeigners(s, t.value) && !Opening(gate, w, s, t.value)
  {
    DeletingJumpKeepsForeigners(s.parent.value, number);
  }

  /** Rule number `n` jumps to the managed chain. */
  predicate JumpAt(rules: seq<Rule>, n: nat) {
    1 <= n <= |rules| && IsJump(rules[n - 1])
  }

  /** `managed_hook_positions` and `pregate_hook_positions`: the numbers, from 1, of
      the rules that jump to the managed chain. */
  method ManagedHookPositions(rules: seq<Rule>) returns (positions: seq<nat>)
    ensures forall n :: n in positions <==> 1 <= n <= |rules| && IsJump(rules[n - 1])
    ensures forall n :: n in positions <==>
              1 <= n <= |rules| && exists front :: rules[n - 1] == front + [Jump, Managed]
    ensures forall i, j :: 0 <= i < j < |positions| ==> positions[i] < positions[j]
  {
    positions := [];
    for k := 0 to |rules|
      invariant forall n :: n in positions <==> 1 <= n <= k && IsJump(rules[n - 1])
      invariant forall i :: 0 <= i < |positions| ==> positions[i] in positions
      invariant forall i, j :: 0 <= i < j < |positions| ==> positions[i] < positions[j]
    {
      if IsJump(rules[k]) {
        positions := positions + [k + 1];
      }
    }
    forall rule ensures IsJump(rule) <==> exists front :: rule == front + [Jump, Managed] {
      JumpEnds(rule);
    }
  }

  /** The numbers, from 2 on, of the rules that jump to the managed chain. */
  function LaterJumps(rules: seq<Rule>): set<nat> {
    set n: nat | 2 <= n <= |rules| && JumpAt(rules, n)
  }

  lemma LaterBounds(rules: seq<Rule>)
    ensures forall n :: n in LaterJumps(rules) ==> 2 <= n <= |rules|
  {
  }

  lemma {:induction false} SurvivorsAreForeigners(rules: seq<Rule>, k: nat)
    requires 1 <= k <= |rules|
    ensures Survivors(rules, LaterJumps(rules), k) == Foreigners(rules[k..])
    decreases |rules| - k
  {
    if k < |rules| {
      assert rules[k..][1..] == rules[k + 1..];
      assert k + 1 in LaterJumps(rules) <==> IsJump(rules[k]);
      SurvivorsAreForeigners(rules, k + 1);
    }
  }

  lemma ForeignersAfterHook(rule: Rule, rules: seq<Rule>)
    requires IsJump(rule)
    ensures Foreigners([rule] + rules) == Foreigners(rules)
    ensures Jumps([rule] + Foreigners(rules)) == 1
    ensures Foreigners([rule] + Foreigners(rules)) == Foreigners(rules)
  {
    assert ([rule] + rules)[1..] == rules;
    NoJumpsLeft(rules);
  }

  lemma {:induction false} NoJumpsLeft(rules: seq<Rule>)
    ensures Jumps(Foreigners(rules)) == 0
    ensures Foreigners(Foreigners(rules)) == Foreigners(rules)
  {
    if rules != [] {
      NoJumpsLeft(rules[1..]);
      var rest := Foreigners(rules[1..]);
      if IsJump(rules[0]) {
        assert [] + rest == rest;
      } else {
        assert ([rules[0]] + rest)[1..] == rest;
      }
    }
  }

  /** A parent chain that passes the hook check is the hook and foreign rules. */
  lemma HookOkForeigners(s: TableState, iface: string)
    requires HookOk(s, iface)
    ensures s.parent.value == [HookRule(iface)] + Foreigners(s.parent.value)
  {
    NoJumpsMeansForeign(s.parent.value[1..]);
  }

  lemma {:induction false} NoJumpsMeansForeign(rules: seq<Rule>)
    requires Jumps(rules) == 0
    ensures Foreigners(rules) == rules
  {
    if rules != [] {
      NoJumpsMeansForeign(rules[1..]);
    }
  }

  lemma HookIsConsistent(s: TableState, iface: string)
    requires Consistent(s)
    ensures Hooked(s, HookRule(iface)).Some? ==> Consistent(Hooked(s, HookRule(iface)).value)
  {
  }

  /** A table with the hook freshly inserted. */
  lemma InsertedHook(before: TableState, iface: string)
    requires before.parent.Some?
    ensures var s := before.(parent := Some([HookRule(iface)] + before.parent.value));
            HookFirst(s, iface) && HookPhase(iface, before, s)
  {
    ForeignersAfterHook(HookRule(iface), before.parent.value);
  }

  /** Deleting one jump leaves the other rules alone. */
  lemma {:induction false} DeletingJumpKeepsForeigners(rules: seq<Rule>, number: nat)
    requires 1 <= number <= |rules| && IsJump(rules[number - 1])
    ensures Foreigners(Delete(rules, number)) == Foreigners(rules)
  {
    if number == 1 {
      assert Delete(rules, number) == rules[1..];
    } else {
      DeletingJumpKeepsForeigners(rules[1..], number - 1);
      assert Delete(rules, number) == [rules[0]] + Delete(rules[1..], number - 1);
    }
  }

  /** When the first rule is a jump, its number heads the list of positions, and
      the rest of the list is the other jumps. */
  lemma FirstOfPositions(rules: seq<Rule>, positions: seq<nat>)
    requires rules != [] && IsJump(rules[0])
    requires forall n :: n in positions <==> 1 <= n <= |rules| && IsJump(rules[n - 1])
    requires forall i, j :: 0 <= i < j < |positions| ==> positions[i] < positions[j]
    ensures positions != [] && positions[0] == 1
    ensures forall n :: n in positions[1..] <==> 2 <= n <= |rules| && IsJump(rules[n - 1])
  {
    assert 1 in positions;
    var k :| 0 <= k < |positions| && positions[k] == 1;
    assert positions[0] in positions;
    forall n ensures n in positions[1..] <==> n in positions && n != 1 {
      if n in positions && n != 1 {
        var i :| 0 <= i < |positions| && positions[i] == n;
        assert positions[1..][i - 1] == n;
      }
      if n in positions[1..] {
        var i :| 0 <= i < |positions[1..]| && positions[1..][i] == n;
        assert positions[i + 1] == n;
      }
    }
  }

  /** The positions after the first, in descending order, are the later jumps. */
  lemma LaterPositions(rules: seq<Rule>, positions: seq<nat>, iface: string)
    requires rules != [] && rules[0] == HookRule(iface)
    requires forall n :: n in positions <==> 1 <= n <= |rules| && IsJump(rules[n - 1])
    requires forall i, j :: 0 <= i < j < |positions| ==> positions[i] < positions[j]
    ensures positions != [] && positions[0] == 1
    ensures Pending(LaterJumps(rules), SortDescending(set n | n in positions[1..]), |rules|)
  {
    FirstOfPositions(rules, positions);
    assert forall n :: n in LaterJumps(rules) <==> n in positions[1..];
  }

  lemma FlushIsConsistent(s: TableState)
    requires Consistent(s)
    ensures Flushed(s).Some? ==> Consistent(Flushed(s).value)
    ensures Removed(s).Some? ==> Consistent(Removed(s).value)
  {
  }

  /** Deleting all later jumps leaves the first rule and the foreign rules. */
  lemma LaterJumpsDeleted(rules: seq<Rule>, bound: nat)
    requires 1 <= bound <= |rules| && forall n :: 1 < n <= bound ==> n !in LaterJumps(rules)
    ensures DeletedFrom(rules, LaterJumps(rules), bound) == [rules[0]] + Foreigners(rules[1..])
  {
    DeletedBelow(rules, LaterJumps(rules), 1, bound);
    SurvivorsAreForeigners(rules, 1);
    assert rules[..1] == [rules[0]];
  }

  /** One step of the deletion: the jump with this number goes, the first rule and
      the foreign rules stay. */
  lemma LaterJumpDeleted(rules: seq<Rule>, number: nat, bound: nat)
    requires 2 <= number <= bound <= |rules| && number in LaterJumps(rules)
    requires forall n :: number < n <= bound ==> n !in LaterJumps(rules)
    ensures var list := DeletedFrom(rules, LaterJumps(rules), bound);
            var left := DeletedFrom(rules, LaterJumps(rules), number - 1);
            && number <= |list| && Delete(list, number) == left
            && left != [] && left[0] == list[0]
            && Foreigners(left) == Foreigners(list)
  {
    DeleteNext(rules, LaterJumps(rules), number, bound);
    DeletingJumpKeepsForeigners(DeletedFrom(rules, LaterJumps(rules), bound), number);
  }

  // ----- the states an apply passes through

  /** The states of `replace_chain`, barring the failures of `OpensWindow`. */
  ghost predicate ReplacePhase(gate: Gate, ranges: seq<Cidr>, before: TableState, s: TableState) {
    && s.parent == before.parent
    && (s.managed == before.managed
        || (s.managed.Some? && InstalledAs(gate, s.managed.value, ranges))
        || (before.managed.None? && s.managed == Some([])))
  }

  /** The states of `ensure_first_hook`: the hook is first, the managed chain is
      untouched, and no rule but a jump to it is ever removed. */
  ghost predicate HookPhase(iface: string, before: TableState, s: TableState) {
    s == before
    || (&& s.managed == before.managed
        && HookFirst(s, iface)
        && before.parent.Some?
        && Foreigners(s.parent.value) == Foreigners(before.parent.value))
  }

  /** The foreign rules of the parent chain are as before. */
  ghost predicate SameForeigners(before: TableState, s: TableState) {
    if before.parent.None? then s.parent.None?
    else s.parent.Some? && Foreigners(s.parent.value) == Foreigners(before.parent.value)
  }

  /** The log has grown by states with the same foreign rules. */
  ghost predicate Extends(before: seq<TableState>, after: seq<TableState>) {
    && 0 < |before| <= |after|
    && after[..|before|] == before
    && forall i :: |before| <= i < |after| ==> SameForeigners(before[|before| - 1], after[i])
  }

  lemma ExtendsChains(a: seq<TableState>, b: seq<TableState>, c: seq<TableState>)
    requires Extends(a, b) && Extends(b, c)
    ensures Extends(a, c)
  {
    assert a == c[..|a|];
    var before, mid := a[|a| - 1], b[|b| - 1];
    assert SameForeigners(before, mid);
    forall i | |a| <= i < |c| ensures SameForeigners(before, c[i]) {
      if i < |b| {
        assert c[i] == b[i];
      } else {
        assert SameForeigners(mid, c[i]);
      }
    }
  }

  /** No range list is enforced by an empty chain. */
  lemma EmptiedIsUnguarded(gate: Gate, s: TableState, iface: string, lists: set<seq<Cidr>>)
    requires forall ranges :: ranges in lists ==> AllStrict(ranges)
    ensures !Guarded(gate, s.(managed := Some([])), iface, lists)
  {
    if ranges :| ranges in lists && ChainAccepted(gate, [], ranges) {
      BuiltChainReads(gate, ranges);
      assert false;
    }
  }

  /** A log that passes through the emptied chain has lost its guard. */
  lemma EmptiedBreaksGuard(gate: Gate, iface: string, lists: set<seq<Cidr>>, a: seq<TableState>, b: seq<TableState>,
                           i: nat)
    requires 0 < |a| <= i < |b| && Guarded(gate, a[|a| - 1], iface, lists)
    requires forall ranges :: ranges in lists ==> AllStrict(ranges)
    requires b[i] == a[|a| - 1].(managed := Some([]))
    ensures !Kept(gate, iface, lists, a, b)
  {
    EmptiedIsUnguarded(gate, a[|a| - 1], iface, lists);
  }

  lemma HookIsJump(s: TableState, iface: string)
    ensures HookFirst(s, iface) ==> HasJump(s.parent.value)
  {
    if HookFirst(s, iface) {
      assert IsJump(s.parent.value[0]);
    }
  }

  /** A chain that does not exist is not hooked. */
  lemma HookNeedsChain(s: TableState, iface: string)
    requires Consistent(s)
    ensures HookFirst(s, iface) ==> s.managed.Some?
  {
    HookIsJump(s, iface);
  }

  lemma HookStays(s: TableState, t: TableState, iface: string)
    requires s.parent == t.parent
    ensures HookFirst(s, iface) <==> HookFirst(t, iface)
  {
  }

  lemma ClosedIsHooked(gate: Gate, w: Watch, s: TableState)
    ensures Closed(gate, w, s) ==> HookFirst(s, w.iface)
  {
  }

  lemma StrictIn(w: Watch, ranges: seq<Cidr>)
    requires StrictLists(w) && ranges in w.lists
    ensures AllStrict(ranges)
  {
  }

  lemma NoneIsLegible(gate: Gate, s: TableState)
    ensures s.managed.None? ==> Legible(gate, s)
  {
  }

  lemma LegibleWithParent(gate: Gate, s: TableState, t: TableState)
    requires s.managed == t.managed
    ensures Legible(gate, s) <==> Legible(gate, t)
  {
  }

  lemma HookTakesOn(s: TableState, plan: Plan, b: nat)
    ensures HookTakes(s, plan, b) <==> s.parent.Some? && s.managed.Some? && At(plan, b) in {Fine, Raised(true)}
  {
  }

  /** A stretch with one call is kept unless the call breaches the gate. */
  lemma KeptUnless(gate: Gate, plan: Plan, w: Watch, a: History, b: History, call: Call)
    requires Accounted(gate, plan, w, a, b) && b.calls == a.calls + [call]
    ensures Kept(gate, w.iface, w.lists, a.log, b.log) <==> !Breach(gate, plan, w, call)
  {
    hide Kept, Breach;
    assert b.calls[|a.calls|] == call;
  }

  /** And so is one with hooks on the watched interface after it. */
  lemma KeptUnlessFirst(gate: Gate, plan: Plan, w: Watch, a: History, c: History, call: Call)
    requires Accounted(gate, plan, w, a, c) && |c.calls| == |a.calls| + 2 && c.calls[|a.calls|] == call
    requires c.calls[|a.calls| + 1].Hooking?
    ensures c.calls[|a.calls| + 1].iface == w.iface ==>
              (Kept(gate, w.iface, w.lists, a.log, c.log) <==> !Breach(gate, plan, w, call))
  {
    hide Kept, Closed, OpensWindow;
  }

  lemma KeptIdle(gate: Gate, w: Watch, log: seq<TableState>)
    requires log != []
    ensures Kept(gate, w.iface, w.lists, log, log)
  {
    hide Guarded;
  }

  /** A table brought to one hook and an installed chain. */
  ghost predicate InstalledOn(gate: Gate, before: TableState, s: TableState, iface: string, ranges: seq<Cidr>) {
    && before.parent.Some?
    && s.parent == Some([HookRule(iface)] + Foreigners(before.parent.value))
    && s.managed.Some? && InstalledAs(gate, s.managed.value, ranges)
  }

  lemma InstalledAccepts(gate: Gate, before: TableState, s: TableState, iface: string, ranges: seq<Cidr>)
    requires InstalledOn(gate, before, s, iface, ranges) && AllStrict(ranges)
    ensures Accepts(gate, s, iface, ranges) && !Crashes(gate, s, iface, ranges)
  {
    InstalledIsAccepted(gate, s.managed.value, ranges);
    ForeignersAfterHook(HookRule(iface), before.parent.value);
    AcceptedIsLegible(gate, s, iface, ranges);
    CrashesIffStuck(gate, s, iface, ranges);
  }

  // ----- what an account means

  /** The history of a table that could be repaired is followed by one that can. */
  lemma StaysRepairable(gate: Gate, plan: Plan, w: Watch, a: History, b: History, iface: string)
    requires Accounted(gate, plan, w, a, b) && Repairable(gate, Last(a), iface)
    ensures Repairable(gate, Last(b), iface)
  {
    hide BadLineFirst, Foreigners, Kept, Breach, CallFits, Jumps, HookFirst;
    if |b.log| > |a.log| {
      assert SameForeigners(Last(a), b.log[|b.log| - 1]);
    } else {
      assert b.log[|b.log| - 1] == a.log[|a.log| - 1];
    }
  }

  /** Without the failures that flush a chain, and without a hook for another interface,
      a gate once closed stays closed. */
  lemma KeptWithoutFailures(gate: Gate, plan: Plan, w: Watch, a: History, b: History)
    requires Accounted(gate, plan, w, a, b)
    requires forall i :: a.clock <= i < b.clock ==> !WindowFailures(gate, plan, i)
    requires forall k :: |a.calls| <= k < |b.calls| && b.calls[k].Hooking? ==> b.calls[k].iface == w.iface
    ensures Kept(gate, w.iface, w.lists, a.log, b.log)
  {
    hide Kept, Guarded;
    forall k | |a.calls| <= k < |b.calls| ensures !Breach(gate, plan, w, b.calls[k]) {
      assert CallFits(w, a, b, b.calls[k]);
    }
  }
}
