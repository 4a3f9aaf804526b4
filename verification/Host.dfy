/** The firewall commands over the four gates of a host and the persisted state
    file (scripts/cloudflare_docker_firewall.py). */
module Hosts {
  import opened Wrappers
  import opened Cidrs
  import opened Ranges
  import opened PersistedState
  import opened GateRules
  import opened GateSemantics
  import opened Netfilter
  import opened GateGuarantees
  import opened Faults
  import opened Backends

  /** One value per gate: raw/PREROUTING and DOCKER-USER, IPv4 and IPv6. */
  datatype Quad<T> = Quad(pre4: T, pre6: T, dock4: T, dock6: T)

  /** What `ip route show default` lists for a family. */
  datatype Route = NoRoute | Single(iface: string) | Ambiguous

  /** Contents of a file: all of a written value, or something less. */
  datatype Body = Whole(json: Json) | Partial

  ghost predicate EnforcedAll(s: Quad<TableState>, i4: string, i6: string, r4: seq<Cidr>, r6: seq<Cidr>) {
    && Accepts(PreDnat, s.pre4, i4, r4)
    && Accepts(PreDnat, s.pre6, i6, r6)
    && Accepts(DockerUser, s.dock4, i4, r4)
    && Accepts(DockerUser, s.dock6, i6, r6)
  }

  ghost predicate Enforced(s: Quad<TableState>, state: FirewallState) {
    EnforcedAll(s, state.iface4, state.iface6, state.ranges4, state.ranges6)
  }

  ghost predicate RepairableAll(s: Quad<TableState>, i4: string, i6: string) {
    && Repairable(PreDnat, s.pre4, i4)
    && Repairable(PreDnat, s.pre6, i6)
    && Repairable(DockerUser, s.dock4, i4)
    && Repairable(DockerUser, s.dock6, i6)
  }

  /** Gates that enforce something can be made to enforce anything else. */
  lemma EnforcedIsRepairable(s: Quad<TableState>, i4: string, i6: string, r4: seq<Cidr>, r6: seq<Cidr>,
                             j4: string, j6: string)
    requires EnforcedAll(s, i4, i6, r4, r6)
    ensures RepairableAll(s, j4, j6)
  {
    hide Repairable, Legible, Accepts;
    AcceptedIsLegible(PreDnat, s.pre4, i4, r4);
    AcceptedIsLegible(PreDnat, s.pre6, i6, r6);
    AcceptedIsLegible(DockerUser, s.dock4, i4, r4);
    AcceptedIsLegible(DockerUser, s.dock6, i6, r6);
  }

  /** A point of a run: the histories of the four tables, and how many steps outside
      them there have been. */
  datatype Moment = Moment(tables: Quad<History>, clock: nat)

  ghost predicate Started(m: Moment) {
    m.tables.pre4.log != [] && m.tables.pre6.log != [] && m.tables.dock4.log != [] && m.tables.dock6.log != []
  }

  function States(m: Moment): Quad<TableState>
    requires Started(m)
  {
    Quad(Last(m.tables.pre4), Last(m.tables.pre6), Last(m.tables.dock4), Last(m.tables.dock6))
  }

  /** New hooks are put in on the word of probes made in this stretch. */
  ghost predicate HooksProbed(a: History, b: History, from: nat, to: nat) {
    forall k :: |a.calls| <= k < |b.calls| && b.calls[k].Hooking? ==> from <= b.calls[k].probe < to
  }

  /** The account of one table between two points of a run. */
  ghost predicate TableAccounted(gate: Gate, plan: Plan, w: Watch, a: History, b: History, from: nat, to: nat) {
    Accounted(gate, plan, w, a, b) && HooksProbed(a, b, from, to)
  }

  lemma TableAccountedChains(gate: Gate, plan: Plan, w: Watch, a: History, b: History, c: History,
                             from: nat, mid: nat, again: nat, to: nat)
    requires TableAccounted(gate, plan, w, a, b, from, mid) && TableAccounted(gate, plan, w, b, c, again, to)
    requires from <= again && mid <= to
    ensures TableAccounted(gate, plan, w, a, c, from, to)
  {
    AccountedChains(gate, plan, w, a, b, c);
    CallsPrefix(gate, plan, w, b, c);
    hide Accounted;
  }

  lemma GrownLogs(gate: Gate, plan: Plan, w: Watch, a: History, b: History)
    requires Accounted(gate, plan, w, a, b)
    ensures a.log != [] && b.log != [] && a.clock <= b.clock
  {
  }

  lemma CallsPrefix(gate: Gate, plan: Plan, w: Watch, b: History, c: History)
    requires Accounted(gate, plan, w, b, c)
    ensures |b.calls| <= |c.calls| && forall k :: 0 <= k < |b.calls| ==> b.calls[k] == c.calls[k]
  {
    assert b.calls == c.calls[..|b.calls|];
  }

  /** The interface found for a route, as `detect_default_interface` reports it. */
  datatype Detection = Found(iface: string) | NotFound | Unusable

  function Detect(route: Route, outcome: Outcome): Detection {
    match outcome
    case Raised(_) => Unusable
    case Nonzero => NotFound
    case Fine =>
      match route
      case NoRoute => NotFound
      case Ambiguous => Unusable
      case Single(iface) => if ValidInterface(iface) then Found(iface) else Unusable
  }

  /** `expected_external_interfaces`: IPv6 falls back to the IPv4 interface. */
  function Expected(d4: Detection, d6: Detection): Option<(string, string)> {
    if !d4.Found? || d6.Unusable? then None
    else Some((d4.iface, if d6.Found? then d6.iface else d4.iface))
  }

  /** What the two probes find: each family's one default interface, if its name is legal;
      for IPv6 that of IPv4 if there is none, or the query says so. */
  lemma DetectedIff(route4: Route, route6: Route, o4: Outcome, o6: Outcome, i4: string, i6: string)
    ensures Expected(Detect(route4, o4), Detect(route6, o6)) == Some((i4, i6)) <==>
            && o4 == Fine && route4 == Single(i4) && ValidInterface(i4)
            && (|| (o6 == Fine && route6 == Single(i6) && ValidInterface(i6))
                || (i6 == i4 && (o6 == Nonzero || (o6 == Fine && route6 == NoRoute))))
  {
  }

  /** The interfaces web traffic really arrives on. */
  function Ingress(route4: Route, route6: Route): Option<(string, string)> {
    Expected(Detect(route4, Fine), Detect(route6, Fine))
  }

  /** A failing probe is harmless for IPv4; for IPv6 it yields a wrong answer exactly
      when the probe comes back empty although there are routes, and not one to the IPv4
      interface. */
  lemma InterfaceFallback(route4: Route, route6: Route, o4: Outcome, o6: Outcome)
    requires Expected(Detect(route4, o4), Detect(route6, o6)).Some?
    ensures Expected(Detect(route4, o4), Detect(route6, o6)) != Ingress(route4, route6)
       <==> o6 == Nonzero && (route6.Ambiguous? || (route6.Single? && route6.iface != route4.iface))
  {
  }

  /** The two probes, from the `b`-th step on, end in that wrong answer. */
  predicate FallsBack(route4: Route, route6: Route, plan: Plan, b: nat) {
    && route4.Single? && ValidInterface(route4.iface) && At(plan, b) == Fine
    && At(plan, b + 1) == Nonzero
    && (route6.Ambiguous? || (route6.Single? && route6.iface != route4.iface))
  }

  // ----- the state file, step by step

  /** The new state has replaced the old: directory, temporary file and content are
      fine, and the rename takes effect, whatever is reported and whatever comes after. */
  predicate Replaces(plan: Plan, b: nat) {
    At(plan, b) == Fine && At(plan, b + 1) == Fine && At(plan, b + 2) == Fine && At(plan, b + 3) in {Fine, Raised(true)}
  }

  /** How many steps the writing of the state takes. */
  function WriteSteps(plan: Plan, b: nat): nat {
    if At(plan, b) != Fine then 1
    else if At(plan, b + 1) != Fine then 2
    else if At(plan, b + 2) != Fine then 4
    else if At(plan, b + 3) != Fine then 5
    else 6
  }

  /** The steps taken are all fine exactly if all six are. */
  lemma WriteStepsSmooth(plan: Plan, b: nat)
    ensures Went(plan, b, b + WriteSteps(plan, b)) <==> Went(plan, b, b + 6)
    ensures Went(plan, b, b + 6) ==> WriteSteps(plan, b) == 6
  {
    if Went(plan, b, b + WriteSteps(plan, b)) {
      assert At(plan, b) == Fine && At(plan, b + 1) == Fine && At(plan, b + 2) == Fine && At(plan, b + 3) == Fine;
    }
  }

  /** How `refresh` ends: normally; before touching anything; rolled back to the
      prior state; with the emergency deny in place of a missing prior state; or
      with the rollback failed too. */
  datatype RefreshResult = Refreshed | Blocked | RolledBack | Denied | BothFailed

  /** A snapshot directory as `validate_backup` finds it. */
  datatype Backup = Invalid | PriorAbsent | PriorState(json: Json)

  datatype RollbackResult = Restored | DenyKept | RollbackFailed

  /** How `apply-state` and `apply-pregate-state` end: the state applied, the
      emergency deny in its place, or neither. */
  datatype ApplyResult = Applied | DenyActive | NothingSure

  /** The commands of `main` that can change anything, with what they take from
      outside: fetched lines, digests, a snapshot, the confirmation phrase's check. */
  datatype Command =
    | RefreshCommand(iface4: string, iface6: string, lines4: seq<Line>, lines6: seq<Line>,
                     hashes: map<string, string>, confirmed: bool)
    | ApplyStateCommand
    | ApplyPregateCommand
    | RollbackCommand(backup: Backup, confirmed: bool)

  /** Digests are SHA-256 hex strings. */
  ghost predicate HashesOk(command: Command) {
    command.RefreshCommand? ==>
      && command.hashes.Keys == HASH_FIELDS
      && forall key :: key in command.hashes ==> ValidHash(command.hashes[key])
  }

  function OptionSet<T>(value: Option<T>): set<T> {
    if value.Some? then {value.value} else {}
  }

  /** The range lists, IPv4 and IPv6, that a command validates. */
  function CommandLists(command: Command, family: Family, isGlobal: Cidr -> bool): set<seq<Cidr>> {
    match command
    case RefreshCommand(_, _, lines4, lines6, _, _) =>
      OptionSet(Validated(if family.V4? then lines4 else lines6, family, isGlobal))
    case RollbackCommand(PriorState(json), _) => StateLists(Parsed(json, isGlobal), family)
    case _ => {}
  }

  function StateLists(state: Option<FirewallState>, family: Family): set<seq<Cidr>> {
    if state.None? then {} else if family.V4? then {state.value.ranges4} else {state.value.ranges6}
  }

  /** Everything a run can legitimately enforce: the empty list, the persisted
      state's lists, and every list validated by one of its commands. */
  ghost function RunLists(initial: Option<FirewallState>, commands: seq<Command>, family: Family,
                          isGlobal: Cidr -> bool): set<seq<Cidr>>
  {
    {[]} + StateLists(initial, family)
    + set c, ranges | c in commands && ranges in CommandLists(c, family, isGlobal) :: ranges
  }

  lemma RunListsAreStrict(initial: Option<FirewallState>, commands: seq<Command>, family: Family,
                          isGlobal: Cidr -> bool)
    requires initial.Some? ==> ValidState(initial.value, isGlobal)
    ensures forall ranges :: ranges in RunLists(initial, commands, family, isGlobal) ==> AllStrict(ranges)
  {
    forall ranges | ranges in RunLists(initial, commands, family, isGlobal) ensures AllStrict(ranges) {
      if ranges != [] {
        if ranges in StateLists(initial, family) {
          ValidStatesAreStrict(initial.value, isGlobal);
        } else {
          var c :| c in commands && ranges in CommandLists(c, family, isGlobal);
          CommandListsAreStrict(c, family, isGlobal, ranges);
        }
      }
    }
  }

  lemma CommandListsAreStrict(c: Command, family: Family, isGlobal: Cidr -> bool, ranges: seq<Cidr>)
    requires ranges in CommandLists(c, family, isGlobal)
    ensures AllStrict(ranges)
  {
    if c.RefreshCommand? {
      ValidatedIsCanonical(if family.V4? then c.lines4 else c.lines6, family, isGlobal);
      ValidListFamily(ranges, family, isGlobal);
    } else {
      ParseAcceptsOnlyWrittenStates(c.backup.json, isGlobal);
      ValidStatesAreStrict(Parsed(c.backup.json, isGlobal).value, isGlobal);
    }
  }

  ghost predicate StrictState(state: FirewallState) {
    AllStrict(state.ranges4) && AllStrict(state.ranges6)
  }

  lemma ValidStatesAreStrict(state: FirewallState, isGlobal: Cidr -> bool)
    requires ValidState(state, isGlobal)
    ensures StrictState(state)
  {
    ValidListFamily(state.ranges4, V4, isGlobal);
    ValidListFamily(state.ranges6, V6, isGlobal);
  }

  /** The whole of a valid state whose lists are among the given ones. */
  ghost predicate WholeState(body: Option<Body>, l4: set<seq<Cidr>>, l6: set<seq<Cidr>>, isGlobal: Cidr -> bool) {
    exists state :: && ValidState(state, isGlobal) && state.ranges4 in l4 && state.ranges6 in l6
                    && body == Some(Whole(ToJson(state)))
  }

  /** The state file has only ever been made absent or a whole such state. */
  ghost predicate FilesWhole(w4: Watch, w6: Watch, isGlobal: Cidr -> bool, before: seq<Option<Body>>,
                             after: seq<Option<Body>>)
  {
    && |before| <= |after| && after[..|before|] == before
    && forall i :: |before| <= i < |after| ==> after[i].None? || WholeState(after[i], w4.lists, w6.lists, isGlobal)
  }

  lemma FilesWholeChains(w4: Watch, w6: Watch, isGlobal: Cidr -> bool,
                         a: seq<Option<Body>>, b: seq<Option<Body>>, c: seq<Option<Body>>)
    requires FilesWhole(w4, w6, isGlobal, a, b) && FilesWhole(w4, w6, isGlobal, b, c)
    ensures FilesWhole(w4, w6, isGlobal, a, c)
  {
    hide WholeState;
    assert a == c[..|a|];
    assert forall i :: 0 <= i < |b| ==> b[i] == c[i];
  }

  class Host {
    const pre4: Backend
    const pre6: Backend
    const dock4: Backend
    const dock6: Backend
    const route4: Route
    const route6: Route
    const isGlobal: Cidr -> bool
    /** How the steps outside the tables go, one after another. */
    const plan: Plan

    /** STATE_PATH, and the temporary file beside it. */
    var file: Option<Body>
    var temporary: Option<Body>
    /** How many of those steps have gone. */
    var clock: nat
    /** Everything STATE_PATH has been, one entry per change. */
    ghost var fileLog: seq<Option<Body>>

    constructor (pre4: Backend, pre6: Backend, dock4: Backend, dock6: Backend,
                 route4: Route, route6: Route, isGlobal: Cidr -> bool, file: Option<Body>, plan: Plan)
      requires pre4.Valid() && pre6.Valid() && dock4.Valid() && dock6.Valid()
      requires pre4.gate.PreDnat? && pre6.gate.PreDnat? && dock4.gate.DockerUser? && dock6.gate.DockerUser?
      requires pre4 != pre6 && dock4 != dock6
      ensures Valid() && this.file == file && fileLog == [file]
      ensures this.plan == plan && clock == 0
      ensures this.pre4 == pre4 && this.pre6 == pre6 && this.dock4 == dock4 && this.dock6 == dock6
      ensures this.route4 == route4 && this.route6 == route6 && this.isGlobal == isGlobal
    {
      this.pre4, this.pre6, this.dock4, this.dock6 := pre4, pre6, dock4, dock6;
      this.route4, this.route6, this.isGlobal := route4, route6, isGlobal;
      this.plan, clock := plan, 0;
      this.file, temporary := file, None;
      fileLog := [file];
    }

    ghost predicate Valid()
      reads this, pre4, pre6, dock4, dock6
    {
      && pre4.Valid() && pre6.Valid() && dock4.Valid() && dock6.Valid()
      && pre4.gate.PreDnat? && pre6.gate.PreDnat? && dock4.gate.DockerUser? && dock6.gate.DockerUser?
      && pre4 != pre6 && dock4 != dock6
      && fileLog != [] && fileLog[|fileLog| - 1] == file
    }

    ghost function Tables(): Quad<TableState>
      reads pre4, pre6, dock4, dock6
    {
      Quad(pre4.state, pre6.state, dock4.state, dock6.state)
    }

    ghost function Now(): Moment
      reads `clock, pre4, pre6, dock4, dock6
    {
      Moment(Quad(pre4.Past(), pre6.Past(), dock4.Past(), dock6.Past()), clock)
    }

    /** None of the steps and commands between two points failed. */
    ghost predicate Smoothly(a: Moment, b: Moment) {
      && Went(plan, a.clock, b.clock)
      && Went(pre4.plan, a.tables.pre4.clock, b.tables.pre4.clock)
      && Went(pre6.plan, a.tables.pre6.clock, b.tables.pre6.clock)
      && Went(dock4.plan, a.tables.dock4.clock, b.tables.dock4.clock)
      && Went(dock6.plan, a.tables.dock6.clock, b.tables.dock6.clock)
    }

    /** A smooth stretch is smooth in both its parts. */
    lemma SmoothlyParts(a: Moment, b: Moment, c: Moment)
      requires Later(a, b) && Later(b, c)
      ensures Smoothly(a, c) <==> Smoothly(a, b) && Smoothly(b, c)
    {
    }

    /** Time only goes on. */
    ghost predicate Later(a: Moment, b: Moment) {
      && a.clock <= b.clock
      && a.tables.pre4.clock <= b.tables.pre4.clock && a.tables.pre6.clock <= b.tables.pre6.clock
      && a.tables.dock4.clock <= b.tables.dock4.clock && a.tables.dock6.clock <= b.tables.dock6.clock
    }

    /** The full account of all four tables. */
    ghost predicate AccountedAll(w4: Watch, w6: Watch, a: Moment, b: Moment) {
      && a.clock <= b.clock
      && TableAccounted(PreDnat, pre4.plan, w4, a.tables.pre4, b.tables.pre4, a.clock, b.clock)
      && TableAccounted(PreDnat, pre6.plan, w6, a.tables.pre6, b.tables.pre6, a.clock, b.clock)
      && TableAccounted(DockerUser, dock4.plan, w4, a.tables.dock4, b.tables.dock4, a.clock, b.clock)
      && TableAccounted(DockerUser, dock6.plan, w6, a.tables.dock6, b.tables.dock6, a.clock, b.clock)
    }

    lemma AccountedAllChains(w4: Watch, w6: Watch, a: Moment, b: Moment, c: Moment)
      requires AccountedAll(w4, w6, a, b) && AccountedAll(w4, w6, b, c)
      ensures AccountedAll(w4, w6, a, c)
    {
      hide TableAccounted;
      TableAccountedChains(PreDnat, pre4.plan, w4, a.tables.pre4, b.tables.pre4, c.tables.pre4, a.clock, b.clock,
                           b.clock, c.clock);
      TableAccountedChains(PreDnat, pre6.plan, w6, a.tables.pre6, b.tables.pre6, c.tables.pre6, a.clock, b.clock,
                           b.clock, c.clock);
      TableAccountedChains(DockerUser, dock4.plan, w4, a.tables.dock4, b.tables.dock4, c.tables.dock4,
                           a.clock, b.clock, b.clock, c.clock);
      TableAccountedChains(DockerUser, dock6.plan, w6, a.tables.dock6, b.tables.dock6, c.tables.dock6,
                           a.clock, b.clock, b.clock, c.clock);
    }

    /** A stretch in which no table changes. */
    lemma AccountedAllIdle(w4: Watch, w6: Watch, a: Moment, b: Moment)
      requires Started(a) && Later(a, b)
      requires b.tables.pre4 == a.tables.pre4.(clock := b.tables.pre4.clock)
      requires b.tables.pre6 == a.tables.pre6.(clock := b.tables.pre6.clock)
      requires b.tables.dock4 == a.tables.dock4.(clock := b.tables.dock4.clock)
      requires b.tables.dock6 == a.tables.dock6.(clock := b.tables.dock6.clock)
      ensures AccountedAll(w4, w6, a, b)
    {
      hide Accounted;
      AccountedIdle(PreDnat, pre4.plan, w4, a.tables.pre4, b.tables.pre4);
      AccountedIdle(PreDnat, pre6.plan, w6, a.tables.pre6, b.tables.pre6);
      AccountedIdle(DockerUser, dock4.plan, w4, a.tables.dock4, b.tables.dock4);
      AccountedIdle(DockerUser, dock6.plan, w6, a.tables.dock6, b.tables.dock6);
    }

    lemma AccountedAllLater(w4: Watch, w6: Watch, a: Moment, b: Moment)
      requires AccountedAll(w4, w6, a, b)
      ensures Later(a, b) && Started(a) && Started(b)
    {
      hide Kept, Extends, CallFits, Breach, Legible;
      GrownLogs(PreDnat, pre4.plan, w4, a.tables.pre4, b.tables.pre4);
      GrownLogs(PreDnat, pre6.plan, w6, a.tables.pre6, b.tables.pre6);
      GrownLogs(DockerUser, dock4.plan, w4, a.tables.dock4, b.tables.dock4);
      GrownLogs(DockerUser, dock6.plan, w6, a.tables.dock6, b.tables.dock6);
    }

    /** Tables that could be repaired still can. */
    lemma StillRepairable(w4: Watch, w6: Watch, a: Moment, b: Moment, i4: string, i6: string)
      requires AccountedAll(w4, w6, a, b) && Started(a) && Started(b) && RepairableAll(States(a), i4, i6)
      ensures RepairableAll(States(b), i4, i6)
    {
      hide Accounted, Repairable;
      StaysRepairable(PreDnat, pre4.plan, w4, a.tables.pre4, b.tables.pre4, i4);
      StaysRepairable(PreDnat, pre6.plan, w6, a.tables.pre6, b.tables.pre6, i6);
      StaysRepairable(DockerUser, dock4.plan, w4, a.tables.dock4, b.tables.dock4, i4);
      StaysRepairable(DockerUser, dock6.plan, w6, a.tables.dock6, b.tables.dock6, i6);
    }

    /** The interface that probes beginning with step `b` find for a family. */
    predicate Detects(family: Family, iface: string, b: nat) {
      var found := Expected(Detect(route4, At(plan, b)), Detect(route6, At(plan, b + 1)));
      found.Some? && iface == if family.V4? then found.value.0 else found.value.1
    }

    /** The lists watched are validated ones with the empty list among them, and gates may
        be hooked on what the probes find. */
    ghost predicate Watching(w4: Watch, w6: Watch) {
      && StrictLists(w4) && StrictLists(w6)
      && [] in w4.lists && [] in w6.lists
      && (forall iface, b :: Detects(V4, iface, b) ==> w4.hooks(iface, b))
      && (forall iface, b :: Detects(V6, iface, b) ==> w6.hooks(iface, b))
    }

    method Step() returns (outcome: Outcome)
      modifies `clock
      ensures outcome == At(plan, old(clock)) && clock == old(clock) + 1
    {
      outcome := if clock < |plan| then plan[clock] else Fine;
      clock := clock + 1;
    }

    // ----- the state file

    /** The content is first written in full beside its place and then moved there; the
        plan says when that happens and when it is reported. */
    method WriteWhole(content: Json) returns (ok: bool)
      modifies `file, `temporary, `clock, `fileLog
      ensures if Replaces(plan, old(clock)) then file == Some(Whole(content)) && fileLog == old(fileLog) + [file]
              else file == old(file) && fileLog == old(fileLog)
      ensures ok <==> Went(plan, old(clock), old(clock) + 6)
      ensures ok ==> Replaces(plan, old(clock))
      ensures clock == old(clock) + WriteSteps(plan, old(clock))
      ensures if WriteSteps(plan, old(clock)) <= 2 then temporary == old(temporary)
              else temporary.None? <==> Replaces(plan, old(clock)) || At(plan, clock - 1) in {Fine, Raised(true)}
    {
      var prepared := Step();
      if prepared != Fine {
        return false;
      }
      var made := Step();
      if made != Fine {
        return false;
      }
      temporary := Some(Partial);
      var written := Step();
      ok := written == Fine;
      if ok {
        temporary := Some(Whole(content));
        var replaced := Step();
        ok := replaced == Fine;
        if replaced == Fine || replaced == Raised(true) {
          file, temporary := temporary, None;
          fileLog := fileLog + [file];
        }
        if ok {
          var synced := Step();
          ok := synced == Fine;
        }
      }
      var unlinked := Step();
      if unlinked == Fine || unlinked == Raised(true) {
        temporary := None;
      }
      ok := ok && unlinked == Fine;
    }

    /** `atomic_write_state`: directory checks, temporary file, write, replace, fsync
        of the directory; the temporary file is unlinked at the end. */
    method AtomicWriteState(state: FirewallState) returns (ok: bool)
      requires Valid()
      modifies `file, `temporary, `clock, `fileLog
      ensures Valid()
      ensures if Replaces(plan, old(clock)) then file == Some(Whole(ToJson(state))) && fileLog == old(fileLog) + [file]
              else file == old(file) && fileLog == old(fileLog)
      ensures ok <==> Went(plan, old(clock), old(clock) + 6)
      ensures ok ==> Replaces(plan, old(clock))
      ensures clock == old(clock) + WriteSteps(plan, old(clock))
      ensures if WriteSteps(plan, old(clock)) <= 2 then temporary == old(temporary)
              else temporary.None? <==> Replaces(plan, old(clock)) || At(plan, clock - 1) in {Fine, Raised(true)}
    {
      ok := WriteWhole(ToJson(state));
    }

    function Loaded(body: Option<Body>): Option<FirewallState> {
      if body.Some? && body.value.Whole? then Parsed(body.value.json, isGlobal) else None
    }

    /** `load_state` */
    method LoadState() returns (state: Option<FirewallState>)
      modifies `clock
      ensures state == if At(plan, old(clock)) == Fine then Loaded(file) else None
      ensures clock == old(clock) + 1
    {
      hide Parsed;
      var readable := Step();
      if readable != Fine || file.None? || file.value.Partial? {
        return None;
      }
      state := ParseState(file.value.json, isGlobal);
    }

    // ----- interfaces

    method ExpectedExternalInterfaces() returns (r: Option<(string, string)>)
      modifies `clock
      ensures r == Expected(Detect(route4, At(plan, old(clock))), Detect(route6, At(plan, old(clock) + 1)))
      ensures r.Some? ==> Detects(V4, r.value.0, old(clock)) && Detects(V6, r.value.1, old(clock))
      ensures old(clock) < clock <= old(clock) + 2 && (r.Some? ==> clock == old(clock) + 2)
      ensures r.Some? ==> (r != Ingress(route4, route6) <==> FallsBack(route4, route6, plan, old(clock)))
      ensures Went(plan, old(clock), clock) ==> r == Ingress(route4, route6)
      ensures r.Some? ==> route4 == Single(r.value.0) && (r.value.1 == r.value.0 || route6 == Single(r.value.1))
    {
      var o4 := Step();
      var d4 := Detect(route4, o4);
      if !d4.Found? {
        return None;
      }
      var o6 := Step();
      r := Expected(d4, Detect(route6, o6));
    }

    method RequireExternalInterfaces(i4: string, i6: string) returns (ok: bool)
      modifies `clock
      ensures ok ==> Ingress(route4, route6) == Some((i4, i6)) || FallsBack(route4, route6, plan, old(clock))
      ensures ok ==> Detects(V4, i4, old(clock)) && Detects(V6, i6, old(clock)) && clock == old(clock) + 4
      ensures old(clock) < clock <= old(clock) + 4
      ensures Went(plan, old(clock), clock) ==> (ok <==> Ingress(route4, route6) == Some((i4, i6)))
      ensures ok ==> Went(plan, old(clock) + 2, clock)
    {
      hide Ingress, FallsBack;
      var expected := ExpectedExternalInterfaces();
      if expected != Some((i4, i6)) {
        return false;
      }
      var e4 := Step();
      if e4 != Fine {
        return false;
      }
      var e6 := Step();
      ok := e6 == Fine;
    }

    // ----- the gates

    /** `Backend(family).apply(iface, ranges)`; constructing the backend checks its
        executables and may raise. */
    method ApplyGate(t: Backend, iface: string, ranges: seq<Cidr>, ghost probe: nat, ghost w: Watch) returns (ok: bool)
      requires t.Valid() && StrictLists(w) && ranges in w.lists && w.hooks(iface, probe) && probe < clock
      modifies t, `clock
      ensures t.Valid() && clock == old(clock) + 1
      ensures ok ==> Accepts(t.gate, t.state, iface, ranges)
      ensures Went(plan, old(clock), clock) && Went(t.plan, old(t.clock), t.clock) ==>
                (ok <==> Repairable(t.gate, old(t.state), iface))
      ensures TableAccounted(t.gate, t.plan, w, old(t.Past()), t.Past(), probe, clock)
      ensures ok ==> At(plan, old(clock)) == Fine
    {
      AccountedIdle(t.gate, t.plan, w, t.Past(), t.Past());
      var trusted := Step();
      if trusted != Fine {
        return false;
      }
      var exit := t.Apply(iface, ranges, probe, w);
      ok := exit.Done?;
    }

    /** The account of a stretch from the probes on, for hooks they are to justify. */
    ghost predicate AccountedSince(w4: Watch, w6: Watch, probe: nat, a: Moment, b: Moment) {
      AccountedAll(w4, w6, a.(clock := probe), b)
    }

    method ApplyPregates(i4: string, i6: string, r4: seq<Cidr>, r6: seq<Cidr>, ghost probe: nat,
                         ghost w4: Watch, ghost w6: Watch)
      returns (ok: bool)
      requires Valid() && Watching(w4, w6) && r4 in w4.lists && r6 in w6.lists
      requires w4.hooks(i4, probe) && w6.hooks(i6, probe) && probe < clock
      modifies pre4, pre6, `clock
      ensures Valid()
      ensures old(clock) < clock <= old(clock) + 2 && (ok ==> clock == old(clock) + 2)
      ensures ok ==> Accepts(PreDnat, pre4.state, i4, r4) && Accepts(PreDnat, pre6.state, i6, r6)
      ensures Smoothly(old(Now()), Now()) ==>
                (ok <==> Repairable(PreDnat, old(pre4.state), i4) && Repairable(PreDnat, old(pre6.state), i6))
      ensures AccountedSince(w4, w6, probe, old(Now()), Now())
      ensures ok ==> Went(plan, old(clock), clock)
    {
      hide Accepts, Repairable, Accounted;
      ghost var a := Now();
      ok := ApplyGate(pre4, i4, r4, probe, w4);
      if ok {
        ok := ApplyGate(pre6, i6, r6, probe, w6);
      }
      AccountedIdle(PreDnat, pre6.plan, w6, a.tables.pre6, a.tables.pre6);
      AccountedIdle(DockerUser, dock4.plan, w4, a.tables.dock4, a.tables.dock4);
      AccountedIdle(DockerUser, dock6.plan, w6, a.tables.dock6, a.tables.dock6);
    }

    method ApplyDockerGates(i4: string, i6: string, r4: seq<Cidr>, r6: seq<Cidr>, ghost probe: nat,
                            ghost w4: Watch, ghost w6: Watch)
      returns (ok: bool)
      requires Valid() && Watching(w4, w6) && r4 in w4.lists && r6 in w6.lists
      requires w4.hooks(i4, probe) && w6.hooks(i6, probe) && probe < clock
      modifies dock4, dock6, `clock
      ensures Valid()
      ensures old(clock) < clock <= old(clock) + 2 && (ok ==> clock == old(clock) + 2)
      ensures ok ==> Accepts(DockerUser, dock4.state, i4, r4) && Accepts(DockerUser, dock6.state, i6, r6)
      ensures Smoothly(old(Now()), Now()) ==>
                (ok <==> Repairable(DockerUser, old(dock4.state), i4) && Repairable(DockerUser, old(dock6.state), i6))
      ensures AccountedSince(w4, w6, probe, old(Now()), Now())
      ensures ok ==> Went(plan, old(clock), clock)
    {
      hide Accepts, Repairable, Accounted;
      ghost var a := Now();
      ok := ApplyGate(dock4, i4, r4, probe, w4);
      if ok {
        ok := ApplyGate(dock6, i6, r6, probe, w6);
      }
      AccountedIdle(PreDnat, pre4.plan, w4, a.tables.pre4, a.tables.pre4);
      AccountedIdle(PreDnat, pre6.plan, w6, a.tables.pre6, a.tables.pre6);
      AccountedIdle(DockerUser, dock6.plan, w6, a.tables.dock6, a.tables.dock6);
    }

    method ApplyAll(i4: string, i6: string, r4: seq<Cidr>, r6: seq<Cidr>, ghost probe: nat,
                    ghost w4: Watch, ghost w6: Watch)
      returns (ok: bool)
      requires Valid() && Watching(w4, w6) && r4 in w4.lists && r6 in w6.lists
      requires w4.hooks(i4, probe) && w6.hooks(i6, probe) && probe < clock
      modifies pre4, pre6, dock4, dock6, `clock
      ensures Valid()
      ensures old(clock) < clock <= old(clock) + 4
      ensures ok ==> clock == old(clock) + 4 && EnforcedAll(Tables(), i4, i6, r4, r6)
      ensures Smoothly(old(Now()), Now()) ==> (ok <==> RepairableAll(old(Tables()), i4, i6))
      ensures AccountedSince(w4, w6, probe, old(Now()), Now())
      ensures ok ==> Went(plan, old(clock), clock)
    {
      hide AccountedAll, Accepts, Repairable;
      ghost var a := Now();
      ok := ApplyPregates(i4, i6, r4, r6, probe, w4, w6);
      if ok {
        ghost var b := Now();
        ok := ApplyDockerGates(i4, i6, r4, r6, probe, w4, w6);
        SinceChains(w4, w6, probe, a, b, Now());
      }
    }

    lemma SinceChains(w4: Watch, w6: Watch, probe: nat, a: Moment, b: Moment, c: Moment)
      requires AccountedSince(w4, w6, probe, a, b) && AccountedSince(w4, w6, probe, b, c) && b.clock <= c.clock
      ensures AccountedSince(w4, w6, probe, a, c)
    {
      hide Accounted;
      TableAccountedChains(PreDnat, pre4.plan, w4, a.tables.pre4, b.tables.pre4, c.tables.pre4,
                           probe, b.clock, probe, c.clock);
      TableAccountedChains(PreDnat, pre6.plan, w6, a.tables.pre6, b.tables.pre6, c.tables.pre6,
                           probe, b.clock, probe, c.clock);
      TableAccountedChains(DockerUser, dock4.plan, w4, a.tables.dock4, b.tables.dock4, c.tables.dock4,
                           probe, b.clock, probe, c.clock);
      TableAccountedChains(DockerUser, dock6.plan, w6, a.tables.dock6, b.tables.dock6, c.tables.dock6,
                           probe, b.clock, probe, c.clock);
    }

    /** What `apply_state` needs besides steps that do not fail. */
    ghost predicate Appliable(state: FirewallState, tables: Quad<TableState>) {
      && Ingress(route4, route6) == Some((state.iface4, state.iface6))
      && RepairableAll(tables, state.iface4, state.iface6)
    }

    /** The state is one for the ingress interfaces. */
    predicate OnIngress(state: Option<FirewallState>) {
      state.Some? && Ingress(route4, route6) == Some((state.value.iface4, state.value.iface6))
    }

    /** The same for the emergency deny. */
    ghost predicate Deniable(tables: Quad<TableState>) {
      var ingress := Ingress(route4, route6);
      ingress.Some? && RepairableAll(tables, ingress.value.0, ingress.value.1)
    }

    /** The lists watched hold a state's ranges. */
    ghost predicate Lists(w4: Watch, w6: Watch, state: Option<FirewallState>) {
      state.Some? ==> state.value.ranges4 in w4.lists && state.value.ranges6 in w6.lists
    }

    /** Steps before the gates are touched belong to the account. */
    lemma SinceThen(w4: Watch, w6: Watch, a: Moment, b: Moment, c: Moment)
      requires a.tables == b.tables && AccountedSince(w4, w6, a.clock, b, c)
      ensures AccountedAll(w4, w6, a, c)
    {
      hide TableAccounted;
      assert b.(clock := a.clock) == a;
    }

    method ApplyState(state: FirewallState, ghost w4: Watch, ghost w6: Watch) returns (ok: bool)
      requires Valid() && Watching(w4, w6) && Lists(w4, w6, Some(state))
      modifies pre4, pre6, dock4, dock6, `clock
      ensures Valid()
      ensures clock <= old(clock) + 8
      ensures ok ==> clock == old(clock) + 8 && Enforced(Tables(), state)
      ensures Smoothly(old(Now()), Now()) ==> (ok <==> Appliable(state, old(Tables())))
      ensures AccountedAll(w4, w6, old(Now()), Now())
      ensures ok ==> Went(plan, old(clock) + 2, clock)
    {
      hide TableAccounted, EnforcedAll, RepairableAll, Ingress, AccountedSince, Detects;
      ghost var a := Now();
      ok := RequireExternalInterfaces(state.iface4, state.iface6);
      ghost var b := Now();
      if ok {
        ok := ApplyAll(state.iface4, state.iface6, state.ranges4, state.ranges6, a.clock, w4, w6);
        SinceThen(w4, w6, a, b, Now());
      } else {
        AccountedAllIdle(w4, w6, a, b);
      }
    }

    ghost predicate PregatesEnforce(i4: string, i6: string, r4: seq<Cidr>, r6: seq<Cidr>)
      reads pre4, pre6
    {
      Accepts(PreDnat, pre4.state, i4, r4) && Accepts(PreDnat, pre6.state, i6, r6)
    }

    ghost predicate PregatesRepairable(tables: Quad<TableState>, i4: string, i6: string) {
      Repairable(PreDnat, tables.pre4, i4) && Repairable(PreDnat, tables.pre6, i6)
    }

    /** What `apply_pregate_state` needs besides steps that do not fail. */
    ghost predicate PregateAppliable(state: FirewallState, tables: Quad<TableState>) {
      && Ingress(route4, route6) == Some((state.iface4, state.iface6))
      && PregatesRepairable(tables, state.iface4, state.iface6)
    }

    /** The same for the emergency deny of the raw gates. */
    ghost predicate PregateDeniable(tables: Quad<TableState>) {
      var ingress := Ingress(route4, route6);
      ingress.Some? && PregatesRepairable(tables, ingress.value.0, ingress.value.1)
    }

    method ApplyPregateState(state: FirewallState, ghost w4: Watch, ghost w6: Watch) returns (ok: bool)
      requires Valid() && Watching(w4, w6) && Lists(w4, w6, Some(state))
      modifies pre4, pre6, `clock
      ensures Valid()
      ensures ok ==> PregatesEnforce(state.iface4, state.iface6, state.ranges4, state.ranges6)
      ensures Smoothly(old(Now()), Now()) ==> (ok <==> PregateAppliable(state, old(Tables())))
      ensures AccountedAll(w4, w6, old(Now()), Now())
      ensures ok ==> Went(plan, old(clock) + 2, clock)
    {
      hide TableAccounted, Accepts, Repairable, Ingress, AccountedSince, Detects;
      ghost var a := Now();
      ok := RequireExternalInterfaces(state.iface4, state.iface6);
      ghost var b := Now();
      if ok {
        ok := ApplyPregates(state.iface4, state.iface6, state.ranges4, state.ranges6, a.clock, w4, w6);
        SinceThen(w4, w6, a, b, Now());
      } else {
        AccountedAllIdle(w4, w6, a, b);
      }
    }

    /** Every gate denies all web traffic on the ingress interfaces. */
    ghost predicate DeniesAll()
      reads pre4, pre6, dock4, dock6
    {
      var ingress := Ingress(route4, route6);
      ingress.Some? && EnforcedAll(Tables(), ingress.value.0, ingress.value.1, [], [])
    }

    /** Every gate denies all web traffic on an interface of a default route, and the
        IPv4 gates on the right one. */
    ghost predicate DeniesSomewhere()
      reads pre4, pre6, dock4, dock6
    {
      && route4.Single?
      && exists i6 :: (i6 == route4.iface || route6 == Single(i6)) && EnforcedAll(Tables(), route4.iface, i6, [], [])
    }

    /** What the emergency deny achieves whose probes began with step `b`. */
    ghost predicate Denies(b: nat)
      reads pre4, pre6, dock4, dock6
    {
      DeniesSomewhere() && (FallsBack(route4, route6, plan, b) || DeniesAll())
    }

    method ApplyFailClosed(ghost w4: Watch, ghost w6: Watch) returns (ok: bool)
      requires Valid() && Watching(w4, w6)
      modifies pre4, pre6, dock4, dock6, `clock
      ensures Valid()
      ensures ok ==> Denies(old(clock)) && clock == old(clock) + 6
      ensures clock <= old(clock) + 6
      ensures Smoothly(old(Now()), Now()) ==> (ok <==> Deniable(old(Tables()))) && (ok ==> DeniesAll())
      ensures AccountedAll(w4, w6, old(Now()), Now())
    {
      hide TableAccounted, EnforcedAll, RepairableAll, Ingress, AccountedSince, Detects;
      ghost var a := Now();
      var expected := ExpectedExternalInterfaces();
      ghost var b := Now();
      if expected.None? {
        AccountedAllIdle(w4, w6, a, b);
        return false;
      }
      ok := ApplyAll(expected.value.0, expected.value.1, [], [], a.clock, w4, w6);
      SinceThen(w4, w6, a, b, Now());
    }

    method ApplyPregateFailClosed(ghost w4: Watch, ghost w6: Watch) returns (ok: bool)
      requires Valid() && Watching(w4, w6)
      modifies pre4, pre6, `clock
      ensures Valid()
      ensures ok ==> PregatesDeny(old(clock))
      ensures Smoothly(old(Now()), Now()) ==> (ok <==> PregateDeniable(old(Tables())))
      ensures AccountedAll(w4, w6, old(Now()), Now())
    {
      hide TableAccounted, Accepts, Repairable, Ingress, AccountedSince, Detects;
      ghost var a := Now();
      var expected := ExpectedExternalInterfaces();
      ghost var b := Now();
      if expected.None? {
        AccountedAllIdle(w4, w6, a, b);
        return false;
      }
      ok := ApplyPregates(expected.value.0, expected.value.1, [], [], a.clock, w4, w6);
      SinceThen(w4, w6, a, b, Now());
    }

    /** The raw gates deny all web traffic on the ingress interfaces, unless the probes
        beginning with step `b` fell back. */
    ghost predicate PregatesDeny(b: nat)
      reads pre4, pre6
    {
      var ingress := Ingress(route4, route6);
      || FallsBack(route4, route6, plan, b)
      || (ingress.Some? && PregatesEnforce(ingress.value.0, ingress.value.1, [], []))
    }

    method VerifyGate(t: Backend, iface: string, ranges: seq<Cidr>) returns (ok: bool)
      requires t.Valid()
      modifies t`clock, `clock
      ensures clock == old(clock) + 1 && t.clock >= old(t.clock)
      ensures ok ==> Accepts(t.gate, t.state, iface, ranges)
      ensures Went(plan, old(clock), clock) && Went(t.plan, old(t.clock), t.clock) ==>
                (ok <==> Accepts(t.gate, t.state, iface, ranges))
      ensures ok ==> At(plan, old(clock)) == Fine
    {
      var trusted := Step();
      if trusted != Fine {
        return false;
      }
      var exit := t.Verify(iface, ranges);
      ok := exit.Done?;
    }

    method VerifyState(state: FirewallState) returns (ok: bool)
      requires Valid()
      modifies pre4`clock, pre6`clock, dock4`clock, dock6`clock, `clock
      ensures Later(old(Now()), Now()) && clock <= old(clock) + 8
      ensures ok ==> clock == old(clock) + 8 && Enforced(Tables(), state)
      ensures ok ==> || Ingress(route4, route6) == Some((state.iface4, state.iface6))
                     || FallsBack(route4, route6, plan, old(clock))
      ensures Smoothly(old(Now()), Now()) ==>
                (ok <==> Ingress(route4, route6) == Some((state.iface4, state.iface6)) && Enforced(Tables(), state))
      ensures ok ==> Went(plan, old(clock) + 2, clock)
    {
      hide Accepts, Ingress, FallsBack, Detects;
      ok := RequireExternalInterfaces(state.iface4, state.iface6);
      if ok {
        ok := VerifyGate(pre4, state.iface4, state.ranges4);
      }
      if ok {
        ok := VerifyGate(pre6, state.iface6, state.ranges6);
      }
      if ok {
        ok := VerifyGate(dock4, state.iface4, state.ranges4);
      }
      if ok {
        ok := VerifyGate(dock6, state.iface6, state.ranges6);
      }
    }

    ghost predicate SomeManaged()
      reads pre4, pre6, dock4, dock6
    {
      pre4.state.managed.Some? || pre6.state.managed.Some? || dock4.state.managed.Some? || dock6.state.managed.Some?
    }

    /** `managed_state_present`; None when it raises. */
    method ManagedStatePresent() returns (present: Option<bool>)
      requires Valid()
      modifies pre4`clock, pre6`clock, dock4`clock, dock6`clock
      ensures Later(old(Now()), Now())
      ensures present == Some(true) ==> SomeManaged()
      ensures Smoothly(old(Now()), Now()) ==> present == Some(SomeManaged())
    {
      present := pre4.ManagedPresent();
      if present == Some(false) {
        present := dock4.ManagedPresent();
      }
      if present == Some(false) {
        present := pre6.ManagedPresent();
      }
      if present == Some(false) {
        present := dock6.ManagedPresent();
      }
    }

    // ----- refresh

    /** What `refresh` asks of the host before it changes anything. */
    ghost predicate Takeable()
      reads this, pre4, pre6, dock4, dock6
    {
      if file.None? then !SomeManaged()
      else
        && Loaded(file).Some?
        && Ingress(route4, route6) == Some((Loaded(file).value.iface4, Loaded(file).value.iface6))
        && Enforced(Tables(), Loaded(file).value)
    }

    /** How many steps that takes: one for the snapshot, and nine to load and verify a
        prior state. */
    ghost function PrepareSteps(): nat
      reads `file
    {
      if file.None? then 1 else 10
    }

    /** What `create_backup` puts into a snapshot directory. */
    function SnapshotOf(body: Option<Body>): Backup {
      if body.None? then PriorAbsent else if body.value.Whole? then PriorState(body.value.json) else Invalid
    }

    /** `create_backup` */
    method CreateBackup() returns (backup: Option<Backup>)
      modifies `clock
      ensures backup == if At(plan, old(clock)) == Fine then Some(SnapshotOf(file)) else None
      ensures clock == old(clock) + 1
    {
      var saved := Step();
      return if saved == Fine then Some(SnapshotOf(file)) else None;
    }

    /** `refresh` up to and including `create_backup`: the snapshot, and the verified
        prior state, or None where there is nothing to take over; no snapshot when it
        raises, as it does if making the snapshot, its last step, fails. */
    method Prepare() returns (prior: Option<FirewallState>, backup: Option<Backup>)
      requires Valid()
      modifies pre4`clock, pre6`clock, dock4`clock, dock6`clock, `clock
      ensures Valid() && Later(old(Now()), Now())
      ensures clock <= old(clock) + PrepareSteps()
      ensures backup.Some? ==>
                && clock == old(clock) + PrepareSteps() && At(plan, clock - 1) == Fine
                && backup.value == SnapshotOf(file) && (prior.None? <==> file.None?)
      ensures backup.Some? && prior.Some? ==>
                && Loaded(file) == prior && Enforced(Tables(), prior.value)
                && (OnIngress(prior) || FallsBack(route4, route6, plan, old(clock) + 1))
      ensures Smoothly(old(Now()), Now()) ==> (backup.Some? <==> old(Takeable()))
    {
      hide EnforcedAll, Parsed, Ingress, FallsBack;
      prior := None;
      if file.Some? {
        prior := LoadState();
        if prior.None? {
          return prior, None;
        }
        var verified := VerifyState(prior.value);
        if !verified {
          return prior, None;
        }
      } else {
        var present := ManagedStatePresent();
        if present != Some(false) {
          return prior, None;
        }
      }
      backup := CreateBackup();
    }

    /** Apply, verify and persist the candidate. `write` is the step the writing of the
        state file began with, if it came to that. */
    method Install(candidate: FirewallState, ghost w4: Watch, ghost w6: Watch)
      returns (ok: bool, ghost write: Option<nat>)
      requires Valid() && Watching(w4, w6) && Lists(w4, w6, Some(candidate))
      modifies pre4, pre6, dock4, dock6, `clock, `file, `temporary, `fileLog
      ensures Valid()
      ensures write.Some? ==> write.value == old(clock) + 16 && Enforced(Tables(), candidate)
      ensures if write.Some? then clock == write.value + WriteSteps(plan, write.value) else clock <= old(clock) + 16
      ensures ok <==> write.Some? && Went(plan, write.value, write.value + 6)
      ensures if write.Some? && Replaces(plan, write.value)
              then file == Some(Whole(ToJson(candidate))) && fileLog == old(fileLog) + [file]
              else file == old(file) && fileLog == old(fileLog)
      ensures ok ==> Replaces(plan, write.value)
      ensures Smoothly(old(Now()), Now()) ==> (ok <==> Appliable(candidate, old(Tables())))
      ensures AccountedAll(w4, w6, old(Now()), Now())
    {
      hide TableAccounted, EnforcedAll, RepairableAll, Replaces, ToJson, Ingress, FallsBack;
      ghost var a := Now();
      write := None;
      ok := ApplyState(candidate, w4, w6);
      ghost var b := Now();
      AccountedAllLater(w4, w6, a, b);
      if ok {
        EnforcedIsRepairable(Tables(), candidate.iface4, candidate.iface6, candidate.ranges4, candidate.ranges6,
                             candidate.iface4, candidate.iface6);
        ok := VerifyState(candidate);
      }
      if ok {
        write := Some(clock);
        ok := AtomicWriteState(candidate);
        WriteStepsSmooth(plan, write.value);
      }
      AccountedAllIdle(w4, w6, b, Now());
      AccountedAllChains(w4, w6, a, b, Now());
    }

    /** Undo: the prior state, or the emergency deny where there was none. */
    method Compensate(prior: Option<FirewallState>, ghost w4: Watch, ghost w6: Watch) returns (ok: bool)
      requires Valid() && Watching(w4, w6) && Lists(w4, w6, prior)
      modifies pre4, pre6, dock4, dock6, `clock, `file, `temporary, `fileLog
      ensures Valid()
      ensures ok && prior.Some? ==> Enforced(Tables(), prior.value) && file == Some(Whole(ToJson(prior.value)))
      ensures ok && prior.None? ==> Denies(old(clock))
      ensures Smoothly(old(Now()), Now()) ==> (ok <==> Undoable(prior, old(Tables())))
      ensures if fileLog == old(fileLog) then file == old(file)
              else prior.Some? && file == Some(Whole(ToJson(prior.value))) && fileLog == old(fileLog) + [file]
      ensures AccountedAll(w4, w6, old(Now()), Now())
    {
      hide TableAccounted, EnforcedAll, RepairableAll, ToJson, Ingress, FallsBack, DeniesSomewhere;
      ghost var a := Now();
      if prior.Some? {
        ok := AtomicWriteState(prior.value);
        WriteStepsSmooth(plan, a.clock);
        ghost var b := Now();
        AccountedAllIdle(w4, w6, a, b);
        if ok {
          ok := ApplyState(prior.value, w4, w6);
          AccountedAllLater(w4, w6, b, Now());
          AccountedAllChains(w4, w6, a, b, Now());
        }
      } else {
        ok := ApplyFailClosed(w4, w6);
      }
    }

    /** What the rollback needs besides steps that do not fail. */
    ghost predicate Undoable(prior: Option<FirewallState>, tables: Quad<TableState>) {
      if prior.Some? then Appliable(prior.value, tables) else Deniable(tables)
    }

    /** The file is as it was, or the whole candidate, or the whole prior state. */
    ghost predicate FileWhole(candidate: FirewallState, initial: Option<Body>, now: Option<Body>) {
      || now == initial
      || now == Some(Whole(ToJson(candidate)))
      || (Loaded(initial).Some? && now == Some(Whole(ToJson(Loaded(initial).value))))
    }

    /** The moment a rollback began lies between, and what led to it failed. */
    ghost predicate Between(w4: Watch, w6: Watch, a: Moment, m: Moment, b: Moment) {
      AccountedAll(w4, w6, a, m) && AccountedAll(w4, w6, m, b) && Started(m)
    }

    /** The `try` of `refresh` and its rollback. `write` is the step the writing of the
        candidate began with, and `undo` the moment the rollback did, if it came to that. */
    method Replace(candidate: FirewallState, prior: Option<FirewallState>, ghost w4: Watch, ghost w6: Watch)
      returns (r: RefreshResult, ghost write: Option<nat>, ghost undo: Option<Moment>)
      requires Valid() && Watching(w4, w6) && Lists(w4, w6, Some(candidate)) && Lists(w4, w6, prior)
      modifies pre4, pre6, dock4, dock6, `clock, `file, `temporary, `fileLog
      ensures Valid() && !r.Blocked?
      ensures r.Refreshed? ==> Enforced(Tables(), candidate) && file == Some(Whole(ToJson(candidate)))
      ensures r.RolledBack? ==>
                prior.Some? && Enforced(Tables(), prior.value) && file == Some(Whole(ToJson(prior.value)))
      ensures r.Denied? ==>
                && prior.None? && undo.Some? && Denies(undo.value.clock)
                && file == if write.Some? && Replaces(plan, write.value) then Some(Whole(ToJson(candidate)))
                           else old(file)
      ensures write.Some? ==> write.value == old(clock) + 16
      ensures r.Refreshed? <==> write.Some? && Went(plan, write.value, write.value + 6)
      ensures r.Refreshed? <==> undo.None?
      ensures undo.Some? ==>
                && Between(w4, w6, old(Now()), undo.value, Now())
                && (if write.Some? then undo.value.clock == write.value + WriteSteps(plan, write.value)
                    else undo.value.clock <= old(clock) + 16)
                && (Smoothly(old(Now()), undo.value) ==> !Appliable(candidate, old(Tables())))
                && (Smoothly(undo.value, Now()) ==>
                      r == if !Undoable(prior, States(undo.value)) then BothFailed
                           else if prior.Some? then RolledBack else Denied)
      ensures Smoothly(old(Now()), Now()) ==> (r.Refreshed? <==> Appliable(candidate, old(Tables())))
      ensures |old(fileLog)| <= |fileLog| && fileLog[..|old(fileLog)|] == old(fileLog)
      ensures forall i :: |old(fileLog)| <= i < |fileLog| ==>
                fileLog[i] == Some(Whole(ToJson(candidate)))
                    || (prior.Some? && fileLog[i] == Some(Whole(ToJson(prior.value))))
      ensures AccountedAll(w4, w6, old(Now()), Now())
    {
      hide AccountedAll, EnforcedAll, RepairableAll, ToJson, Replaces, WriteSteps, Ingress, Denies;
      ghost var a := Now();
      undo := None;
      var ok: bool;
      ok, write := Install(candidate, w4, w6);
      if ok {
        return Refreshed, write, undo;
      }
      undo := Some(Now());
      AccountedAllLater(w4, w6, a, Now());
      ok := Compensate(prior, w4, w6);
      AccountedAllLater(w4, w6, undo.value, Now());
      AccountedAllChains(w4, w6, a, undo.value, Now());
      if !ok {
        return BothFailed, write, undo;
      }
      return if prior.Some? then RolledBack else Denied, write, undo;
    }

    /** `refresh`. It succeeds exactly if the writing of the candidate begins, at step
        `write`, and all goes well from there. Otherwise it is refused before any change,
        which it is not if it can take over and nothing failed, or it is rolled back from
        the moment `undo` on: a rollback none of whose steps fails ends in the prior state
        exactly if that is for the ingress interfaces, and, where there was no prior state,
        in the emergency deny exactly if the tables can be repaired. A denied first refresh leaves
        the candidate file exactly if the writing begins and its rename takes effect. */
    method Refresh(candidate: FirewallState, ghost w4: Watch, ghost w6: Watch)
      returns (r: RefreshResult, backup: Option<Backup>, ghost write: Option<nat>, ghost undo: Option<Moment>)
      requires Valid() && ValidState(candidate, isGlobal)
      requires Watching(w4, w6) && Lists(w4, w6, Some(candidate)) && Lists(w4, w6, Loaded(file))
      modifies pre4, pre6, dock4, dock6, `clock, `file, `temporary, `fileLog
      ensures Valid()
      ensures r.Refreshed? ==> Enforced(Tables(), candidate) && file == Some(Whole(ToJson(candidate)))
      ensures r.Blocked? ==>
                && write.None? && clock <= old(clock) + old(PrepareSteps())
                && Tables() == old(Tables()) && file == old(file) && fileLog == old(fileLog)
                && pre4.log == old(pre4.log) && pre6.log == old(pre6.log)
                && dock4.log == old(dock4.log) && dock6.log == old(dock6.log)
      ensures r.RolledBack? ==>
                && Loaded(old(file)).Some?
                && old(Enforced(Tables(), Loaded(file).value))
                && Enforced(Tables(), Loaded(old(file)).value)
                && file == Some(Whole(ToJson(Loaded(old(file)).value)))
      ensures r.Denied? ==>
                && old(file).None? && undo.Some? && Denies(undo.value.clock)
                && file == if write.Some? && Replaces(plan, write.value) then Some(Whole(ToJson(candidate))) else None
      ensures r.Blocked? <==> backup.None?
      ensures backup.Some? ==> backup.value == SnapshotOf(old(file))
      ensures At(plan, old(clock) + old(PrepareSteps()) - 1) != Fine ==> r.Blocked?
      ensures write.Some? ==> write.value == old(clock) + old(PrepareSteps()) + 16
      ensures r.Refreshed? <==> write.Some? && Went(plan, write.value, write.value + 6)
      ensures r.Refreshed? || r.Blocked? <==> undo.None?
      ensures Smoothly(old(Now()), Now()) ==>
                && (r.Blocked? <==> !old(Takeable()))
                && (r.Refreshed? <==> old(Takeable()) && Appliable(candidate, old(Tables())))
      ensures undo.Some? ==>
                && Between(w4, w6, old(Now()), undo.value, Now())
                && (write.Some? ==> undo.value.clock == write.value + WriteSteps(plan, write.value))
                && (write.None? ==> undo.value.clock <= old(clock) + old(PrepareSteps()) + 16)
                && (Smoothly(old(Now()), undo.value) ==> !Appliable(candidate, old(Tables())))
      ensures undo.Some? && Smoothly(undo.value, Now()) ==>
                if old(file).Some? then
                  && (r.RolledBack? <==> OnIngress(Loaded(old(file))))
                  && (!FallsBack(route4, route6, plan, old(clock) + 1) ==> r.RolledBack?)
                else && (r.Denied? <==> Deniable(States(undo.value)))
                     && (Deniable(old(Tables())) ==> r.Denied?)
      ensures FileWhole(candidate, old(file), file)
      ensures |old(fileLog)| <= |fileLog| && fileLog[..|old(fileLog)|] == old(fileLog)
      ensures forall i :: |old(fileLog)| <= i < |fileLog| ==> FileWhole(candidate, old(file), fileLog[i])
      ensures FilesWhole(w4, w6, isGlobal, old(fileLog), fileLog)
      ensures AccountedAll(w4, w6, old(Now()), Now())
    {
      hide AccountedAll, EnforcedAll, RepairableAll, Parsed, ToJson, ValidState, Replaces, WriteSteps, Ingress;
      hide FallsBack, Denies, SomeManaged, FilesWhole, FileWhole, Between, Appliable, Undoable, Deniable;
      hide Watching, Loaded, OnIngress, Smoothly;
      write, undo := None, None;
      ghost var a := Now();
      var prior: Option<FirewallState>;
      prior, backup := Prepare();
      ghost var b := Now();
      AccountedAllIdle(w4, w6, a, b);
      if backup.None? {
        WrittenFiles(candidate, None, w4, w6, file, fileLog, fileLog);
        return Blocked, backup, write, undo;
      }
      LoadedIsValid(old(file));
      r, write, undo := Replace(candidate, prior, w4, w6);
      AccountedAllLater(w4, w6, b, Now());
      AccountedAllChains(w4, w6, a, b, Now());
      SmoothlyParts(a, b, Now());
      if undo.Some? {
        Rollback(prior, w4, w6, a, b, undo.value, Now());
        SmoothlyParts(a, b, undo.value);
      }
      WrittenFiles(candidate, prior, w4, w6, old(file), old(fileLog), fileLog);
    }

    /** Files that hold the candidate or the prior state are whole. */
    lemma WrittenFiles(candidate: FirewallState, prior: Option<FirewallState>, w4: Watch, w6: Watch,
                       initial: Option<Body>, before: seq<Option<Body>>, after: seq<Option<Body>>)
      requires ValidState(candidate, isGlobal) && (prior.Some? ==> ValidState(prior.value, isGlobal))
      requires Lists(w4, w6, Some(candidate)) && Lists(w4, w6, prior)
      requires |before| <= |after| && after[..|before|] == before
      requires forall i :: |before| <= i < |after| ==>
                 after[i] == Some(Whole(ToJson(candidate)))
                     || (prior.Some? && after[i] == Some(Whole(ToJson(prior.value))))
      requires prior.Some? ==> Loaded(initial) == prior
      requires before != [] && before[|before| - 1] == initial
      ensures FilesWhole(w4, w6, isGlobal, before, after)
      ensures forall i :: |before| <= i < |after| ==> FileWhole(candidate, initial, after[i])
      ensures FileWhole(candidate, initial, after[|after| - 1])
    {
      hide ValidState, ToJson;
      assert WholeState(Some(Whole(ToJson(candidate))), w4.lists, w6.lists, isGlobal);
      if prior.Some? {
        assert WholeState(Some(Whole(ToJson(prior.value))), w4.lists, w6.lists, isGlobal);
      }
    }

    /** What was enforced or could be denied before a failed installation, still can be. */
    lemma Rollback(prior: Option<FirewallState>, w4: Watch, w6: Watch, a: Moment, b: Moment, m: Moment, c: Moment)
      requires AccountedAll(w4, w6, a, b) && Between(w4, w6, b, m, c) && Started(a) && Started(b)
      ensures Between(w4, w6, a, m, c)
      ensures Later(b, m) && Later(m, c)
      ensures prior.Some? && Enforced(States(b), prior.value) ==> (Undoable(prior, States(m)) <==> OnIngress(prior))
      ensures prior.None? ==> (Undoable(prior, States(m)) <==> Deniable(States(m)))
      ensures Deniable(States(b)) ==> Deniable(States(m))
    {
      hide AccountedAll, EnforcedAll, RepairableAll, Ingress;
      AccountedAllChains(w4, w6, a, b, m);
      AccountedAllLater(w4, w6, b, m);
      AccountedAllLater(w4, w6, m, c);
      if prior.Some? && Enforced(States(b), prior.value) {
        var p := prior.value;
        EnforcedIsRepairable(States(b), p.iface4, p.iface6, p.ranges4, p.ranges6, p.iface4, p.iface6);
        StillRepairable(w4, w6, b, m, prior.value.iface4, prior.value.iface6);
      }
      if Deniable(States(b)) {
        var ingress := Ingress(route4, route6).value;
        StillRepairable(w4, w6, b, m, ingress.0, ingress.1);
      }
    }

    /** No command of a table is going to fail. */
    ghost predicate TablesFine()
      reads pre4`clock, pre6`clock, dock4`clock, dock6`clock
    {
      && (forall i: nat :: i >= pre4.clock ==> At(pre4.plan, i) == Fine)
      && (forall i: nat :: i >= pre6.clock ==> At(pre6.plan, i) == Fine)
      && (forall i: nat :: i >= dock4.clock ==> At(dock4.plan, i) == Fine)
      && (forall i: nat :: i >= dock6.clock ==> At(dock6.plan, i) == Fine)
    }

    /** A first refresh that leaves its file: everything goes well but for an interruption
        right after the rename. All gates deny, and the candidate file is there. */
    method FirstRefreshLeavesFile(candidate: FirewallState, ghost w4: Watch, ghost w6: Watch) returns (r: RefreshResult)
      requires Valid() && ValidState(candidate, isGlobal) && Watching(w4, w6) && Lists(w4, w6, Some(candidate))
      requires file.None? && !SomeManaged() && TablesFine() && Appliable(candidate, Tables())
      requires forall i: nat :: clock <= i ==> At(plan, i) == if i == clock + 20 then Raised(true) else Fine
      modifies pre4, pre6, dock4, dock6, `clock, `file, `temporary, `fileLog
      ensures r.Denied? && DeniesAll() && file == Some(Whole(ToJson(candidate)))
    {
      hide EnforcedAll, RepairableAll, ToJson, AccountedAll, Ingress;
      ghost var write: Option<nat>;
      ghost var undo: Option<Moment>;
      ghost var a := Now();
      assert Replaces(plan, clock + 17) && WriteSteps(plan, clock + 17) == 5;
      assert At(plan, clock + 20) != Fine && !Went(plan, clock + 17, clock + 23);
      var backup: Option<Backup>;
      r, backup, write, undo := Refresh(candidate, w4, w6);
      if undo.Some? {
        AccountedAllLater(w4, w6, a, undo.value);
        AccountedAllLater(w4, w6, undo.value, Now());
        assert !FallsBack(route4, route6, plan, undo.value.clock);
      }
    }

    // ----- the other commands

    method RestoreState(prior: FirewallState, ghost w4: Watch, ghost w6: Watch) returns (ok: bool)
      requires Valid() && Watching(w4, w6) && Lists(w4, w6, Some(prior))
      modifies pre4, pre6, dock4, dock6, `clock, `file, `temporary, `fileLog
      ensures Valid()
      ensures ok ==> Enforced(Tables(), prior) && file == Some(Whole(ToJson(prior))) && clock == old(clock) + 22
      ensures if fileLog == old(fileLog) then file == old(file)
              else file == Some(Whole(ToJson(prior))) && fileLog == old(fileLog) + [file]
      ensures Smoothly(old(Now()), Now()) ==> (ok <==> Appliable(prior, old(Tables())))
      ensures AccountedAll(w4, w6, old(Now()), Now())
    {
      hide TableAccounted, EnforcedAll, RepairableAll, ToJson, Ingress, FallsBack, Replaces;
      ghost var a := Now();
      ok := AtomicWriteState(prior);
      WriteStepsSmooth(plan, a.clock);
      ghost var b := Now();
      AccountedAllIdle(w4, w6, a, b);
      if ok {
        ok := ApplyState(prior, w4, w6);
        ghost var c := Now();
        AccountedAllLater(w4, w6, b, c);
        AccountedAllChains(w4, w6, a, b, c);
        if ok {
          ok := VerifyState(prior);
          AccountedAllIdle(w4, w6, c, Now());
          AccountedAllChains(w4, w6, a, c, Now());
        }
      }
    }

    /** `restore_backup` */
    method RestoreBackup(backup: Backup, ghost w4: Watch, ghost w6: Watch) returns (r: RollbackResult)
      requires Valid() && Watching(w4, w6)
      requires backup.PriorState? ==> Lists(w4, w6, Parsed(backup.json, isGlobal))
      modifies pre4, pre6, dock4, dock6, `clock, `file, `temporary, `fileLog
      ensures Valid()
      ensures r.Restored? ==>
                && backup.PriorState? && Parsed(backup.json, isGlobal).Some?
                && Enforced(Tables(), Parsed(backup.json, isGlobal).value)
                && file == Some(Whole(ToJson(Parsed(backup.json, isGlobal).value)))
      ensures r.Restored? ==> clock == old(clock) + 23
      ensures r.DenyKept? ==> backup.PriorAbsent? && file.None? && Denies(old(clock) + 1)
      ensures backup.PriorAbsent? ==>
                && clock <= old(clock) + 8
                && (fileLog != old(fileLog) <==> clock == old(clock) + 8 && At(plan, clock - 1) in {Fine, Raised(true)})
                && (r.DenyKept? <==> clock == old(clock) + 8 && At(plan, clock - 1) == Fine)
      ensures backup.Invalid? || (backup.PriorState? && Parsed(backup.json, isGlobal).None?) ==> Marks() == old(Marks())
      ensures Smoothly(old(Now()), Now()) ==>
                match backup
                case Invalid => r.RollbackFailed?
                case PriorAbsent => (r.DenyKept? <==> Deniable(old(Tables())))
                case PriorState(json) =>
                  var prior := Parsed(json, isGlobal);
                  (r.Restored? <==> prior.Some? && Appliable(prior.value, old(Tables())))
      ensures if fileLog == old(fileLog) then file == old(file)
              else
                && fileLog == old(fileLog) + [file]
                && if backup.PriorAbsent? then file.None? && Denies(old(clock) + 1)
                   else && backup.PriorState? && Parsed(backup.json, isGlobal).Some?
                        && file == Some(Whole(ToJson(Parsed(backup.json, isGlobal).value)))
      ensures FilesWhole(w4, w6, isGlobal, old(fileLog), fileLog)
      ensures AccountedAll(w4, w6, old(Now()), Now())
    {
      hide TableAccounted, EnforcedAll, RepairableAll, Parsed, ToJson, ValidState, Ingress, FallsBack, Denies;
      ghost var a := Now();
      var checked := Step();
      ghost var b := Now();
      AccountedAllIdle(w4, w6, a, b);
      if checked != Fine || backup.Invalid? {
        return RollbackFailed;
      }
      if backup.PriorState? {
        var prior := ParseState(backup.json, isGlobal);
        if prior.None? {
          return RollbackFailed;
        }
        ParseAcceptsOnlyWrittenStates(backup.json, isGlobal);
        var ok := RestoreState(prior.value, w4, w6);
        AccountedAllLater(w4, w6, b, Now());
        AccountedAllChains(w4, w6, a, b, Now());
        assert fileLog != old(fileLog) ==> WholeState(fileLog[|fileLog| - 1], w4.lists, w6.lists, isGlobal);
        return if ok then Restored else RollbackFailed;
      }
      var denied := ApplyFailClosed(w4, w6);
      ghost var c := Now();
      AccountedAllLater(w4, w6, b, c);
      AccountedAllChains(w4, w6, a, b, c);
      if !denied {
        return RollbackFailed;
      }
      var unlinked := Step();
      AccountedAllIdle(w4, w6, c, Now());
      AccountedAllChains(w4, w6, a, c, Now());
      if unlinked == Fine || unlinked == Raised(true) {
        file := None;
        fileLog := fileLog + [file];
      }
      return if unlinked == Fine then DenyKept else RollbackFailed;
    }

    /** A refresh, then a rollback to the snapshot it made. From the moment `middle` of the
        rollback on, if nothing fails, it ends with the state that was there before, in file
        and gates, exactly if that is for the ingress interfaces, and where there was none,
        with every gate denying and no file, exactly if there are ingress interfaces. */
    method RefreshAndRollBack(candidate: FirewallState, ghost w4: Watch, ghost w6: Watch)
      returns (r: RefreshResult, back: Option<RollbackResult>, ghost middle: Moment)
      requires Valid() && ValidState(candidate, isGlobal)
      requires Watching(w4, w6) && Lists(w4, w6, Some(candidate)) && Lists(w4, w6, Loaded(file))
      modifies pre4, pre6, dock4, dock6, `clock, `file, `temporary, `fileLog
      ensures Valid()
      ensures back.Some? <==> r.Refreshed?
      ensures back == Some(Restored) ==>
                && Loaded(old(file)).Some? && Enforced(Tables(), Loaded(old(file)).value)
                && Loaded(file) == Loaded(old(file))
      ensures back == Some(DenyKept) ==> old(file).None? && file.None? && DeniesSomewhere()
      ensures back.Some? && Smoothly(middle, Now()) ==>
                if old(file).Some? then (back == Some(Restored) <==> OnIngress(Loaded(old(file))))
                else back == Some(DenyKept) <==> Ingress(route4, route6).Some?
    {
      hide AccountedAll, EnforcedAll, RepairableAll, Parsed, ToJson, ValidState, Ingress, FallsBack, DeniesSomewhere;
      hide Between, FileWhole, Undoable, FilesWhole, DeniesAll, Watching;
      ghost var write: Option<nat>;
      ghost var undo: Option<Moment>;
      var backup: Option<Backup>;
      LoadedIsValid(file);
      r, backup, write, undo := Refresh(candidate, w4, w6);
      middle, back := Now(), None;
      if r.Refreshed? {
        RepairableAnywhere(candidate);
        if Loaded(old(file)).Some? {
          WrittenLoads(Loaded(old(file)).value);
        }
        var result := RestoreBackup(backup.value, w4, w6);
        back := Some(result);
      }
    }

    lemma RepairableAnywhere(state: FirewallState)
      ensures Enforced(Tables(), state) ==> forall i4, i6 :: RepairableAll(Tables(), i4, i6)
    {
      hide RepairableAll, EnforcedAll;
      if Enforced(Tables(), state) {
        forall i4, i6 ensures RepairableAll(Tables(), i4, i6) {
          EnforcedIsRepairable(Tables(), state.iface4, state.iface6, state.ranges4, state.ranges6, i4, i6);
        }
      }
    }

    /** `main` for apply-state. If the state is not applied, for a failure or because it
        does not load or fit, the emergency deny begins at the moment `undo`, and if none
        of its steps fails it is active exactly if the tables could be repaired. */
    method RunApplyState(ghost w4: Watch, ghost w6: Watch) returns (r: ApplyResult, ghost undo: Option<Moment>)
      requires Valid() && Watching(w4, w6) && Lists(w4, w6, Loaded(file))
      modifies pre4, pre6, dock4, dock6, `clock
      ensures Valid()
      ensures r.Applied? ==> Loaded(file).Some? && Enforced(Tables(), Loaded(file).value)
      ensures r.DenyActive? ==> undo.Some? && Denies(undo.value.clock)
      ensures r.Applied? <==> undo.None?
      ensures Smoothly(old(Now()), Now()) ==>
                (r.Applied? <==> Loaded(file).Some? && Appliable(Loaded(file).value, old(Tables())))
      ensures undo.Some? ==>
                && Between(w4, w6, old(Now()), undo.value, Now())
                && (Smoothly(old(Now()), undo.value) ==>
                      !(Loaded(file).Some? && Appliable(Loaded(file).value, old(Tables()))))
                && (Smoothly(undo.value, Now()) ==>
                      && (r.DenyActive? <==> Deniable(States(undo.value)))
                      && (Deniable(old(Tables())) ==> r.DenyActive?))
      ensures AccountedAll(w4, w6, old(Now()), Now())
    {
      hide AccountedAll, EnforcedAll, RepairableAll, Parsed, Ingress, FallsBack, Denies, Appliable, Deniable;
      hide Watching;
      ghost var a := Now();
      undo := None;
      var state := LoadState();
      ghost var b := Now();
      AccountedAllIdle(w4, w6, a, b);
      if state.Some? {
        var ok := ApplyState(state.value, w4, w6);
        AccountedAllLater(w4, w6, b, Now());
        AccountedAllChains(w4, w6, a, b, Now());
        if ok {
          return Applied, undo;
        }
      }
      undo := Some(Now());
      AccountedAllLater(w4, w6, a, Now());
      var denied := ApplyFailClosed(w4, w6);
      AccountedAllLater(w4, w6, undo.value, Now());
      AccountedAllChains(w4, w6, a, undo.value, Now());
      DeniableStill(w4, w6, a, undo.value);
      return if denied then DenyActive else NothingSure, undo;
    }

    lemma DeniableStill(w4: Watch, w6: Watch, a: Moment, m: Moment)
      requires AccountedAll(w4, w6, a, m) && Started(a) && Started(m)
      ensures Deniable(States(a)) ==> Deniable(States(m))
      ensures PregateDeniable(States(a)) ==> PregateDeniable(States(m))
    {
      hide TableAccounted, Repairable, Ingress;
      var ingress := Ingress(route4, route6);
      if Deniable(States(a)) {
        StillRepairable(w4, w6, a, m, ingress.value.0, ingress.value.1);
      }
      if PregateDeniable(States(a)) {
        PregatesStillRepairable(w4, w6, a, m, ingress.value.0, ingress.value.1);
      }
    }

    lemma PregatesStillRepairable(w4: Watch, w6: Watch, a: Moment, b: Moment, i4: string, i6: string)
      requires AccountedAll(w4, w6, a, b) && Started(a) && Started(b) && PregatesRepairable(States(a), i4, i6)
      ensures PregatesRepairable(States(b), i4, i6)
    {
      hide Accounted, Repairable;
      StaysRepairable(PreDnat, pre4.plan, w4, a.tables.pre4, b.tables.pre4, i4);
      StaysRepairable(PreDnat, pre6.plan, w6, a.tables.pre6, b.tables.pre6, i6);
    }

    /** `main` for apply-pregate-state, likewise. */
    method RunApplyPregateState(ghost w4: Watch, ghost w6: Watch) returns (r: ApplyResult, ghost undo: Option<Moment>)
      requires Valid() && Watching(w4, w6) && Lists(w4, w6, Loaded(file))
      modifies pre4, pre6, `clock
      ensures Valid()
      ensures r.Applied? ==>
                && Loaded(file).Some?
                && PregatesEnforce(Loaded(file).value.iface4, Loaded(file).value.iface6,
                                   Loaded(file).value.ranges4, Loaded(file).value.ranges6)
      ensures r.DenyActive? ==> undo.Some? && PregatesDeny(undo.value.clock)
      ensures r.Applied? <==> undo.None?
      ensures Smoothly(old(Now()), Now()) ==>
                (r.Applied? <==> Loaded(file).Some? && PregateAppliable(Loaded(file).value, old(Tables())))
      ensures undo.Some? ==>
                && Between(w4, w6, old(Now()), undo.value, Now())
                && (Smoothly(old(Now()), undo.value) ==>
                      !(Loaded(file).Some? && PregateAppliable(Loaded(file).value, old(Tables()))))
                && (Smoothly(undo.value, Now()) ==>
                      && (r.DenyActive? <==> PregateDeniable(States(undo.value)))
                      && (PregateDeniable(old(Tables())) ==> r.DenyActive?))
      ensures AccountedAll(w4, w6, old(Now()), Now())
    {
      hide AccountedAll, Accepts, Repairable, Parsed, Ingress, FallsBack, PregatesDeny, PregatesRepairable;
      ghost var a := Now();
      undo := None;
      var state := LoadState();
      ghost var b := Now();
      AccountedAllIdle(w4, w6, a, b);
      if state.Some? {
        var ok := ApplyPregateState(state.value, w4, w6);
        AccountedAllLater(w4, w6, b, Now());
        AccountedAllChains(w4, w6, a, b, Now());
        if ok {
          return Applied, undo;
        }
      }
      undo := Some(Now());
      AccountedAllLater(w4, w6, a, Now());
      var denied := ApplyPregateFailClosed(w4, w6);
      AccountedAllLater(w4, w6, undo.value, Now());
      AccountedAllChains(w4, w6, a, undo.value, Now());
      DeniableStill(w4, w6, a, undo.value);
      return if denied then DenyActive else NothingSure, undo;
    }

    /** `build_candidate`, for payloads already fetched. */
    method BuildCandidate(c: Command) returns (candidate: Option<FirewallState>)
      requires c.RefreshCommand? && HashesOk(c) && ValidInterface(c.iface4) && ValidInterface(c.iface6)
      modifies `clock
      ensures clock >= old(clock)
      ensures candidate.Some? ==>
                && ValidState(candidate.value, isGlobal)
                && candidate.value.iface4 == c.iface4 && candidate.value.iface6 == c.iface6
                && candidate.value.hashes == c.hashes
                && Some(candidate.value.ranges4) == Validated(c.lines4, V4, isGlobal)
                && Some(candidate.value.ranges6) == Validated(c.lines6, V6, isGlobal)
                && (Ingress(route4, route6) == Some((c.iface4, c.iface6))
                    || FallsBack(route4, route6, plan, old(clock)))
      ensures Went(plan, old(clock), clock) ==>
                (candidate.Some? <==> && Ingress(route4, route6) == Some((c.iface4, c.iface6))
                                      && Validated(c.lines4, V4, isGlobal).Some?
                                      && Validated(c.lines6, V6, isGlobal).Some?)
      ensures candidate.Some? ==> clock == old(clock) + 5 && Went(plan, old(clock) + 2, clock)
    {
      hide Acceptable, Ingress, FallsBack, ValidList, Sorted, Nets, Detects, Detect;
      var ok := RequireExternalInterfaces(c.iface4, c.iface6);
      if !ok {
        return None;
      }
      var fetched := Step();
      if fetched != Fine {
        return None;
      }
      var r4 := ValidateRanges(c.lines4, V4, isGlobal);
      if r4.None? {
        return None;
      }
      var r6 := ValidateRanges(c.lines6, V6, isGlobal);
      if r6.None? {
        return None;
      }
      ValidatedIsCanonical(c.lines4, V4, isGlobal);
      ValidatedIsCanonical(c.lines6, V6, isGlobal);
      return Some(FirewallState(c.iface4, c.iface6, r4.value, r6.value, c.hashes));
    }

    ghost predicate ParentsThere()
      reads pre4, pre6, dock4, dock6
    {
      && pre4.state.parent.Some? && pre6.state.parent.Some?
      && dock4.state.parent.Some? && dock6.state.parent.Some?
    }

    method RequireParents() returns (ok: bool)
      requires Valid()
      modifies pre4`clock, pre6`clock, dock4`clock, dock6`clock
      ensures Later(old(Now()), Now())
      ensures ok ==> ParentsThere()
      ensures Smoothly(old(Now()), Now()) ==> (ok <==> ParentsThere())
    {
      ok := pre4.RequireParent();
      if ok {
        ok := pre6.RequireParent();
      }
      if ok {
        ok := dock4.RequireParent();
      }
      if ok {
        ok := dock6.RequireParent();
      }
    }

    // ----- whole runs

    ghost predicate Covers(w4: Watch, w6: Watch, c: Command) {
      CommandLists(c, V4, isGlobal) <= w4.lists && CommandLists(c, V6, isGlobal) <= w6.lists
    }

    /** A file holding a written state loads as that state. */
    lemma WrittenLoads(state: FirewallState)
      requires ValidState(state, isGlobal)
      ensures Loaded(Some(Whole(ToJson(state)))) == Some(state)
    {
      StateRoundTrip(state, isGlobal);
    }

    lemma LoadedIsValid(body: Option<Body>)
      ensures Loaded(body).Some? ==> ValidState(Loaded(body).value, isGlobal)
    {
      if Loaded(body).Some? {
        ParseAcceptsOnlyWrittenStates(body.value.json, isGlobal);
      }
    }

    /** Whatever a command leaves in the file, what it loads as is still covered. */
    lemma StillListed(w4: Watch, w6: Watch, before: seq<Option<Body>>, after: seq<Option<Body>>)
      requires before != [] && FilesWhole(w4, w6, isGlobal, before, after)
      requires Lists(w4, w6, Loaded(before[|before| - 1]))
      ensures Lists(w4, w6, Loaded(after[|after| - 1]))
    {
      hide Parsed, ValidState, ToJson;
      var last := after[|after| - 1];
      if |after| == |before| {
        assert last == before[|before| - 1];
      } else if last.Some? {
        var state :| && ValidState(state, isGlobal) && state.ranges4 in w4.lists && state.ranges6 in w6.lists
                     && last == Some(Whole(ToJson(state)));
        WrittenLoads(state);
      }
    }

    lemma NoFileChange(w4: Watch, w6: Watch)
      ensures FilesWhole(w4, w6, isGlobal, fileLog, fileLog)
    {
    }

    /** What a command needs besides steps that do not fail. */
    ghost predicate Feasible(c: Command)
      reads this, pre4, pre6, dock4, dock6
    {
      match c
      case RefreshCommand(i4, i6, lines4, lines6, _, confirmed) =>
        && confirmed && Takeable() && Ingress(route4, route6) == Some((i4, i6)) && RepairableAll(Tables(), i4, i6)
        && Validated(lines4, V4, isGlobal).Some? && Validated(lines6, V6, isGlobal).Some?
      case ApplyStateCommand => Loaded(file).Some? && Appliable(Loaded(file).value, Tables())
      case ApplyPregateCommand => Loaded(file).Some? && PregateAppliable(Loaded(file).value, Tables())
      case RollbackCommand(backup, confirmed) =>
        && confirmed
        && match backup
           case Invalid => false
           case PriorAbsent => Deniable(Tables())
           case PriorState(json) =>
             Parsed(json, isGlobal).Some? && Appliable(Parsed(json, isGlobal).value, Tables())
    }

    /** What a command has achieved that reports success: the state file's state is in
        force, and for a refresh it is made of the lines given, for a rollback it is the
        snapshot's; or there is no file and web traffic is denied. */
    ghost predicate InForce(c: Command)
      reads this, pre4, pre6, dock4, dock6
    {
      var state := Loaded(file);
      match c
      case RefreshCommand(i4, i6, lines4, lines6, _, _) =>
        && state.Some? && Enforced(Tables(), state.value)
        && state.value.iface4 == i4 && state.value.iface6 == i6
        && Some(state.value.ranges4) == Validated(lines4, V4, isGlobal)
        && Some(state.value.ranges6) == Validated(lines6, V6, isGlobal)
      case ApplyStateCommand => state.Some? && Enforced(Tables(), state.value)
      case ApplyPregateCommand =>
        && state.Some?
        && PregatesEnforce(state.value.iface4, state.value.iface6, state.value.ranges4, state.value.ranges6)
      case RollbackCommand(backup, _) =>
        if backup.PriorState?
        then state.Some? && state == Parsed(backup.json, isGlobal) && Enforced(Tables(), state.value)
        else file.None? && DeniesSomewhere()
    }

    /** Everything a command can change, except how many steps have gone. */
    ghost function Marks(): (Quad<(seq<TableState>, seq<Call>)>, Option<Body>, Option<Body>, seq<Option<Body>>)
      reads this, pre4, pre6, dock4, dock6
    {
      (Quad((pre4.log, pre4.calls), (pre6.log, pre6.calls), (dock4.log, dock4.calls), (dock6.log, dock6.calls)),
       file, temporary, fileLog)
    }

    /** A command that must change nothing, whatever fails: it is not confirmed, or its
        interfaces, its lines or its snapshot are not valid, or a parent chain is missing. */
    ghost predicate Rejected(c: Command)
      reads pre4, pre6, dock4, dock6
    {
      match c
      case RefreshCommand(i4, i6, lines4, lines6, _, confirmed) =>
        || !confirmed || !ValidInterface(i4) || !ValidInterface(i6) || !ParentsThere()
        || Validated(lines4, V4, isGlobal).None? || Validated(lines6, V6, isGlobal).None?
      case RollbackCommand(backup, confirmed) =>
        || !confirmed || backup.Invalid? || (backup.PriorState? && Parsed(backup.json, isGlobal).None?)
      case _ => false
    }

    /** `main` for refresh, up to the confirmation: the candidate, and its parent chains. */
    method PrepareRefresh(c: Command) returns (candidate: Option<FirewallState>)
      requires Valid() && c.RefreshCommand? && HashesOk(c)
      modifies pre4`clock, pre6`clock, dock4`clock, dock6`clock, `clock
      ensures Later(old(Now()), Now())
      ensures candidate.Some? ==>
                && c.confirmed && ParentsThere() && ValidState(candidate.value, isGlobal)
                && ValidInterface(c.iface4) && ValidInterface(c.iface6)
                && candidate.value.iface4 == c.iface4 && candidate.value.iface6 == c.iface6
                && Some(candidate.value.ranges4) == Validated(c.lines4, V4, isGlobal)
                && Some(candidate.value.ranges6) == Validated(c.lines6, V6, isGlobal)
      ensures Smoothly(old(Now()), Now()) ==>
                (candidate.Some? <==> && c.confirmed && Ingress(route4, route6) == Some((c.iface4, c.iface6))
                                      && Validated(c.lines4, V4, isGlobal).Some?
                                      && Validated(c.lines6, V6, isGlobal).Some? && ParentsThere())
    {
      hide Acceptable, ValidState, Ingress, FallsBack, Detect, ParentsThere;
      IngressIsValid();
      if !ValidInterface(c.iface4) || !ValidInterface(c.iface6) {
        return None;
      }
      candidate := BuildCandidate(c);
      if candidate.None? {
        return None;
      }
      var ready := RequireParents();
      if !ready || !c.confirmed {
        return None;
      }
    }

    /** `main` for refresh */
    method RunRefresh(c: Command, ghost w4: Watch, ghost w6: Watch) returns (ok: bool)
      requires Valid() && c.RefreshCommand? && HashesOk(c)
      requires Watching(w4, w6) && Lists(w4, w6, Loaded(file)) && Covers(w4, w6, c)
      modifies pre4, pre6, dock4, dock6, `clock, `file, `temporary, `fileLog
      ensures Valid()
      ensures ok ==> InForce(c)
      ensures old(Rejected(c)) ==> !ok && Marks() == old(Marks())
      ensures Smoothly(old(Now()), Now()) ==> (ok <==> old(Feasible(c)))
      ensures AccountedAll(w4, w6, old(Now()), Now())
      ensures FilesWhole(w4, w6, isGlobal, old(fileLog), fileLog)
    {
      hide AccountedAll, FilesWhole, Acceptable, Parsed, ToJson, ValidState, EnforcedAll, RepairableAll, FallsBack;
      hide Denies, Detect, WriteSteps, Replaces, FileWhole, Between, Deniable, OnIngress, Watching, Detects, Ingress;
      ghost var a := Now();
      NoFileChange(w4, w6);
      RepairableHaveParents(Tables(), c.iface4, c.iface6);
      var candidate := PrepareRefresh(c);
      ghost var b := Now();
      AccountedAllIdle(w4, w6, a, b);
      if candidate.None? {
        return false;
      }
      var r: RefreshResult;
      ghost var write: Option<nat>;
      ghost var undo: Option<Moment>;
      var backup: Option<Backup>;
      r, backup, write, undo := Refresh(candidate.value, w4, w6);
      AccountedAllLater(w4, w6, b, Now());
      AccountedAllChains(w4, w6, a, b, Now());
      WrittenLoads(candidate.value);
      ok := r.Refreshed?;
    }

    lemma IngressIsValid()
      ensures var ingress := Ingress(route4, route6);
              ingress.Some? ==> ValidInterface(ingress.value.0) && ValidInterface(ingress.value.1)
    {
    }

    lemma RepairableHaveParents(s: Quad<TableState>, i4: string, i6: string)
      ensures RepairableAll(s, i4, i6) ==>
                s.pre4.parent.Some? && s.pre6.parent.Some? && s.dock4.parent.Some? && s.dock6.parent.Some?
    {
    }

    /** `main`; `ok` is exit code 0. A rejected command fails and changes nothing. */
    method Execute(c: Command, ghost w4: Watch, ghost w6: Watch) returns (ok: bool)
      requires Valid() && HashesOk(c)
      requires Watching(w4, w6) && Lists(w4, w6, Loaded(file)) && Covers(w4, w6, c)
      modifies pre4, pre6, dock4, dock6, `clock, `file, `temporary, `fileLog
      ensures Valid()
      ensures ok ==> InForce(c)
      ensures old(Rejected(c)) ==> !ok && Marks() == old(Marks())
      ensures Smoothly(old(Now()), Now()) ==> (ok <==> old(Feasible(c)))
      ensures AccountedAll(w4, w6, old(Now()), Now())
      ensures FilesWhole(w4, w6, isGlobal, old(fileLog), fileLog)
    {
      hide AccountedAll, FilesWhole, Acceptable, Parsed, ToJson, EnforcedAll, RepairableAll, FallsBack, Ingress;
      hide DeniesSomewhere, DeniesAll, ValidState, Between, Takeable, PregatesRepairable;
      NoFileChange(w4, w6);
      match c
      case RefreshCommand(_, _, _, _, _, _) =>
        ok := RunRefresh(c, w4, w6);
      case ApplyStateCommand =>
        var r: ApplyResult;
        ghost var undo: Option<Moment>;
        r, undo := RunApplyState(w4, w6);
        ok := r.Applied?;
      case ApplyPregateCommand =>
        var r: ApplyResult;
        ghost var undo: Option<Moment>;
        r, undo := RunApplyPregateState(w4, w6);
        ok := r.Applied?;
      case RollbackCommand(backup, confirmed) =>
        if !confirmed {
          AccountedAllIdle(w4, w6, Now(), Now());
          return false;
        }
        if backup.PriorState? && Parsed(backup.json, isGlobal).Some? {
          ParseAcceptsOnlyWrittenStates(backup.json, isGlobal);
          WrittenLoads(Parsed(backup.json, isGlobal).value);
        }
        var r := RestoreBackup(backup, w4, w6);
        ok := r.Restored? || r.DenyKept?;
    }

    /** What a run is watched for: any interface, and the lists of the run; gates may be
        hooked on what the probes found. */
    ghost function RunWatch(family: Family, iface: string, initial: Option<FirewallState>,
                            commands: seq<Command>): Watch
    {
      Watch(iface, RunLists(initial, commands, family, isGlobal),
            (hooked: string, probe: nat) => Detects(family, hooked, probe))
    }

    lemma RunWatchesWell(i4: string, i6: string, initial: Option<FirewallState>, commands: seq<Command>)
      requires initial.Some? ==> ValidState(initial.value, isGlobal)
      ensures Watching(RunWatch(V4, i4, initial, commands), RunWatch(V6, i6, initial, commands))
    {
      RunListsAreStrict(initial, commands, V4, isGlobal);
      RunListsAreStrict(initial, commands, V6, isGlobal);
    }

    /** Over any sequence of commands with any failures, and for gates watched on any
        interfaces: a gate that was closed to all but the lists of the run, from the start
        or from some step on, is opened at a later step exactly if a call breached it; no
        rule of another program is ever removed; and the state file is only ever made
        absent or one whole state. If the last command reports success, it has done its
        work. */
    method Run(commands: seq<Command>, ghost i4: string, ghost i6: string) returns (codes: seq<bool>)
      requires Valid() && forall c :: c in commands ==> HashesOk(c)
      modifies pre4, pre6, dock4, dock6, `clock, `file, `temporary, `fileLog
      ensures Valid() && |codes| == |commands|
      ensures commands != [] && codes[|commands| - 1] ==> InForce(commands[|commands| - 1])
      ensures var w4 := RunWatch(V4, i4, old(Loaded(file)), commands);
              var w6 := RunWatch(V6, i6, old(Loaded(file)), commands);
              && AccountedAll(w4, w6, old(Now()), Now())
              && FilesWhole(w4, w6, isGlobal, old(fileLog), fileLog)
    {
      hide AccountedAll, FilesWhole, Acceptable, Parsed, ToJson, ValidState, StrictLists, InForce, Feasible;
      ghost var a, files, initial := Now(), fileLog, Loaded(file);
      ghost var w4, w6 := RunWatch(V4, i4, initial, commands), RunWatch(V6, i6, initial, commands);
      LoadedIsValid(file);
      RunWatchesWell(i4, i6, initial, commands);
      AccountedAllIdle(w4, w6, a, a);
      NoFileChange(w4, w6);
      codes := [];
      for k := 0 to |commands|
        invariant Valid() && Lists(w4, w6, Loaded(file)) && |codes| == k
        invariant k > 0 && codes[k - 1] ==> InForce(commands[k - 1])
        invariant AccountedAll(w4, w6, a, Now())
        invariant FilesWhole(w4, w6, isGlobal, files, fileLog)
      {
        ghost var b, between := Now(), fileLog;
        assert commands[k] in commands;
        assert Covers(w4, w6, commands[k]);
        var ok := Execute(commands[k], w4, w6);
        codes := codes + [ok];
        AccountedAllChains(w4, w6, a, b, Now());
        FilesWholeChains(w4, w6, isGlobal, files, between, fileLog);
        StillListed(w4, w6, between, fileLog);
      }
    }

    // ----- what the account of a run means

    /** The failures of the run that can open a table's gate: those that flush its chain,
        and, for IPv6, probes that fall back to another interface. */
    predicate Harmless(gate: Gate, family: Family, table: Plan, a: History, b: History, from: nat, to: nat) {
      && (forall i :: a.clock <= i < b.clock ==> !WindowFailures(gate, table, i))
      && (family.V6? ==> forall i :: from <= i < to ==> !FallsBack(route4, route6, plan, i))
    }

    ghost function IngressOf(family: Family): Option<string> {
      var ingress := Ingress(route4, route6);
      if ingress.None? then None else Some(if family.V4? then ingress.value.0 else ingress.value.1)
    }

    /** Probes that do not fall back find the ingress interface; for IPv4 they always do. */
    lemma DetectsIngress(family: Family, iface: string, b: nat)
      requires Detects(family, iface, b) && Ingress(route4, route6).Some?
      ensures family.V4? || !FallsBack(route4, route6, plan, b) ==> IngressOf(family) == Some(iface)
      ensures IngressOf(family) != Some(iface) ==>
                family.V6? && FallsBack(route4, route6, plan, b) && route4 == Single(iface)
    {
    }

    /** No window: without those failures, a gate watched on its ingress interface that is
        closed at some step of the run is closed at every later one. */
    lemma KeptWithout(initial: Option<FirewallState>, commands: seq<Command>, a: History, b: History,
                      gate: Gate, family: Family, table: Plan, from: nat, to: nat, iface: string)
      requires IngressOf(family) == Some(iface)
      requires TableAccounted(gate, table, RunWatch(family, iface, initial, commands), a, b, from, to)
      requires Harmless(gate, family, table, a, b, from, to)
      ensures Kept(gate, iface, RunLists(initial, commands, family, isGlobal), a.log, b.log)
    {
      hide Kept, Breach, Extends, Ingress, Detects, FallsBack, WindowFailures, RunLists;
      var w := RunWatch(family, iface, initial, commands);
      forall k | |a.calls| <= k < |b.calls| && b.calls[k].Hooking? ensures b.calls[k].iface == iface {
        assert CallFits(w, a, b, b.calls[k]);
        DetectsIngress(family, b.calls[k].iface, b.calls[k].probe);
      }
      KeptWithoutFailures(gate, table, w, a, b);
    }

    /** In packets: without those failures, from the first step on at which a gate is closed
        it drops, at every later step, every web packet arriving on its ingress interface
        from a source in no list of the run. */
    lemma NothingGetsIn(initial: Option<FirewallState>, commands: seq<Command>, a: History, b: History,
                        gate: Gate, family: Family, table: Plan, from: nat, to: nat,
                        i: nat, j: nat, pkt: Packet, foreign: Foreign)
      requires initial.Some? ==> ValidState(initial.value, isGlobal)
      requires IngressOf(family) == Some(pkt.iface)
      requires TableAccounted(gate, table, RunWatch(family, pkt.iface, initial, commands), a, b, from, to)
      requires Harmless(gate, family, table, a, b, from, to)
      requires |a.log| - 1 <= i <= j < |b.log|
      requires Guarded(gate, b.log[i], pkt.iface, RunLists(initial, commands, family, isGlobal))
      requires forall ranges :: ranges in RunLists(initial, commands, family, isGlobal) ==> !InRanges(ranges, pkt.src)
      requires WebTraffic(gate, pkt)
      ensures var s := b.log[j];
              && s.parent.Some? && s.managed.Some?
              && EvalParent(s.parent.value, s.managed.value, pkt, foreign) == Drop
    {
      hide RunLists, ValidState, Guarded, TableAccounted, Harmless;
      RunListsAreStrict(initial, commands, family, isGlobal);
      KeptWithout(initial, commands, a, b, gate, family, table, from, to, pkt.iface);
      var lists := RunLists(initial, commands, family, isGlobal);
      NoOpenWindow(gate, pkt.iface, lists, a.log, b.log, i, j, pkt, foreign);
    }

    /** And conversely: a gate watched on its ingress interface is opened by a replacement
        of its hooked chain that meets the failures of `OpensWindow` while the chain is
        closed, and by a hook for another interface that goes in while it is closed; the
        latter happens only for IPv6, after probes that fell back. */
    lemma FailuresOpen(initial: Option<FirewallState>, commands: seq<Command>, a: History, b: History,
                       gate: Gate, family: Family, table: Plan, from: nat, to: nat, iface: string, k: nat)
      requires IngressOf(family) == Some(iface)
      requires var w := RunWatch(family, iface, initial, commands);
               && TableAccounted(gate, table, w, a, b, from, to)
               && |a.calls| <= k < |b.calls|
               && Closed(gate, w, b.calls[k].at)
      requires match b.calls[k]
               case Replacing(at, step) => OpensWindow(gate, at, table, step)
               case Hooking(hooked, _, at, step) => hooked != iface && HookTakes(at, table, step)
      ensures !Kept(gate, iface, RunLists(initial, commands, family, isGlobal), a.log, b.log)
      ensures b.calls[k].Hooking? ==>
                && family.V6? && route4 == Single(b.calls[k].iface)
                && from <= b.calls[k].probe < to && FallsBack(route4, route6, plan, b.calls[k].probe)
    {
      hide Kept, Extends, Ingress, Detects, FallsBack, OpensWindow, RunLists, Guarded;
      var w, call := RunWatch(family, iface, initial, commands), b.calls[k];
      assert CallFits(w, a, b, call);
      ClosedIsHooked(gate, w, call.at);
      assert Breach(gate, table, w, call);
      if call.Hooking? {
        DetectsIngress(family, call.iface, call.probe);
      }
    }
  }
}
