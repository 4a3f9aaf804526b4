/** UFW on a host, its configuration directory, and the two commands that change
    them: apply_hardening and BackupManager.restore
    (scripts/configure_cloudflare_ufw.py). */
module UfwHosts {
  import opened Wrappers
  import opened Cidrs
  import opened Faults
  import opened Deletion
  import opened UfwRules
  import opened UfwPackets
  import opened UfwLists
  import opened UfwPhases
  import opened UfwReview

  /** A copy of /etc/ufw, seen as the rule list it holds, or an unfinished copy. */
  datatype Tree = Tree(rules: seq<Rule>) | Torn

  /** How `apply_hardening` ends: with a plan; with nothing to do; hardened; with an
      error before any change; with an error and the snapshot restored; or with the
      restore failed too. */
  datatype Ending =
    | Planned(sshAdd: bool, cloudflareAdd: nat, webDelete: nat)
    | AlreadyCompliant
    | Hardened
    | Refused
    | RolledBack
    | RollbackFailed

  /** A command that may have taken effect did. */
  predicate Takes(plan: Plan, b: nat) {
    At(plan, b) in {Fine, Raised(true)}
  }

  /** The failures, from the `b`-th step on, after which a swap of /etc/ufw leaves no
      directory there: the new one does not go in and the old one does not come back,
      or the reload fails, the new one is moved aside and the old one does not come back. */
  predicate Strands(plan: Plan, b: nat) {
    && At(plan, b) == Fine
    && if At(plan, b + 1) != Fine then At(plan, b + 2) != Fine
       else At(plan, b + 2) != Fine && At(plan, b + 3) == Fine && At(plan, b + 4) != Fine
  }

  /** The failures, or none, after which the new directory is in place: the reload goes
      through, or moving the new one aside again fails. */
  predicate SwapsIn(plan: Plan, b: nat) {
    At(plan, b) == Fine && At(plan, b + 1) == Fine && (At(plan, b + 2) == Fine || At(plan, b + 3) != Fine)
  }

  /** /etc/ufw after a swap. */
  function Swapped(plan: Plan, b: nat, snapshot: Tree, before: Option<Tree>): Option<Tree> {
    if Strands(plan, b) then None else if SwapsIn(plan, b) then Some(snapshot) else before
  }

  /** What the name for the old directory holds after a swap: the old directory as long
      as nothing, or the new one without a reload, is in its place; a torso if only its
      removal, the last step, failed. */
  function Aside(plan: Plan, b: nat, before: Option<Tree>, displaced: Option<Tree>): Option<Tree> {
    if At(plan, b) != Fine then displaced
    else if Went(plan, b, b + 3) then (if At(plan, b + 3) == Fine then None else Some(Torn))
    else if Strands(plan, b) || SwapsIn(plan, b) then before
    else None
  }

  /** The reload fails and the new directory is moved aside again. */
  predicate MovesAside(plan: Plan, b: nat) {
    Went(plan, b, b + 2) && At(plan, b + 2) != Fine && At(plan, b + 3) == Fine
  }

  /** And then the old one comes back, is reloaded, and the new one is removed. */
  predicate Tidies(plan: Plan, b: nat, before: Option<Tree>) {
    before.Some? && before.value.Tree? && Went(plan, b + 3, b + 7)
  }

  /** /etc/ufw after a restore that began with step `b`: validation, copy, swap. */
  function RestoredTree(plan: Plan, b: nat, snapshot: Tree, before: Option<Tree>): Option<Tree> {
    if Went(plan, b, b + 2) then Swapped(plan, b + 2, snapshot, before) else before
  }

  /** What the changes after `before` leave of /etc/ufw. */
  ghost function LeftBy(tree: Option<Tree>, before: seq<Change>, after: seq<Change>): Option<Tree> {
    if |after| <= |before| then tree else Some(Tree(after[|after| - 1].after))
  }

  /** The log has grown, and /etc/ufw is as the last change left it. */
  ghost predicate Follows(tree: Option<Tree>, before: seq<Change>, later: Option<Tree>, after: seq<Change>) {
    |before| <= |after| && after[..|before|] == before && later == LeftBy(tree, before, after)
  }

  lemma FollowsChains(t: Option<Tree>, a: seq<Change>, u: Option<Tree>, b: seq<Change>, v: Option<Tree>, c: seq<Change>)
    requires Follows(t, a, u, b) && Follows(u, b, v, c)
    ensures Follows(t, a, v, c)
  {
    assert a == c[..|a|];
  }

  class Ufw {
    const active: bool
    const denyIncoming: bool
    const ipv6Enabled: bool
    /** How the steps go, one after another. */
    const plan: Plan

    /** /etc/ufw and the three names `restore` uses beside it. */
    var live: Option<Tree>
    var staged: Option<Tree>
    var displaced: Option<Tree>
    var failed: Option<Tree>
    /** The rules the kernel was last told. */
    var loaded: seq<Rule>
    /** How many of them have gone. */
    var clock: nat
    /** Every rule added or deleted, in order, and how many commands it took. */
    ghost var log: seq<Change>
    ghost var sshAdds: nat
    ghost var webAdds: nat
    ghost var deletes: nat

    constructor (active: bool, denyIncoming: bool, ipv6Enabled: bool, live: Option<Tree>, loaded: seq<Rule>, plan: Plan)
      ensures this.active == active && this.denyIncoming == denyIncoming && this.ipv6Enabled == ipv6Enabled
      ensures this.live == live && this.loaded == loaded && this.plan == plan && clock == 0 && log == []
      ensures sshAdds == webAdds == deletes == 0
    {
      this.active, this.denyIncoming, this.ipv6Enabled := active, denyIncoming, ipv6Enabled;
      this.live, this.loaded, this.plan := live, loaded, plan;
      clock := 0;
      staged, displaced, failed := None, None, None;
      log := [];
      sshAdds, webAdds, deletes := 0, 0, 0;
    }

    method Step() returns (outcome: Outcome)
      modifies `clock
      ensures outcome == At(plan, old(clock)) && clock == old(clock) + 1
    {
      outcome := if clock < |plan| then plan[clock] else Fine;
      clock := clock + 1;
    }

    method Attempt() returns (ok: bool)
      modifies `clock
      ensures ok <==> At(plan, old(clock)) == Fine
      ensures clock == old(clock) + 1
    {
      var outcome := Step();
      ok := outcome == Fine;
    }

    // ----- snapshot restore

    /** `shutil.copytree`: a failure leaves an unfinished copy behind. A failing
        `os.replace`, below, leaves both names as they were. */
    method CopySnapshot(snapshot: Tree) returns (ok: bool)
      modifies `clock, `staged
      ensures ok <==> At(plan, old(clock)) == Fine
      ensures staged == Some(if ok then snapshot else Torn)
      ensures clock == old(clock) + 1
    {
      ok := Attempt();
      staged := Some(if ok then snapshot else Torn);
    }

    method Reload() returns (ok: bool)
      modifies `clock, `loaded
      ensures ok <==> At(plan, old(clock)) == Fine && live.Some? && live.value.Tree?
      ensures loaded == if Takes(plan, old(clock)) && live.Some? && live.value.Tree? then live.value.rules
                        else old(loaded)
      ensures clock == old(clock) + 1
    {
      var outcome := Step();
      if live.None? || live.value.Torn? {
        return false;
      }
      if outcome == Fine || outcome == Raised(true) {
        loaded := live.value.rules;
      }
      ok := outcome == Fine;
    }

    /** `BackupManager.restore`. Whatever fails, /etc/ufw ends as the snapshot, as it
        was, or absent, and the plan says which: it is absent exactly if a rename that
        puts the old directory back fails, and then the old directory is the displaced one. */
    method Restore(snapshot: Tree) returns (ok: bool)
      requires live.Some? && snapshot.Tree?
      modifies `clock, `live, `staged, `displaced, `failed, `loaded
      ensures clock > old(clock)
      ensures ok ==> live == Some(snapshot) && loaded == snapshot.rules
      ensures ok <==> Went(plan, old(clock), old(clock) + 6)
      ensures ok <==> Went(plan, old(clock), old(clock) + 2) && Went(plan, old(clock) + 2, old(clock) + 6)
      ensures live == RestoredTree(plan, old(clock), snapshot, old(live))
      ensures live.None? ==> displaced == old(live)
      ensures Went(plan, old(clock), old(clock) + 2) ==>
                && displaced == Aside(plan, old(clock) + 2, old(live), old(displaced))
                && (staged.None? <==> Went(plan, old(clock) + 2, old(clock) + 4) || At(plan, clock - 1) == Fine)
                && failed == if !MovesAside(plan, old(clock) + 2) then old(failed)
                             else if Tidies(plan, old(clock) + 2, old(live)) then None else Some(snapshot)
      ensures !Went(plan, old(clock), old(clock) + 2) ==>
                && displaced == old(displaced) && failed == old(failed)
                && staged == if At(plan, old(clock)) == Fine then Some(Torn) else old(staged)
      ensures Went(plan, old(clock), clock) ==> ok
    {
      hide Swapped, Aside, MovesAside, Tidies;
      var valid := Attempt();
      if !valid {
        return false;
      }
      var copied := CopySnapshot(snapshot);
      if !copied {
        return false;
      }
      ok := SwapIn(snapshot);
      var cleaned := Attempt();
      if cleaned {
        staged := None;
      }
    }

    /** The two renames and the reload, each with its compensation. */
    method SwapIn(snapshot: Tree) returns (ok: bool)
      requires live.Some? && snapshot.Tree? && staged == Some(snapshot)
      modifies `clock, `live, `staged, `displaced, `failed, `loaded
      ensures ok ==> live == Some(snapshot) && loaded == snapshot.rules
      ensures clock > old(clock)
      ensures ok <==> Went(plan, old(clock), old(clock) + 4)
      ensures live == Swapped(plan, old(clock), snapshot, old(live))
      ensures live.None? ==> displaced == old(live)
      ensures displaced == Aside(plan, old(clock), old(live), old(displaced))
      ensures staged == if Went(plan, old(clock), old(clock) + 2) then None else old(staged)
      ensures failed == if !MovesAside(plan, old(clock)) then old(failed)
                        else if Tidies(plan, old(clock), old(live)) then None else Some(snapshot)
      ensures Went(plan, old(clock), clock) ==> ok
    {
      var moved := Attempt();
      if !moved {
        return false;
      }
      live, displaced := None, live;
      moved := Attempt();
      if !moved {
        var back := Attempt();
        if back {
          live, displaced := displaced, None;
        }
        return false;
      }
      live, staged := staged, None;
      var reloaded := Reload();
      if !reloaded {
        moved := Attempt();
        if !moved {
          return false;
        }
        live, failed := None, live;
        var back := Attempt();
        if !back {
          return false;
        }
        live, displaced := displaced, None;
        var again := Reload();
        if again {
          var cleaned := Attempt();
          if cleaned {
            failed := None;
          }
        }
        return false;
      }
      var removed := Attempt();
      displaced := if removed then None else Some(Torn);
      return removed;
    }

    // ----- UFW commands

    method NumberedStatus() returns (rules: Option<seq<Rule>>)
      modifies `clock
      ensures rules.Some? ==> active && live == Some(Tree(rules.value)) && Went(plan, old(clock), clock)
      ensures clock >= old(clock)
      ensures Went(plan, old(clock), clock) ==> (rules.Some? <==> active && live.Some? && live.value.Tree?)
    {
      var ok := Attempt();
      if !ok || !active || live.None? || live.value.Torn? {
        return None;
      }
      return Some(live.value.rules);
    }

    method VerboseStatus() returns (ok: bool)
      modifies `clock
      ensures ok ==> denyIncoming && Went(plan, old(clock), clock)
      ensures clock >= old(clock)
      ensures Went(plan, old(clock), clock) ==> ok == denyIncoming
    {
      ok := Attempt();
      ok := ok && denyIncoming;
    }

    /** A command that would take the rule list from `before` to `after`. */
    method Commit(ghost before: seq<Rule>, after: seq<Rule>, ghost change: Change) returns (ok: bool)
      requires live == Some(Tree(before))
      modifies `clock, `live, `loaded, `log
      ensures ok <==> At(plan, old(clock)) == Fine
      ensures clock == old(clock) + 1
      ensures if Takes(plan, old(clock)) then live == Some(Tree(after)) && loaded == after && log == old(log) + [change]
              else live == old(live) && loaded == old(loaded) && log == old(log)
    {
      var outcome := Step();
      if outcome == Fine || outcome == Raised(true) {
        live, loaded := Some(Tree(after)), after;
        log := log + [change];
      }
      ok := outcome == Fine;
    }

    /** Changing commands issued so far. */
    ghost function Issued(): nat
      reads `sshAdds, `webAdds, `deletes
    {
      sshAdds + webAdds + deletes
    }

    /** `ufw allow`: a listed rule is skipped, any other is inserted somewhere. */
    method Allow(rule: Rule) returns (ok: bool, ghost k: nat)
      requires live.Some? && live.value.Tree?
      modifies `clock, `live, `loaded, `log
      ensures k <= |old(live).value.rules|
      ensures var before := old(live).value.rules;
              var after := Insert(before, k, rule);
              if Takes(plan, old(clock)) && !Listed(before, rule)
              then live == Some(Tree(after)) && loaded == after && log == old(log) + [Added(before, after)]
              else live == old(live) && loaded == old(loaded) && log == old(log)
      ensures ok <==> At(plan, old(clock)) == Fine
      ensures clock == old(clock) + 1
    {
      var before := live.value.rules;
      k := 0;
      if Listed(before, rule) {
        ok := Attempt();
        return;
      }
      var place: nat :| 0 <= place <= |before|;
      var after := Insert(before, place, rule);
      k := place;
      ok := Commit(before, after, Added(before, after));
    }

    /** `ufw delete number` */
    method DeleteNumber(number: nat) returns (ok: bool)
      requires live.Some? && live.value.Tree? && 1 <= number <= |live.value.rules|
      modifies `clock, `live, `loaded, `log
      ensures ok <==> At(plan, old(clock)) == Fine
      ensures clock == old(clock) + 1
      ensures var before := old(live).value.rules;
              var after := Delete(before, number);
              if Takes(plan, old(clock))
              then live == Some(Tree(after)) && loaded == after && log == old(log) + [Deleted(before, after)]
              else live == old(live) && loaded == old(loaded) && log == old(log)
    {
      var before := live.value.rules;
      ok := Commit(before, Delete(before, number), Deleted(before, Delete(before, number)));
    }

    // ----- hardening, phase by phase

    method AllowFamily(family: nat, ghost initial: seq<Rule>, ghost before: seq<Rule>, ghost had: seq<Rule>,
                       ghost desired: set<Key>)
      returns (ok: bool, ghost added: seq<Rule>)
      requires live == Some(Tree(before)) && Phase(initial, before, had, desired, None) && family in {4, 6}
      modifies `clock, `live, `loaded, `log
      ensures live.Some? && live.value.Tree? && Phase(initial, live.value.rules, added, desired, None)
      ensures ok ==> HasGlobal(live.value.rules, family)
      ensures forall f :: HasGlobal(before, f) ==> HasGlobal(live.value.rules, f)
      ensures forall f :: HasGlobal(live.value.rules, f) ==> HasGlobal(before, f) || f == family
      ensures PresentKeys(live.value.rules, desired) == PresentKeys(before, desired)
      ensures added == had || added == had + [GlobalSshRule(family)]
      ensures OrderKept(old(log), log, desired, None)
      ensures Follows(old(live), old(log), live, log)
      ensures clock >= old(clock)
      ensures ok <==> Went(plan, old(clock), clock)
    {
      hide Phase, HasGlobal, PresentKeys, UnexpectedSsh;
      added := had;
      ghost var k: nat;
      ListedGlobalIsThere(before, family);
      ok, k := Allow(GlobalSshRule(family));
      if live != Some(Tree(before)) {
        PhaseIsClean(initial, before, had, desired, None);
        InsertGlobal(before, family, k);
        InsertSshRule(initial, before, had, desired, None, GlobalSshRule(family), k);
        added := had + [GlobalSshRule(family)];
      }
    }

    /** Whether adding can complete the SSH rules: where UFW does not handle IPv6, the
        global mode's IPv6 rule is never put in. */
    predicate Addable(cidr: Option<Cidr>, rules: seq<Rule>) {
      cidr.None? ==> ipv6Enabled || HasGlobal(rules, 6)
    }

    predicate Capable(cidr: Option<Cidr>, rules: seq<Rule>) {
      SshPresent(rules, cidr) || Addable(cidr, rules)
    }

    /** `allow 22/tcp`: puts in the missing ones of the two global rules, or of the IPv4
        rule alone where UFW does not handle IPv6. */
    method AllowGlobalSsh(ghost initial: seq<Rule>, ghost desired: set<Key>) returns (ok: bool, ghost added: seq<Rule>)
      requires live == Some(Tree(initial)) && Phase(initial, initial, [], desired, None)
      modifies `clock, `live, `loaded, `log
      ensures live.Some? && live.value.Tree? && Phase(initial, live.value.rules, added, desired, None)
      ensures SshPresent(live.value.rules, None) ==> ipv6Enabled || HasGlobal(initial, 6)
      ensures ok && (ipv6Enabled || HasGlobal(initial, 6)) ==> SshPresent(live.value.rules, None)
      ensures PresentKeys(live.value.rules, desired) == PresentKeys(initial, desired)
      ensures forall rule :: rule in added ==> rule in {GlobalSshRule(4), GlobalSshRule(6)}
      ensures OrderKept(old(log), log, desired, None)
      ensures Follows(old(live), old(log), live, log)
      ensures clock >= old(clock)
      ensures ok <==> Went(plan, old(clock), clock)
    {
      hide Phase, HasGlobal, PresentKeys, UnexpectedSsh, SshPresent;
      ok, added := AllowFamily(4, initial, initial, [], desired);
      if ok && ipv6Enabled {
        ghost var middle := live.value.rules;
        ok, added := AllowFamily(6, initial, middle, added, desired);
      }
      PhaseIsClean(initial, live.value.rules, added, desired, None);
      BothFamilies(live.value.rules);
    }

    method AllowRestrictedSsh(cidr: Cidr, ghost initial: seq<Rule>, ghost desired: set<Key>)
      returns (ok: bool, ghost added: seq<Rule>)
      requires live == Some(Tree(initial)) && Phase(initial, initial, [], desired, Some(cidr))
      modifies `clock, `live, `loaded, `log
      ensures live.Some? && live.value.Tree? && Phase(initial, live.value.rules, added, desired, Some(cidr))
      ensures ok ==> SshPresent(live.value.rules, Some(cidr))
      ensures PresentKeys(live.value.rules, desired) == PresentKeys(initial, desired)
      ensures added == [] || added == [SshRule(cidr)]
      ensures OrderKept(old(log), log, desired, Some(cidr))
      ensures Follows(old(live), old(log), live, log)
      ensures clock >= old(clock)
      ensures ok <==> Went(plan, old(clock), clock)
    {
      hide Phase, PresentKeys, UnexpectedSsh, SshPresent;
      added := [];
      ghost var k: nat;
      ok, k := Allow(SshRule(cidr));
      if live != Some(Tree(initial)) {
        PhaseIsClean(initial, initial, [], desired, Some(cidr));
        InsertRestricted(initial, cidr, k);
        InsertSshRule(initial, initial, [], desired, Some(cidr), SshRule(cidr), k);
        added := [] + [SshRule(cidr)];
      } else if ok {
        ListedRestrictedIsPresent(initial, cidr);
      }
    }

    /** Adds the selected SSH rule set and reads it back. */
    method AddSsh(cidr: Option<Cidr>, ghost initial: seq<Rule>, ghost desired: set<Key>)
      returns (ok: bool, ghost added: seq<Rule>)
      requires live == Some(Tree(initial)) && Phase(initial, initial, [], desired, cidr)
      modifies `clock, `live, `loaded, `log, `sshAdds
      ensures live.Some? && live.value.Tree? && Phase(initial, live.value.rules, added, desired, cidr)
      ensures ok ==> SshPresent(live.value.rules, cidr)
      ensures PresentKeys(live.value.rules, desired) == PresentKeys(initial, desired)
      ensures SshRulesOf(added, cidr) && sshAdds == old(sshAdds) + 1
      ensures OrderKept(old(log), log, desired, cidr)
      ensures Follows(old(live), old(log), live, log)
      ensures clock >= old(clock)
      ensures ok ==> Addable(cidr, initial)
      ensures ok ==> Went(plan, old(clock), clock)
      ensures Went(plan, old(clock), clock) && active && Addable(cidr, initial) ==> ok
    {
      hide Phase, PresentKeys, UnexpectedSsh, SshPresent;
      sshAdds := sshAdds + 1;
      if cidr.None? {
        ok, added := AllowGlobalSsh(initial, desired);
      } else {
        ok, added := AllowRestrictedSsh(cidr.value, initial, desired);
      }
      if !ok {
        return;
      }
      var current := NumberedStatus();
      ok := current.Some? && SshPresent(current.value, cidr);
    }

    method AddWebRule(key: Key, ghost initial: seq<Rule>, ghost had: seq<Rule>, ghost done: set<Key>,
                      ghost desired: set<Key>, ghost cidr: Option<Cidr>)
      returns (ok: bool, ghost added: seq<Rule>)
      requires live.Some? && live.value.Tree? && Grown(initial, live.value.rules, had, done, desired, cidr)
      requires key in desired && key.port in WEB_PORTS && key !in PresentKeys(initial, desired) && key !in done
      modifies `clock, `live, `loaded, `log, `webAdds
      ensures added == had || added == had + [WebRule(key)]
      ensures live.Some? && live.value.Tree?
      ensures ok ==>
          added == had + [WebRule(key)] && Grown(initial, live.value.rules, added, done + {key}, desired, cidr)
      ensures webAdds == old(webAdds) + 1
      ensures OrderKept(old(log), log, desired, cidr)
      ensures Follows(old(live), old(log), live, log)
      ensures clock >= old(clock)
      ensures ok <==> Went(plan, old(clock), clock)
    {
      hide Phase, PresentKeys, UnexpectedSsh, SshPresent, Classify;
      webAdds := webAdds + 1;
      ghost var before := live.value.rules;
      if Listed(before, WebRule(key)) {
        ListedWebRuleIsPresent(before, key, desired);
      }
      added := had;
      ghost var k: nat;
      ok, k := Allow(WebRule(key));
      if live != Some(Tree(before)) {
        InsertWeb(initial, before, had, desired, cidr, key, k);
        added := had + [WebRule(key)];
      }
    }

    /** Adds every missing key, in any order. */
    method AddWeb(missing: set<Key>, ghost initial: seq<Rule>, ghost had: seq<Rule>, ghost desired: set<Key>,
                  ghost cidr: Option<Cidr>)
      returns (ok: bool, ghost added: seq<Rule>)
      requires live.Some? && live.value.Tree? && Grown(initial, live.value.rules, had, {}, desired, cidr)
      requires missing == desired - PresentKeys(initial, desired)
      requires forall key :: key in desired ==> key.port in WEB_PORTS
      modifies `clock, `live, `loaded, `log, `webAdds
      ensures live.Some? && live.value.Tree?
      ensures ok ==>
                && Grown(initial, live.value.rules, added, missing, desired, cidr)
                && webAdds == old(webAdds) + |missing|
                && WebRulesAdded(had, added, missing)
      ensures missing == {} ==> live == old(live)
      ensures webAdds >= old(webAdds) && (missing == {} <==> webAdds == old(webAdds))
      ensures OrderKept(old(log), log, desired, cidr)
      ensures Follows(old(live), old(log), live, log)
      ensures clock >= old(clock)
      ensures ok <==> Went(plan, old(clock), clock)
    {
      hide Grown, PresentKeys, WebRulesAdded, OrderKept;
      OrderStarts(log, desired, cidr);
      NoneAdded(had);
      added := had;
      var todo := missing;
      ghost var done: set<Key> := {};
      while todo != {}
        invariant todo !! done && todo + done == missing
        invariant live.Some? && live.value.Tree?
        invariant Grown(initial, live.value.rules, added, done, desired, cidr)
        invariant webAdds == old(webAdds) + |done| && WebRulesAdded(had, added, done)
        invariant missing == {} ==> live == old(live)
        invariant OrderKept(old(log), log, desired, cidr)
        invariant Follows(old(live), old(log), live, log)
        invariant clock >= old(clock) && Went(plan, old(clock), clock)
        decreases todo
      {
        var key :| key in todo;
        ghost var before, tree, between := added, live, log;
        ok, added := AddWebRule(key, initial, added, done, desired, cidr);
        OrderChains(old(log), between, log, desired, cidr);
        FollowsChains(old(live), old(log), tree, between, live, log);
        if !ok {
          return;
        }
        OneMoreAdded(had, before, done, key);
        todo, done := todo - {key}, done + {key};
      }
      return true, added;
    }

    method DeleteOne(ghost numbers: set<nat>, ghost rules: seq<Rule>, number: nat, ghost bound: nat,
                     ghost desired: set<Key>, ghost cidr: Option<Cidr>)
      returns (ok: bool)
      requires bound <= |rules| && live == Some(Tree(DeletedFrom(rules, numbers, bound)))
      requires numbers == BadNumbers(rules, desired) && Ready(rules, desired, cidr)
      requires 1 <= number <= bound && number in numbers && forall n :: number < n <= bound ==> n !in numbers
      modifies `clock, `live, `loaded, `log, `deletes
      ensures live.Some? && live.value.Tree?
      ensures ok ==> live == Some(Tree(DeletedFrom(rules, numbers, number - 1)))
      ensures deletes == old(deletes) + 1
      ensures OrderKept(old(log), log, desired, cidr)
      ensures Follows(old(live), old(log), live, log)
      ensures clock >= old(clock)
      ensures ok <==> Went(plan, old(clock), clock)
    {
      hide BadNumbers, Ready, Survivors;
      DeleteNext(rules, numbers, number, bound);
      DeletionKeepsReady(rules, bound, desired, cidr);
      DeletionKeepsReady(rules, number - 1, desired, cidr);
      deletes := deletes + 1;
      ok := DeleteNumber(number);
    }

    /** Deletes the bad rules by number, the highest first. */
    method DeleteBad(numbers: set<nat>, ghost rules: seq<Rule>, ghost desired: set<Key>, ghost cidr: Option<Cidr>)
      returns (ok: bool)
      requires live == Some(Tree(rules)) && numbers == BadNumbers(rules, desired) && Ready(rules, desired, cidr)
      modifies `clock, `live, `loaded, `log, `deletes
      ensures live.Some? && live.value.Tree?
      ensures ok ==> live == Some(Tree(DeletedFrom(rules, numbers, 0))) && deletes == old(deletes) + |numbers|
      ensures numbers == {} ==> live == old(live)
      ensures deletes >= old(deletes) && (numbers == {} <==> deletes == old(deletes))
      ensures OrderKept(old(log), log, desired, cidr)
      ensures Follows(old(live), old(log), live, log)
      ensures clock >= old(clock)
      ensures ok <==> Went(plan, old(clock), clock)
    {
      hide BadNumbers, Ready, OrderKept, DeletedFrom, Pending, SortDescending;
      var order := SortDescending(numbers);
      ghost var bound := |rules|;
      NumbersInRange(rules, desired);
      PendingAll(numbers, bound);
      assert order[0..] == order;
      NoneDeletedYet(rules, numbers);
      OrderStarts(log, desired, cidr);
      for k := 0 to |order|
        invariant 0 <= bound <= |rules| && Pending(numbers, order[k..], bound)
        invariant live == Some(Tree(DeletedFrom(rules, numbers, bound)))
        invariant k == 0 ==> live == old(live)
        invariant deletes == old(deletes) + k
        invariant OrderKept(old(log), log, desired, cidr)
        invariant Follows(old(live), old(log), live, log)
        invariant clock >= old(clock) && Went(plan, old(clock), clock)
      {
        PendingStep(numbers, order[k..], bound);
        assert order[k..][1..] == order[k + 1..];
        ghost var tree, between := live, log;
        ok := DeleteOne(numbers, rules, order[k], bound, desired, cidr);
        OrderChains(old(log), between, log, desired, cidr);
        FollowsChains(old(live), old(log), tree, between, live, log);
        if !ok {
          return false;
        }
        bound := order[k] - 1;
      }
      PendingNone(numbers, order[|order|..], bound);
      DeletedBelow(rules, numbers, 0, bound);
      return true;
    }

    /** `_verify_compliant` */
    method VerifyCompliant(desired: set<Key>, cidr: Option<Cidr>) returns (ok: bool)
      modifies `clock
      ensures ok ==> live.Some? && live.value.Tree? && Compliant(live.value.rules, desired, cidr) && denyIncoming
      ensures ok ==> Went(plan, old(clock), clock)
      ensures clock >= old(clock)
      ensures Went(plan, old(clock), clock) ==>
                (ok <==> && active && denyIncoming && live.Some? && live.value.Tree?
                         && Compliant(live.value.rules, desired, cidr))
    {
      hide Assess, UnexpectedSsh, SshPresent;
      var rules := NumberedStatus();
      if rules.None? {
        return false;
      }
      var assessment := AssessRules(rules.value, desired);
      if !SshPresent(rules.value, cidr) {
        return false;
      }
      var unexpected := UnexpectedSshRules(rules.value, cidr);
      if unexpected != [] {
        return false;
      }
      if assessment.missing != {} || assessment.broad != {} || assessment.stale != {} || assessment.unexpected != [] {
        return false;
      }
      ok := VerboseStatus();
    }

    /** The additions, and the numbers to delete once nothing is missing. */
    method AddAll(desired: set<Key>, cidr: Option<Cidr>, needsSsh: bool, missing: set<Key>, ghost initial: seq<Rule>)
      returns (ok: bool, started: bool, numbers: set<nat>, ghost had: seq<Rule>, ghost added: seq<Rule>)
      requires live == Some(Tree(initial)) && Phase(initial, initial, [], desired, cidr)
      requires forall key :: key in desired ==> key.port in WEB_PORTS
      requires needsSsh == !SshPresent(initial, cidr) && missing == desired - PresentKeys(initial, desired)
      modifies `clock, `live, `loaded, `log, `sshAdds, `webAdds
      ensures live.Some? && live.value.Tree?
      ensures !started ==> live == old(live)
      ensures sshAdds >= old(sshAdds) && webAdds >= old(webAdds)
      ensures started <==> sshAdds + webAdds > old(sshAdds) + old(webAdds)
      ensures ok ==>
                && Grown(initial, live.value.rules, added, missing, desired, cidr)
                && SshRulesOf(had, cidr) && WebRulesAdded(had, added, missing)
                && numbers == BadNumbers(live.value.rules, desired)
                && sshAdds == old(sshAdds) + (if needsSsh then 1 else 0)
                && webAdds == old(webAdds) + |missing|
      ensures OrderKept(old(log), log, desired, cidr)
      ensures Follows(old(live), old(log), live, log)
      ensures clock >= old(clock)
      ensures needsSsh ==> started
      ensures ok ==> Capable(cidr, initial)
      ensures ok ==> Went(plan, old(clock), clock)
      ensures Went(plan, old(clock), clock) && active && Capable(cidr, initial) ==> ok
    {
      hide Assess, UnexpectedSsh, SshPresent, Phase, Ready, OrderKept, WebRulesAdded, BadNumbers, PresentKeys, Grown;
      had, added, numbers := [], [], {};
      started := false;
      OrderStarts(log, desired, cidr);
      if needsSsh {
        started := true;
        ok, had := AddSsh(cidr, initial, desired);
        if !ok {
          return;
        }
      }
      ghost var tree, between := live, log;
      GrownStarts(initial, live.value.rules, had, desired, cidr);
      started := started || missing != {};
      ok, added := AddWeb(missing, initial, had, desired, cidr);
      OrderChains(old(log), between, log, desired, cidr);
      FollowsChains(old(live), old(log), tree, between, live, log);
      if !ok {
        return;
      }
      var current := NumberedStatus();
      ok := current.Some?;
      if ok {
        var after := AssessRules(current.value, desired);
        numbers := after.broad + after.stale;
        AssessedParts(live.value.rules, desired);
        GrownIsReady(initial, live.value.rules, added, missing, desired, cidr);
        ok := after.missing == {};
      }
    }

    /** The part of `apply_hardening` inside the `try`. `started` says whether any
        changing command was issued. */
    method Harden(desired: set<Key>, cidr: Option<Cidr>, needsSsh: bool, missing: set<Key>, ghost initial: seq<Rule>)
      returns (ok: bool, started: bool, ghost added: seq<Rule>)
      requires live == Some(Tree(initial)) && Phase(initial, initial, [], desired, cidr)
      requires forall key :: key in desired ==> key.port in WEB_PORTS
      requires needsSsh == !SshPresent(initial, cidr) && missing == desired - PresentKeys(initial, desired)
      modifies `clock, `live, `loaded, `log, `sshAdds, `webAdds, `deletes
      ensures live.Some? && live.value.Tree?
      ensures !started ==> live == old(live)
      ensures sshAdds >= old(sshAdds) && webAdds >= old(webAdds) && deletes >= old(deletes)
      ensures started <==> Issued() > old(Issued())
      ensures ok ==>
                && Completed(initial, live.value.rules, added, missing, desired, cidr)
                && loaded == live.value.rules && denyIncoming
                && Reports(initial, desired, cidr,
                           sshAdds - old(sshAdds), webAdds - old(webAdds), deletes - old(deletes))
      ensures OrderKept(old(log), log, desired, cidr)
      ensures Follows(old(live), old(log), live, log)
      ensures clock >= old(clock)
      ensures needsSsh ==> started
      ensures ok ==> Capable(cidr, initial)
      ensures ok ==> Went(plan, old(clock), clock)
      ensures Went(plan, old(clock), clock) && active && denyIncoming && Capable(cidr, initial) ==> ok
    {
      hide Assess, UnexpectedSsh, SshPresent, Phase, Ready, OrderKept, WebRulesAdded, BadNumbers, PresentKeys;
      hide Compliant, Survivors, Grown, LeftBy, Completed, DeletedFrom, SshRulesOf;
      var numbers: set<nat>;
      ghost var had: seq<Rule>;
      ok, started, numbers, had, added := AddAll(desired, cidr, needsSsh, missing, initial);
      if !ok {
        return;
      }
      ghost var grown, tree, between := live.value.rules, live, log;
      GrownIsReady(initial, grown, added, missing, desired, cidr);
      GrownCompletes(initial, grown, added, had, missing, desired, cidr);
      started := started || numbers != {};
      ok := DeleteBad(numbers, grown, desired, cidr);
      OrderChains(old(log), between, log, desired, cidr);
      FollowsChains(old(live), old(log), tree, between, live, log);
      if !ok {
        return;
      }
      ok := Reload();
      if ok {
        ok := VerifyCompliant(desired, cidr);
      }
    }

    // ----- apply_hardening

    /** The numbers a plan reports for a rule list. */
    ghost predicate Reports(rules: seq<Rule>, desired: set<Key>, cidr: Option<Cidr>, ssh: nat, adds: nat, removals: nat)
    {
      && ssh == (if SshPresent(rules, cidr) then 0 else 1)
      && adds == |desired - PresentKeys(rules, desired)|
      && removals == |BadNumbers(rules, desired)|
    }

    /** What hardening asks of the host before it starts: UFW active, incoming traffic
        denied by default, IPv6 enabled if ranges need it, and no rule for an operator to
        review. */
    ghost predicate Workable(ranges: seq<Cidr>, cidr: Option<Cidr>, tree: Option<Tree>) {
      && active && denyIncoming
      && (ipv6Enabled || forall net :: net in ranges ==> net.family.V4?)
      && tree.Some? && tree.value.Tree? && Reviewable(tree.value.rules, ranges, cidr)
    }

    /** The dry runs of everything that would be added. */
    method Preflight(needsSsh: bool, missing: set<Key>) returns (ok: bool)
      modifies `clock
      ensures clock >= old(clock)
      ensures ok <==> Went(plan, old(clock), clock)
      ensures ok ==> clock == old(clock) + |missing| + if needsSsh then 1 else 0
    {
      if needsSsh {
        ok := Attempt();
        if !ok {
          return;
        }
      }
      var todo := missing;
      while todo != {}
        invariant todo <= missing && old(clock) <= clock && Went(plan, old(clock), clock)
        invariant clock == old(clock) + |missing| - |todo| + if needsSsh then 1 else 0
        decreases todo
      {
        var key :| key in todo;
        ok := Attempt();
        if !ok {
          return;
        }
        todo := todo - {key};
      }
      return true;
    }

    /** Everything `apply_hardening` reads and decides before its first change. */
    method Survey(ranges: seq<Cidr>, cidr: Option<Cidr>) returns (rules: Option<seq<Rule>>)
      modifies `clock
      ensures rules.Some? ==> live == Some(Tree(rules.value)) && Reviewable(rules.value, ranges, cidr)
      ensures clock >= old(clock)
      ensures Went(plan, old(clock), clock) ==> (rules.Some? <==> Workable(ranges, cidr, live))
      ensures rules.Some? ==> Workable(ranges, cidr, live) && Went(plan, old(clock), clock)
    {
      hide Assess, UnexpectedSsh, DesiredKeys, Reviewable;
      var numbered := NumberedStatus();
      if numbered.None? {
        return None;
      }
      ReviewableIff(numbered.value, ranges, cidr);
      var verbose := VerboseStatus();
      if !verbose {
        return None;
      }
      if exists net :: net in ranges && net.family.V6? {
        var readable := Attempt();
        if !readable || !ipv6Enabled {
          return None;
        }
      }
      var assessment := AssessRules(numbered.value, DesiredKeys(ranges));
      UnexpectedPart(numbered.value, DesiredKeys(ranges));
      if assessment.unexpected != [] {
        return None;
      }
      var unexpected := UnexpectedSshRules(numbered.value, cidr);
      if unexpected != [] {
        return None;
      }
      return numbered;
    }

    /** A rollback that began with step `b`, after hardening had begun with step `a` and
        got as far as `left`: changes had been issued, hardening had failed, for one of its
        steps unless the mode is out of reach, and the rollback's own steps say how it
        ended and what it left. */
    ghost predicate Undone(r: Ending, a: nat, b: nat, snapshot: Tree, left: Option<Tree>, capable: bool)
      reads `live, `displaced, `loaded
    {
      && a < b && (Went(plan, a, b) ==> !capable)
      && r == (if Went(plan, b, b + 6) then RolledBack else RollbackFailed)
      && live == RestoredTree(plan, b, snapshot, left)
      && (live.None? ==> displaced == left)
      && (r.RolledBack? ==> live == Some(snapshot) && snapshot.Tree? && loaded == snapshot.rules)
    }

    /** `BackupManager.create` */
    method Save() returns (snapshot: Option<Tree>)
      modifies `clock
      ensures snapshot == if At(plan, old(clock)) == Fine then live else None
      ensures clock == old(clock) + 1
    {
      var saved := Attempt();
      return if saved then live else None;
    }

    /** The snapshot, without which nothing is changed, the changes, and the rollback if
        they fail, which begins with step `undo` and finds the tree `left`. */
    method Enact(desired: set<Key>, cidr: Option<Cidr>, needsSsh: bool, missing: set<Key>, ghost initial: seq<Rule>)
      returns (r: Ending, ghost added: seq<Rule>, ghost undo: Option<nat>, ghost left: Option<Tree>)
      requires live == Some(Tree(initial)) && Phase(initial, initial, [], desired, cidr)
      requires forall key :: key in desired ==> key.port in WEB_PORTS
      requires needsSsh == !SshPresent(initial, cidr) && missing == desired - PresentKeys(initial, desired)
      requires active && denyIncoming
      modifies `clock, `live, `loaded, `log, `staged, `displaced, `failed, `sshAdds, `webAdds, `deletes
      ensures clock > old(clock)
      ensures sshAdds >= old(sshAdds) && webAdds >= old(webAdds) && deletes >= old(deletes)
      ensures r.Hardened? ==>
                && live.Some? && live.value.Tree? && loaded == live.value.rules
                && Completed(initial, live.value.rules, added, missing, desired, cidr)
                && Reports(initial, desired, cidr,
                           sshAdds - old(sshAdds), webAdds - old(webAdds), deletes - old(deletes))
      ensures undo.None? ==> r.Hardened? || (r.Refused? && live == old(live) && Issued() == old(Issued()))
      ensures At(plan, old(clock)) != Fine ==> r.Refused? && undo.None?
      ensures r.Refused? ==> !Went(plan, old(clock), clock)
      ensures undo.Some? ==>
                && Undone(r, old(clock), undo.value, Tree(initial), left, Capable(cidr, initial))
                && Issued() > old(Issued())
                && left == LeftBy(Some(Tree(initial)), old(log), log)
      ensures OrderKept(old(log), log, desired, cidr)
      ensures Went(plan, old(clock), clock) ==>
                r == if Capable(cidr, initial) then Hardened else RolledBack
      ensures r.Hardened? ==> Capable(cidr, initial) && Went(plan, old(clock), clock)
    {
      hide Completed, Phase, Reports, OrderKept, SshPresent, PresentKeys, Swapped, Compliant, Grown;
      added, undo, left := [], None, None;
      OrderStarts(log, desired, cidr);
      var snapshot := Save();
      if snapshot.None? {
        return Refused, added, undo, left;
      }
      var ok, started: bool;
      ok, started, added := Harden(desired, cidr, needsSsh, missing, initial);
      if ok {
        return Hardened, added, undo, left;
      }
      if !started {
        return Refused, added, undo, left;
      }
      undo, left := Some(clock), live;
      var restored := Restore(snapshot.value);
      return if restored then RolledBack else RollbackFailed, added, undo, left;
    }

    /** `apply_hardening`. `saved` is the step that makes the snapshot, if it comes to
        that; without one nothing is changed. */
    method ApplyHardening(ranges: seq<Cidr>, cidr: Option<Cidr>, planOnly: bool)
      returns (r: Ending, ghost added: seq<Rule>, ghost saved: Option<nat>, ghost undo: Option<nat>,
               ghost left: Option<Tree>)
      modifies `clock, `live, `loaded, `log, `staged, `displaced, `failed, `sshAdds, `webAdds, `deletes
      ensures clock >= old(clock)
      ensures !r.Refused? ==> Workable(ranges, cidr, old(live))
      ensures if planOnly then r.Planned? || r.Refused? else !r.Planned?
      ensures r.Planned? ==>
                && live == old(live) && Issued() == old(Issued())
                && Reports(live.value.rules, DesiredKeys(ranges), cidr,
                           if r.sshAdd then 1 else 0, r.cloudflareAdd, r.webDelete)
      ensures r.AlreadyCompliant? ==>
                && live == old(live) && log == old(log) && Issued() == old(Issued())
                && Compliant(live.value.rules, DesiredKeys(ranges), cidr)
      ensures sshAdds >= old(sshAdds) && webAdds >= old(webAdds) && deletes >= old(deletes)
      ensures r.Hardened? ==>
                && live.Some? && live.value.Tree? && loaded == live.value.rules && denyIncoming
                && Completed(old(live).value.rules, live.value.rules, added,
                             DesiredKeys(ranges) - PresentKeys(old(live).value.rules, DesiredKeys(ranges)),
                             DesiredKeys(ranges), cidr)
                && Reports(old(live).value.rules, DesiredKeys(ranges), cidr,
                           sshAdds - old(sshAdds), webAdds - old(webAdds), deletes - old(deletes))
                && Cleaned(old(live).value.rules, live.value.rules, added, ranges, cidr)
      ensures r.Hardened? || r.AlreadyCompliant? ==>
                AdmitsWanted(live.value.rules, ranges, cidr) && Reviewable(live.value.rules, ranges, cidr)
      ensures r.Refused? ==> live == old(live) && Issued() == old(Issued())
      ensures saved.None? || At(plan, saved.value) != Fine ==> live == old(live) && Issued() == old(Issued())
      ensures saved.Some? ==>
                && old(clock) <= saved.value < clock && (undo.Some? ==> saved.value < undo.value)
                && Went(plan, old(clock), saved.value)
      ensures r.Planned? || r.AlreadyCompliant? || r.Hardened? ==> Went(plan, old(clock), clock)
      ensures r.RolledBack? || r.RollbackFailed? <==> undo.Some?
      ensures undo.Some? ==>
                && Undone(r, old(clock), undo.value, old(live).value, left, Capable(cidr, old(live).value.rules))
                && Issued() > old(Issued())
                && left == LeftBy(old(live), old(log), log)
      ensures OrderKept(old(log), log, DesiredKeys(ranges), cidr)
      ensures Went(plan, old(clock), clock) ==>
                if !Workable(ranges, cidr, old(live)) then r.Refused?
                else if planOnly then r.Planned?
                else if Compliant(old(live).value.rules, DesiredKeys(ranges), cidr) then r.AlreadyCompliant?
                else r == if Capable(cidr, old(live).value.rules) then Hardened else RolledBack
    {
      hide Assess, UnexpectedSsh, SshPresent, Ready, OrderKept, BadNumbers, PresentKeys, Survivors;
      hide DesiredKeys, Phase, RestoredTree, Reviewable, Cleaned, AdmitsWanted, WebRulesAdded, SshRulesOf;
      added, saved, undo, left := [], None, None, None;
      var desired := DesiredKeys(ranges);
      DesiredPorts(ranges);
      OrderStarts(log, desired, cidr);
      var survey := Survey(ranges, cidr);
      if survey.None? {
        return Refused, added, saved, undo, left;
      }
      var rules := survey.value;
      ReviewableIff(rules, ranges, cidr);
      var assessment := AssessRules(rules, desired);
      AssessedParts(rules, desired);
      CompliantMeans(rules, desired, cidr);
      var needsSsh := !SshPresent(rules, cidr);
      var ready := Preflight(needsSsh, assessment.missing);
      if !ready {
        return Refused, added, saved, undo, left;
      }
      var deletions := assessment.broad + assessment.stale;
      if planOnly {
        return Planned(needsSsh, |assessment.missing|, |deletions|), added, saved, undo, left;
      }
      if !needsSsh && assessment.missing == {} && deletions == {} {
        var verified := VerifyCompliant(desired, cidr);
        if verified {
          CompliantIsGood(rules, ranges, cidr);
        }
        return if verified then AlreadyCompliant else Refused, added, saved, undo, left;
      }
      PhaseStarts(rules, desired, cidr);
      saved := Some(clock);
      r, added, undo, left := Enact(desired, cidr, needsSsh, assessment.missing, rules);
      if r.Hardened? {
        CompletedIsCleaned(rules, live.value.rules, added, ranges, cidr);
        CompliantIsGood(live.value.rules, ranges, cidr);
      }
    }

    lemma CompliantIsGood(rules: seq<Rule>, ranges: seq<Cidr>, cidr: Option<Cidr>)
      requires Compliant(rules, DesiredKeys(ranges), cidr)
      ensures AdmitsWanted(rules, ranges, cidr) && Reviewable(rules, ranges, cidr)
    {
      hide DesiredKeys, Reviewable, AdmitsWanted, SshPresent, UnexpectedSsh;
      CompliantAdmitsWanted(rules, ranges, cidr);
      UnexpectedPart(rules, DesiredKeys(ranges));
      ReviewableIff(rules, ranges, cidr);
    }

    /** One run converges: if nothing fails, a second run finds nothing to do. */
    method HardenTwice(ranges: seq<Cidr>, cidr: Option<Cidr>) returns (first: Ending, second: Ending)
      requires Workable(ranges, cidr, live) && Capable(cidr, live.value.rules)
      requires forall i: nat :: i >= clock ==> At(plan, i) == Fine
      modifies `clock, `live, `loaded, `log, `staged, `displaced, `failed, `sshAdds, `webAdds, `deletes
      ensures first == if Compliant(old(live).value.rules, DesiredKeys(ranges), cidr) then AlreadyCompliant
                       else Hardened
      ensures second == AlreadyCompliant
      ensures live.Some? && live.value.Tree? && Compliant(live.value.rules, DesiredKeys(ranges), cidr)
    {
      hide PresentKeys, BadNumbers, Assess, DesiredKeys, OrderKept, Reviewable, AdmitsWanted, Cleaned;
      ghost var added: seq<Rule>;
      ghost var saved: Option<nat>;
      ghost var undo: Option<nat>;
      ghost var left: Option<Tree>;
      first, added, saved, undo, left := ApplyHardening(ranges, cidr, false);
      assert Went(plan, old(clock), clock);
      assert Compliant(live.value.rules, DesiredKeys(ranges), cidr);
      assert Workable(ranges, cidr, live);
      second, added, saved, undo, left := ApplyHardening(ranges, cidr, false);
    }

    /** Ranges change: a run for some ranges with any failures, then one for others, the
        initial rules asking for no review under either. Unless the first one's rollback
        failed, nothing asks for a review in between, and the second, if nothing fails
        from the step `middle` on, ends with the others' ranges in force. */
    method HardenAgain(ranges: seq<Cidr>, others: seq<Cidr>, cidr: Option<Cidr>)
      returns (first: Ending, second: Ending, ghost middle: nat)
      requires Workable(ranges, cidr, live) && Workable(others, cidr, live) && Capable(cidr, live.value.rules)
      modifies `clock, `live, `loaded, `log, `staged, `displaced, `failed, `sshAdds, `webAdds, `deletes
      ensures !first.Planned?
      ensures !first.RollbackFailed? && Went(plan, middle, clock) ==>
                && second in {AlreadyCompliant, Hardened}
                && live.Some? && live.value.Tree? && AdmitsWanted(live.value.rules, others, cidr)
    {
      hide PresentKeys, BadNumbers, Assess, DesiredKeys, OrderKept, Reviewable, AdmitsWanted, Cleaned;
      hide Compliant, RestoredTree, SshPresent, WebRulesAdded, SshRulesOf, Capable;
      ghost var before := live.value.rules;
      ghost var added: seq<Rule>;
      ghost var saved: Option<nat>;
      ghost var undo: Option<nat>;
      ghost var left: Option<Tree>;
      first, added, saved, undo, left := ApplyHardening(ranges, cidr, false);
      middle := clock;
      if first.Hardened? {
        CleanedIsReviewable(before, live.value.rules, added, ranges, others, cidr);
        CompliantIsCapable(live.value.rules, ranges, cidr);
      }
      second, added, saved, undo, left := ApplyHardening(others, cidr, false);
    }

    lemma CompliantIsCapable(rules: seq<Rule>, ranges: seq<Cidr>, cidr: Option<Cidr>)
      ensures Compliant(rules, DesiredKeys(ranges), cidr) ==> Capable(cidr, rules)
    {
    }
  }
}
