/** The invariants that carry `apply_hardening` from the first rule list to the last. */
module UfwPhases {
  import opened Wrappers
  import opened Cidrs
  import opened Sequences
  import opened Deletion
  import opened UfwRules
  import opened UfwPackets
  import opened UfwLists

  /** `now` is the initial list with `added` put in at any positions, each of them a
      rule the script wants, and with nothing an operator would have to review. */
  ghost predicate Phase(initial: seq<Rule>, now: seq<Rule>, added: seq<Rule>, desired: set<Key>, cidr: Option<Cidr>) {
    && UnexpectedSsh(now, cidr) == []
    && NoneUnexpectedWeb(now, desired)
    && multiset(now) == multiset(initial) + multiset(added)
    && forall rule :: rule in added ==> !Bad(rule, desired)
  }

  /** The end of a run: compliant, and made of the initial rules that were neither
      broad nor stale, one rule for each missing key, and the SSH rules added. */
  ghost predicate Completed(initial: seq<Rule>, final: seq<Rule>, added: seq<Rule>, missing: set<Key>,
                            desired: set<Key>, cidr: Option<Cidr>)
  {
    && Compliant(final, desired, cidr)
    && multiset(final) == multiset(Filter(IsKept(desired), initial)) + multiset(added)
    && exists ssh :: SshRulesOf(ssh, cidr) && WebRulesAdded(ssh, added, missing)
  }

  /** The rules SSH may need. */
  ghost predicate SshRulesOf(added: seq<Rule>, cidr: Option<Cidr>) {
    forall rule :: rule in added ==>
      match cidr
      case Some(c) => rule == SshRule(c)
      case None => rule in {GlobalSshRule(4), GlobalSshRule(6)}
  }

  /** What the additions so far have come to. */
  ghost predicate Grown(initial: seq<Rule>, now: seq<Rule>, added: seq<Rule>, done: set<Key>, desired: set<Key>,
                        cidr: Option<Cidr>)
  {
    && Phase(initial, now, added, desired, cidr)
    && PresentKeys(now, desired) == PresentKeys(initial, desired) + done
    && SshPresent(now, cidr)
  }

  lemma GrownStarts(initial: seq<Rule>, now: seq<Rule>, added: seq<Rule>, desired: set<Key>, cidr: Option<Cidr>)
    requires Phase(initial, now, added, desired, cidr) && SshPresent(now, cidr)
    requires PresentKeys(now, desired) == PresentKeys(initial, desired)
    ensures Grown(initial, now, added, {}, desired, cidr)
  {
  }

  lemma GrownIsReady(initial: seq<Rule>, now: seq<Rule>, added: seq<Rule>, missing: set<Key>, desired: set<Key>,
                     cidr: Option<Cidr>)
    requires Grown(initial, now, added, missing, desired, cidr) && missing == desired - PresentKeys(initial, desired)
    ensures Ready(now, desired, cidr) && Phase(initial, now, added, desired, cidr)
    ensures multiset(now) == multiset(initial) + multiset(added)
    ensures forall rule :: rule in added ==> !Bad(rule, desired)
    ensures Assess(now, desired).missing == {}
  {
  }

  /** From grown to completed. */
  lemma GrownCompletes(initial: seq<Rule>, now: seq<Rule>, added: seq<Rule>, had: seq<Rule>, missing: set<Key>,
                       desired: set<Key>, cidr: Option<Cidr>)
    requires Grown(initial, now, added, missing, desired, cidr) && missing == desired - PresentKeys(initial, desired)
    requires SshRulesOf(had, cidr) && WebRulesAdded(had, added, missing)
    ensures Completed(initial, DeletedFrom(now, BadNumbers(now, desired), 0), added, missing, desired, cidr)
    ensures Compliant(DeletedFrom(now, BadNumbers(now, desired), 0), desired, cidr)
    ensures |BadNumbers(now, desired)| == |BadNumbers(initial, desired)|
  {
    hide PresentKeys, Assess, SshPresent, UnexpectedSsh, WebRulesAdded, SshRulesOf, BadNumbers, Compliant, Survivors;
    GrownIsReady(initial, now, added, missing, desired, cidr);
    DeletionCompletes(initial, now, added, desired, cidr);
    DeletionCount(initial, now, added, desired);
  }

  lemma PhaseStarts(rules: seq<Rule>, desired: set<Key>, cidr: Option<Cidr>)
    requires UnexpectedRules(rules, desired) == [] && UnexpectedSsh(rules, cidr) == []
    ensures Phase(rules, rules, [], desired, cidr)
  {
    NoUnexpectedMeansEmpty(rules, desired);
  }

  lemma DesiredPorts(ranges: seq<Cidr>)
    ensures forall key :: key in DesiredKeys(ranges) ==> key.port in WEB_PORTS
  {
  }

  lemma UnexpectedPart(rules: seq<Rule>, desired: set<Key>)
    ensures Assess(rules, desired).unexpected == UnexpectedRules(rules, desired)
  {
  }

  /** Compliance of a list nobody has to review: nothing to add and nothing to delete. */
  lemma CompliantMeans(rules: seq<Rule>, desired: set<Key>, cidr: Option<Cidr>)
    requires UnexpectedRules(rules, desired) == [] && UnexpectedSsh(rules, cidr) == []
    ensures Compliant(rules, desired, cidr) <==>
            SshPresent(rules, cidr) && Assess(rules, desired).missing == {} && BadNumbers(rules, desired) == {}
    ensures Assess(rules, desired).missing == desired - PresentKeys(rules, desired)
  {
  }

  lemma AssessedParts(rules: seq<Rule>, desired: set<Key>)
    ensures Assess(rules, desired).broad + Assess(rules, desired).stale == BadNumbers(rules, desired)
  {
  }

  lemma PhaseIsClean(initial: seq<Rule>, now: seq<Rule>, added: seq<Rule>, desired: set<Key>, cidr: Option<Cidr>)
    requires Phase(initial, now, added, desired, cidr)
    ensures UnexpectedSsh(now, cidr) == []
  {
  }

  /** SSH and every desired key are in place. */
  ghost predicate Ready(rules: seq<Rule>, desired: set<Key>, cidr: Option<Cidr>) {
    SshPresent(rules, cidr) && UnexpectedSsh(rules, cidr) == [] && desired <= PresentKeys(rules, desired)
  }

  /** One rule added or deleted, with the rule list around it. */
  datatype Change = Added(before: seq<Rule>, after: seq<Rule>) | Deleted(before: seq<Rule>, after: seq<Rule>)

  /** The log has grown, and every deletion in the new part was made on a list with
      SSH and all desired keys in place, and left them in place. */
  ghost predicate OrderKept(before: seq<Change>, after: seq<Change>, desired: set<Key>, cidr: Option<Cidr>) {
    && |before| <= |after| && after[..|before|] == before
    && forall i :: |before| <= i < |after| && after[i].Deleted? ==>
        Ready(after[i].before, desired, cidr) && Ready(after[i].after, desired, cidr)
  }

  lemma OrderStarts(log: seq<Change>, desired: set<Key>, cidr: Option<Cidr>)
    ensures OrderKept(log, log, desired, cidr)
  {
  }

  lemma OrderChains(a: seq<Change>, b: seq<Change>, c: seq<Change>, desired: set<Key>, cidr: Option<Cidr>)
    requires OrderKept(a, b, desired, cidr) && OrderKept(b, c, desired, cidr)
    ensures OrderKept(a, c, desired, cidr)
  {
    assert a == c[..|a|];
    forall i | |a| <= i < |c| && c[i].Deleted?
      ensures Ready(c[i].before, desired, cidr) && Ready(c[i].after, desired, cidr)
    {
      if i < |b| {
        assert c[i] == b[i];
      }
    }
  }

  /** `added` extends `had` by one web rule for each of the keys. */
  ghost predicate WebRulesAdded(had: seq<Rule>, added: seq<Rule>, keys: set<Key>) {
    && |had| + |keys| == |added|
    && (forall key :: key in keys ==> WebRule(key) in added)
    && (forall rule :: rule in added ==> rule in had || exists key :: key in keys && rule == WebRule(key))
  }

  lemma NoneAdded(had: seq<Rule>)
    ensures WebRulesAdded(had, had, {})
  {
  }

  lemma OneMoreAdded(had: seq<Rule>, added: seq<Rule>, keys: set<Key>, key: Key)
    requires WebRulesAdded(had, added, keys) && key !in keys
    ensures WebRulesAdded(had, added + [WebRule(key)], keys + {key})
  {
  }

  lemma AddedMultiset(initial: seq<Rule>, now: seq<Rule>, added: seq<Rule>, k: nat, rule: Rule)
    requires multiset(now) == multiset(initial) + multiset(added) && k <= |now|
    ensures multiset(Insert(now, k, rule)) == multiset(initial) + multiset(added + [rule])
  {
    InsertMultiset(now, k, rule);
  }

  lemma InsertWeb(initial: seq<Rule>, now: seq<Rule>, added: seq<Rule>, desired: set<Key>, cidr: Option<Cidr>,
                  key: Key, k: nat)
    requires Phase(initial, now, added, desired, cidr) && key in desired && key.port in WEB_PORTS && k <= |now|
    ensures Phase(initial, Insert(now, k, WebRule(key)), added + [WebRule(key)], desired, cidr)
    ensures SshPresent(Insert(now, k, WebRule(key)), cidr) == SshPresent(now, cidr)
    ensures PresentKeys(Insert(now, k, WebRule(key)), desired) == PresentKeys(now, desired) + {key}
  {
    hide Classify, IsSsh, Insert, Filter;
    var rule := WebRule(key);
    WebRuleClass(key, desired);
    AddedMultiset(initial, now, added, k, rule);
    InsertMultiset(now, k, rule);
    FilterInsert(IsSsh, now, k, rule);
    assert Filter(IsSsh, now[..k]) + ([] + Filter(IsSsh, now[k..])) == Filter(IsSsh, now);
    SshDependsOnSshRules(Insert(now, k, rule), now, cidr);
    assert rule in Insert(now, k, rule);
  }

  lemma InsertSshRule(initial: seq<Rule>, now: seq<Rule>, added: seq<Rule>, desired: set<Key>, cidr: Option<Cidr>,
                      rule: Rule, k: nat)
    requires Phase(initial, now, added, desired, cidr) && rule.target == SSH_TARGET && k <= |now|
    requires UnexpectedSsh(Insert(now, k, rule), cidr) == []
    ensures Phase(initial, Insert(now, k, rule), added + [rule], desired, cidr)
    ensures PresentKeys(Insert(now, k, rule), desired) == PresentKeys(now, desired)
  {
    SshRuleClass(rule, desired);
    AddedMultiset(initial, now, added, k, rule);
    InsertMultiset(now, k, rule);
  }

  lemma InsertRestricted(now: seq<Rule>, cidr: Cidr, k: nat)
    requires UnexpectedSsh(now, Some(cidr)) == [] && k <= |now|
    ensures UnexpectedSsh(Insert(now, k, SshRule(cidr)), Some(cidr)) == []
    ensures SshPresent(Insert(now, k, SshRule(cidr)), Some(cidr))
  {
    var rule := SshRule(cidr);
    var p := (r: Rule) => !AllowsFrom(r, cidr);
    var front, back := Filter(IsSsh, now[..k]), Filter(IsSsh, now[k..]);
    FilterInsert(IsSsh, now, k, rule);
    assert SshRules(Insert(now, k, rule)) == front + ([rule] + back) && SshRules(now) == front + back;
    FilterConcat(p, front, [rule] + back);
    FilterConcat(p, front, back);
    FilterCons(p, rule, back);
    assert (front + ([rule] + back))[|front|] == rule;
  }

  // ----- global mode

  predicate HasGlobal(rules: seq<Rule>, family: nat) {
    exists i :: 0 <= i < |rules| && IsSsh(rules[i]) && IsGlobal(rules[i]) && rules[i].family == family
  }

  lemma HasGlobalIn(rules: seq<Rule>, family: nat)
    ensures var ssh := SshRules(rules);
            HasGlobal(rules, family) <==> exists i :: 0 <= i < |ssh| && IsGlobal(ssh[i]) && ssh[i].family == family
  {
    var ssh := SshRules(rules);
    FilterAll(IsSsh, rules);
    if i :| 0 <= i < |rules| && IsSsh(rules[i]) && IsGlobal(rules[i]) && rules[i].family == family {
      assert rules[i] in ssh;
    }
    if i :| 0 <= i < |ssh| && IsGlobal(ssh[i]) && ssh[i].family == family {
      assert ssh[i] in ssh;
      assert ssh[i] in rules;
    }
  }

  /** An inserted global rule is there, beside those that were. */
  lemma InsertKeepsGlobal(now: seq<Rule>, family: nat, k: nat)
    requires k <= |now|
    ensures HasGlobal(Insert(now, k, GlobalSshRule(family)), family)
    ensures forall f :: HasGlobal(now, f) ==> HasGlobal(Insert(now, k, GlobalSshRule(family)), f)
    ensures forall f :: HasGlobal(Insert(now, k, GlobalSshRule(family)), f) ==> HasGlobal(now, f) || f == family
  {
    var later := Insert(now, k, GlobalSshRule(family));
    assert later[k] == GlobalSshRule(family);
    forall f | HasGlobal(now, f) ensures HasGlobal(later, f) {
      var i :| 0 <= i < |now| && IsSsh(now[i]) && IsGlobal(now[i]) && now[i].family == f;
      assert later[if i < k then i else i + 1] == now[i];
    }
    forall f | HasGlobal(later, f) ensures HasGlobal(now, f) || f == family {
      var i :| 0 <= i < |later| && IsSsh(later[i]) && IsGlobal(later[i]) && later[i].family == f;
      assert i == k || later[i] == now[if i < k then i else i - 1];
    }
  }

  lemma NewFamily(front: seq<Rule>, back: seq<Rule>, rule: Rule)
    requires UnexpectedGlobal(front + back, {}) == [] && IsGlobal(rule) && rule.family in {4, 6}
    requires forall r :: r in front + back ==> r.family != rule.family
    ensures UnexpectedGlobal(front + ([rule] + back), {}) == []
  {
    hide UnexpectedGlobal;
    var a, b := front + back, front + ([rule] + back);
    NoneUnexpected(a, {});
    NoneUnexpected(b, {});
    forall i | 0 <= i < |b| ensures b[i] == rule || b[i] in a {
      assert i < |front| ==> b[i] == a[i];
      assert i > |front| ==> b[i] == a[i - 1];
    }
    forall i, j | 0 <= i < j < |b| ensures b[i].family != b[j].family {
      if i == |front| {
        assert b[j] == a[j - 1];
      } else if j == |front| {
        assert b[i] == a[i];
      } else {
        assert b[i] == a[if i < |front| then i else i - 1];
        assert b[j] == a[if j < |front| then j else j - 1];
      }
    }
  }

  /** The seen-families loop reports nothing new when a family's first rule comes in. */
  lemma InsertGlobal(now: seq<Rule>, family: nat, k: nat)
    requires UnexpectedSsh(now, None) == [] && !HasGlobal(now, family) && family in {4, 6} && k <= |now|
    ensures UnexpectedSsh(Insert(now, k, GlobalSshRule(family)), None) == []
    ensures HasGlobal(Insert(now, k, GlobalSshRule(family)), family)
    ensures forall f :: HasGlobal(now, f) ==> HasGlobal(Insert(now, k, GlobalSshRule(family)), f)
    ensures forall f :: HasGlobal(Insert(now, k, GlobalSshRule(family)), f) ==> HasGlobal(now, f) || f == family
  {
    hide Filter, Insert, UnexpectedGlobal, HasGlobal;
    var rule := GlobalSshRule(family);
    FilterInsert(IsSsh, now, k, rule);
    var front, back := Filter(IsSsh, now[..k]), Filter(IsSsh, now[k..]);
    assert SshRules(Insert(now, k, rule)) == front + ([rule] + back) && SshRules(now) == front + back;
    NoneUnexpected(SshRules(now), {});
    HasGlobalIn(now, family);
    NewFamily(front, back, rule);
    InsertKeepsGlobal(now, family, k);
  }

  /** With nothing unexpected, global mode is complete once both families have a rule. */
  lemma BothFamilies(rules: seq<Rule>)
    requires UnexpectedSsh(rules, None) == []
    ensures SshPresent(rules, None) <==> HasGlobal(rules, 4) && HasGlobal(rules, 6)
  {
    var ssh := SshRules(rules);
    NoneUnexpected(ssh, {});
    FilterAll(IsGlobal, ssh);
    HasGlobalIn(rules, 4);
    HasGlobalIn(rules, 6);
    if |ssh| >= 3 {
      ThreeShareAFamily(ssh);
    }
  }

  lemma ThreeShareAFamily(ssh: seq<Rule>)
    requires |ssh| >= 3
    ensures (exists i :: 0 <= i < 3 && ssh[i].family !in {4, 6})
        || (exists i, j :: 0 <= i < j < 3 && ssh[i].family == ssh[j].family)
  {
    var a, b, c := ssh[0].family, ssh[1].family, ssh[2].family;
    if a == b || a == c || b == c {
    } else {
      assert a !in {4, 6} || b !in {4, 6} || c !in {4, 6};
    }
  }

  lemma ListedGlobalIsThere(rules: seq<Rule>, family: nat)
    ensures Listed(rules, GlobalSshRule(family)) <==> HasGlobal(rules, family)
  {
    if i :| 0 <= i < |rules| && SameRule(rules[i], GlobalSshRule(family)) {
      assert IsSsh(rules[i]) && IsGlobal(rules[i]);
    }
    if i :| 0 <= i < |rules| && IsSsh(rules[i]) && IsGlobal(rules[i]) && rules[i].family == family {
      assert rules[i].target.ports == [One(22)];
      assert SameRule(rules[i], GlobalSshRule(family));
    }
  }

  lemma ListedRestrictedIsPresent(rules: seq<Rule>, cidr: Cidr)
    requires Listed(rules, SshRule(cidr))
    ensures SshPresent(rules, Some(cidr))
  {
    var i :| 0 <= i < |rules| && SameRule(rules[i], SshRule(cidr));
    FilterAll(IsSsh, rules);
    assert rules[i] in SshRules(rules);
  }

  // ----- deletion

  lemma NumbersInRange(rules: seq<Rule>, desired: set<Key>)
    ensures forall n :: n in BadNumbers(rules, desired) ==> 1 <= n <= |rules|
  {
  }

  /** Deleting bad rules keeps SSH and the desired keys. */
  lemma DeletionKeepsReady(rules: seq<Rule>, bound: nat, desired: set<Key>, cidr: Option<Cidr>)
    requires Ready(rules, desired, cidr) && bound <= |rules|
    ensures Ready(DeletedFrom(rules, BadNumbers(rules, desired), bound), desired, cidr)
  {
    var marked := BadNumbers(rules, desired);
    forall n | 1 <= n <= |rules| && n in marked ensures !IsSsh(rules[n - 1]) && !HasKey(desired)(rules[n - 1]) {
      BadNumbersAre(rules, desired, n);
      BadIsNotSsh(rules[n - 1], desired);
    }
    FilterDeleted(IsSsh, rules, marked, bound);
    FilterDeleted(HasKey(desired), rules, marked, bound);
    SshDependsOnSshRules(DeletedFrom(rules, marked, bound), rules, cidr);
    PresentKeysOfFiltered(DeletedFrom(rules, marked, bound), rules, desired);
  }

  /** Deleting all bad rules of a ready list leaves a compliant list: the initial
      rules that are not bad, and the added ones. */
  lemma DeletionCompletes(initial: seq<Rule>, rules: seq<Rule>, added: seq<Rule>, desired: set<Key>, cidr: Option<Cidr>)
    requires Phase(initial, rules, added, desired, cidr) && Ready(rules, desired, cidr)
    ensures var final := DeletedFrom(rules, BadNumbers(rules, desired), 0);
            && final == Filter(IsKept(desired), rules)
            && Compliant(final, desired, cidr)
            && multiset(final) == multiset(Filter(IsKept(desired), initial)) + multiset(added)
  {
    var marked := BadNumbers(rules, desired);
    var final := DeletedFrom(rules, marked, 0);
    forall n | 1 <= n <= |rules| ensures n in marked <==> !IsKept(desired)(rules[n - 1]) {
      BadNumbersAre(rules, desired, n);
    }
    SurvivorsAreFiltered(IsKept(desired), rules, marked, 0);
    assert rules[0..] == rules && [] + Survivors(rules, marked, 0) == final;
    DeletionKeepsReady(rules, 0, desired, cidr);
    KeptIsClean(rules, desired);
    KeptMultiset(initial, rules, added, desired);
  }

  lemma KeptIsClean(rules: seq<Rule>, desired: set<Key>)
    requires NoneUnexpectedWeb(rules, desired)
    requires desired <= PresentKeys(Filter(IsKept(desired), rules), desired)
    ensures Assess(Filter(IsKept(desired), rules), desired) == Assessment({}, {}, {}, [])
  {
    hide Classify, Filter;
    var final := Filter(IsKept(desired), rules);
    FilterAll(IsKept(desired), rules);
    NoUnexpectedMeansEmpty(final, desired);
    KeptHasNoBad(rules, desired);
    assert Numbers(final, desired, Broad) == {} && Numbers(final, desired, Stale) == {};
  }

  lemma KeptHasNoBad(rules: seq<Rule>, desired: set<Key>)
    ensures BadNumbers(Filter(IsKept(desired), rules), desired) == {}
  {
    hide Classify, Filter;
    var final := Filter(IsKept(desired), rules);
    FilterAll(IsKept(desired), rules);
    forall n: nat ensures n !in BadNumbers(final, desired) {
      BadNumbersAre(final, desired, n);
      if 1 <= n <= |final| {
        assert final[n - 1] in final;
      }
    }
  }

  lemma KeptMultiset(initial: seq<Rule>, rules: seq<Rule>, added: seq<Rule>, desired: set<Key>)
    requires multiset(rules) == multiset(initial) + multiset(added)
    requires forall rule :: rule in added ==> !Bad(rule, desired)
    ensures multiset(Filter(IsKept(desired), rules)) == multiset(Filter(IsKept(desired), initial)) + multiset(added)
    ensures |Filter(IsBad(desired), rules)| == |Filter(IsBad(desired), initial)|
  {
    forall rule
      ensures multiset(Filter(IsKept(desired), rules))[rule]
          == (multiset(Filter(IsKept(desired), initial)) + multiset(added))[rule]
      ensures multiset(Filter(IsBad(desired), rules))[rule] == multiset(Filter(IsBad(desired), initial))[rule]
    {
      FilterMultiset(IsKept(desired), rules, rule);
      FilterMultiset(IsKept(desired), initial, rule);
      FilterMultiset(IsBad(desired), rules, rule);
      FilterMultiset(IsBad(desired), initial, rule);
      assert rule in added <==> rule in multiset(added);
    }
    assert multiset(Filter(IsBad(desired), rules)) == multiset(Filter(IsBad(desired), initial));
    assert |Filter(IsBad(desired), rules)| == |multiset(Filter(IsBad(desired), rules))|;
    assert |Filter(IsBad(desired), initial)| == |multiset(Filter(IsBad(desired), initial))|;
  }

  /** As many deletions as the plan announced from the initial list. */
  lemma DeletionCount(initial: seq<Rule>, rules: seq<Rule>, added: seq<Rule>, desired: set<Key>)
    requires multiset(rules) == multiset(initial) + multiset(added)
    requires forall rule :: rule in added ==> !Bad(rule, desired)
    ensures |BadNumbers(rules, desired)| == |BadNumbers(initial, desired)|
  {
    CountMarked(rules, desired);
    CountMarked(initial, desired);
    KeptMultiset(initial, rules, added, desired);
  }
}
