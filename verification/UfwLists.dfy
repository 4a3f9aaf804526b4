/** What inserting one rule, or deleting numbered rules, does to the assessment. */
module UfwLists {
  import opened Wrappers
  import opened Cidrs
  import opened Sequences
  import opened Deletion
  import opened UfwRules

  function Insert<T>(list: seq<T>, k: nat, x: T): seq<T>
    requires k <= |list|
  {
    list[..k] + [x] + list[k..]
  }

  predicate Bad(rule: Rule, desired: set<Key>) {
    Classify(rule, desired).Broad? || Classify(rule, desired).Stale?
  }

  function IsBad(desired: set<Key>): Rule -> bool {
    rule => Bad(rule, desired)
  }

  function IsKept(desired: set<Key>): Rule -> bool {
    rule => !Bad(rule, desired)
  }

  function HasKey(desired: set<Key>): Rule -> bool {
    rule => Classify(rule, desired).Has?
  }

  predicate NoneUnexpectedWeb(rules: seq<Rule>, desired: set<Key>) {
    forall rule :: rule in rules ==> !Classify(rule, desired).Unexpected?
  }

  /** The numbers to delete: the broad and the stale managed rules. */
  function BadNumbers(rules: seq<Rule>, desired: set<Key>): set<nat> {
    Numbers(rules, desired, Broad) + Numbers(rules, desired, Stale)
  }

  lemma BadNumbersAre(rules: seq<Rule>, desired: set<Key>, n: nat)
    ensures n in BadNumbers(rules, desired) <==> 1 <= n <= |rules| && Bad(rules[n - 1], desired)
  {
    if 1 <= n <= |rules| {
      assert ClassAt(rules, desired, n) == Classify(rules[n - 1], desired);
    }
  }

  lemma NoUnexpectedMeansEmpty(rules: seq<Rule>, desired: set<Key>)
    ensures UnexpectedRules(rules, desired) == [] <==> NoneUnexpectedWeb(rules, desired)
  {
    var p := (rule: Rule) => Classify(rule, desired).Unexpected?;
    FilterAll(p, rules);
    var reported := UnexpectedRules(rules, desired);
    if reported != [] {
      assert reported[0] in reported;
    }
  }

  lemma FilterInsert<T>(p: T -> bool, list: seq<T>, k: nat, x: T)
    requires k <= |list|
    ensures Filter(p, Insert(list, k, x)) ==
            Filter(p, list[..k]) + ((if p(x) then [x] else []) + Filter(p, list[k..]))
    ensures Filter(p, list) == Filter(p, list[..k]) + Filter(p, list[k..])
  {
    var front, back := list[..k], list[k..];
    assert list == front + back;
    FilterConcat(p, front, back);
    assert Insert(list, k, x) == front + ([x] + back);
    FilterConcat(p, front, [x] + back);
    FilterCons(p, x, back);
  }

  lemma InsertMultiset<T>(list: seq<T>, k: nat, x: T)
    requires k <= |list|
    ensures multiset(Insert(list, k, x)) == multiset(list) + multiset{x}
    ensures forall y :: y in Insert(list, k, x) <==> y in list || y == x
  {
    assert list == list[..k] + list[k..];
    assert multiset(Insert(list, k, x)) == multiset(list[..k]) + multiset{x} + multiset(list[k..]);
    forall y ensures y in Insert(list, k, x) <==> y in list || y == x {
      assert y in Insert(list, k, x) <==> y in multiset(Insert(list, k, x));
      assert y in list <==> y in multiset(list);
    }
  }

  /** Deleting elements that fail `p` does not change what `p` selects. */
  lemma {:induction false} FilterSurvivors<T>(p: T -> bool, list: seq<T>, marked: set<nat>, k: nat)
    requires k <= |list| && forall n :: k < n <= |list| && n in marked ==> !p(list[n - 1])
    ensures Filter(p, Survivors(list, marked, k)) == Filter(p, list[k..])
    decreases |list| - k
  {
    if k < |list| {
      FilterSurvivors(p, list, marked, k + 1);
      assert list[k..][1..] == list[k + 1..];
      var rest := Survivors(list, marked, k + 1);
      if k + 1 !in marked {
        assert ([list[k]] + rest)[1..] == rest;
      } else {
        assert [] + rest == rest;
        assert !p(list[k + 1 - 1]);
      }
    }
  }

  lemma FilterDeleted<T>(p: T -> bool, list: seq<T>, marked: set<nat>, bound: nat)
    requires bound <= |list| && forall n :: 1 <= n <= |list| && n in marked ==> !p(list[n - 1])
    ensures Filter(p, DeletedFrom(list, marked, bound)) == Filter(p, list)
  {
    FilterSurvivors(p, list, marked, bound);
    FilterConcat(p, list[..bound], Survivors(list, marked, bound));
    FilterConcat(p, list[..bound], list[bound..]);
    assert list == list[..bound] + list[bound..];
  }

  /** Deleting exactly the elements that fail `p` leaves what `p` selects. */
  lemma {:induction false} SurvivorsAreFiltered<T>(p: T -> bool, list: seq<T>, marked: set<nat>, k: nat)
    requires k <= |list| && forall n :: k < n <= |list| ==> (n in marked <==> !p(list[n - 1]))
    ensures Survivors(list, marked, k) == Filter(p, list[k..])
    decreases |list| - k
  {
    if k < |list| {
      SurvivorsAreFiltered(p, list, marked, k + 1);
      assert list[k..][1..] == list[k + 1..];
      assert k + 1 in marked <==> !p(list[k + 1 - 1]);
    }
  }

  lemma LastNumber(rules: seq<Rule>, desired: set<Key>, k: nat)
    requires |rules| == k + 1
    ensures k + 1 !in BadNumbers(rules[..k], desired)
    ensures BadNumbers(rules, desired)
        == BadNumbers(rules[..k], desired) + if Bad(rules[k], desired) then {k + 1} else {}
  {
    hide Bad, BadNumbers;
    forall n ensures n in BadNumbers(rules, desired) <==>
                     n in BadNumbers(rules[..k], desired) || (n == k + 1 && Bad(rules[k], desired))
    {
      BadNumbersAre(rules, desired, n);
      BadNumbersAre(rules[..k], desired, n);
    }
    BadNumbersAre(rules[..k], desired, k + 1);
  }

  lemma {:induction false} CountMarked(rules: seq<Rule>, desired: set<Key>)
    ensures |BadNumbers(rules, desired)| == |Filter(IsBad(desired), rules)|
  {
    if rules == [] {
      assert BadNumbers(rules, desired) == {};
    } else {
      hide Bad, BadNumbers, Filter;
      var k := |rules| - 1;
      CountMarked(rules[..k], desired);
      FilterLast(IsBad(desired), rules);
      LastNumber(rules, desired, k);
    }
  }

  /** Web rules, good or bad, are not SSH rules. */
  lemma BadIsNotSsh(rule: Rule, desired: set<Key>)
    requires Bad(rule, desired)
    ensures !IsSsh(rule)
  {
    if rule.target == SSH_TARGET {
      SshRuleClass(rule, desired);
    }
  }

  /** SSH checks look only at the SSH rules. */
  lemma SshDependsOnSshRules(a: seq<Rule>, b: seq<Rule>, cidr: Option<Cidr>)
    requires SshRules(a) == SshRules(b)
    ensures SshPresent(a, cidr) == SshPresent(b, cidr)
    ensures UnexpectedSsh(a, cidr) == UnexpectedSsh(b, cidr)
  {
  }

  lemma PresentKeysOfFiltered(a: seq<Rule>, b: seq<Rule>, desired: set<Key>)
    requires Filter(HasKey(desired), a) == Filter(HasKey(desired), b)
    ensures PresentKeys(a, desired) == PresentKeys(b, desired)
  {
    FilterAll(HasKey(desired), a);
    FilterAll(HasKey(desired), b);
    forall rule | Classify(rule, desired).Has? ensures rule in a <==> rule in b {
      assert rule in Filter(HasKey(desired), a) <==> rule in a;
      assert rule in Filter(HasKey(desired), b) <==> rule in b;
    }
  }

  // ----- `ufw allow`

  /** UFW takes two rules for the same when everything but the comment agrees; an
      Anywhere rule exists once per address family. */
  predicate SameRule(a: Rule, b: Rule) {
    a.target == b.target && a.source == b.source && a.action == b.action
        && (a.source.Anywhere? ==> a.family == b.family)
  }

  predicate Listed(rules: seq<Rule>, rule: Rule) {
    exists i :: 0 <= i < |rules| && SameRule(rules[i], rule)
  }

  lemma ListedWebRuleIsPresent(rules: seq<Rule>, key: Key, desired: set<Key>)
    requires Listed(rules, WebRule(key)) && key in desired && key.port in WEB_PORTS
    ensures key in PresentKeys(rules, desired)
  {
    var i :| 0 <= i < |rules| && SameRule(rules[i], WebRule(key));
    WebRuleClass(key, desired);
    assert Classify(rules[i], desired) == Has(key);
    assert rules[i] in rules;
  }
}
