/** What the classification of the rules means, in terms of the rules alone. */
module UfwReview {
  import opened Wrappers
  import opened Cidrs
  import opened Sequences
  import opened UfwRules
  import opened UfwPackets
  import opened UfwLists
  import opened UfwPhases

  /** The rule covers port 80 or 443, by a list or a span or alone. */
  predicate ForWeb(rule: Rule) {
    && rule.target.Tcp?
    && exists i :: 0 <= i < |rule.target.ports| && (rule.target.ports[i].Covers(80) || rule.target.ports[i].Covers(443))
  }

  /** It allows exactly one of them, and nothing else. */
  predicate AllowsOnePort(rule: Rule) {
    rule.action.AllowIn? && rule.target in {Tcp([One(80)]), Tcp([One(443)])}
  }

  predicate FromRange(rule: Rule, ranges: seq<Cidr>) {
    rule.source.Net? && rule.source.net in ranges
  }

  /** A rule no operator has to look at: one for a single web port that the script put
      there, that is from a published range or from anywhere; SSH, whose rules are looked
      at separately; or one that lets nothing in and concerns no web port. */
  predicate Tolerable(rule: Rule, ranges: seq<Cidr>) {
    if ForWeb(rule) then
      AllowsOnePort(rule) && (rule.source.Anywhere? || FromRange(rule, ranges) || rule.comment.Managed?)
    else
      rule.action in {AllowIn, LimitIn} ==> rule.target == Tcp([One(22)])
  }

  lemma WebPortsAre(target: Target)
    ensures forall p :: p in WebPortSet(target) <==>
              p in {80, 443} && target.Tcp? && exists i :: 0 <= i < |target.ports| && target.ports[i].Covers(p)
  {
  }

  lemma PortIs(target: Target, p: nat)
    requires p in {22, 80, 443}
    ensures PortOf(target) == Some(p) <==> target == Tcp([One(p)])
  {
    if PortOf(target) == Some(p) {
      assert target.ports == [One(p)];
    }
  }

  lemma OnlyOneWebPort(target: Target, p: nat)
    requires target == Tcp([One(p)]) && p in {80, 443}
    ensures WebPortSet(target) == {p}
  {
    WebPortsAre(target);
    assert target.ports[0].Covers(p);
  }

  /** Each class, for the keys of a list of ranges. */
  lemma ClassMeans(rule: Rule, ranges: seq<Cidr>)
    ensures var class_ := Classify(rule, DesiredKeys(ranges));
            && (class_.Unexpected? <==> !Tolerable(rule, ranges))
            && (class_.Broad? <==> AllowsOnePort(rule) && rule.source.Anywhere?)
            && (class_.Stale? <==> && AllowsOnePort(rule) && rule.comment.Managed?
                                   && !rule.source.Anywhere? && !FromRange(rule, ranges))
            && (forall port, net :: class_ == Has(Key(port, net)) <==>
                  && rule.action.AllowIn? && port in {80, 443} && rule.target == Tcp([One(port)])
                  && rule.source == Net(net) && net in ranges)
  {
    hide WebPortSet, PortOf;
    WebPortsAre(rule.target);
    PortIs(rule.target, 80);
    PortIs(rule.target, 443);
    if rule.target == Tcp([One(80)]) {
      OnlyOneWebPort(rule.target, 80);
    }
    if rule.target == Tcp([One(443)]) {
      OnlyOneWebPort(rule.target, 443);
    }
    assert WebPortSet(rule.target) != {} <==> ForWeb(rule) by {
      if ForWeb(rule) {
        assert 80 in WebPortSet(rule.target) || 443 in WebPortSet(rule.target);
      }
    }
    assert forall port, net :: Key(port, net) in DesiredKeys(ranges) <==> port in {80, 443} && net in ranges;
  }

  /** The four parts of an assessment: the pairs of a web port and a range that no rule
      allows; the numbers of the rules that allow a web port from anywhere; those of the
      script's own rules for a web port from a source that is no longer published; and
      the rules an operator has to look at. */
  lemma AssessmentMeans(rules: seq<Rule>, ranges: seq<Cidr>)
    ensures var a := Assess(rules, DesiredKeys(ranges));
            && (forall port, net :: Key(port, net) in a.missing <==>
                  && port in {80, 443} && net in ranges
                  && forall rule :: rule in rules ==>
                      !(rule.action.AllowIn? && rule.target == Tcp([One(port)]) && rule.source == Net(net)))
            && (forall n :: n in a.broad <==>
                  1 <= n <= |rules| && AllowsOnePort(rules[n - 1]) && rules[n - 1].source.Anywhere?)
            && (forall n :: n in a.stale <==>
                  && 1 <= n <= |rules| && AllowsOnePort(rules[n - 1]) && rules[n - 1].comment.Managed?
                  && !rules[n - 1].source.Anywhere? && !FromRange(rules[n - 1], ranges))
            && (forall rule :: rule in a.unexpected <==> rule in rules && !Tolerable(rule, ranges))
  {
    hide Classify, Tolerable, AllowsOnePort, FromRange, DesiredKeys;
    var desired := DesiredKeys(ranges);
    DesiredAre(ranges);
    forall rule ensures rule in UnexpectedRules(rules, desired) <==> rule in rules && !Tolerable(rule, ranges) {
      FilterAll((r: Rule) => Classify(r, desired).Unexpected?, rules);
      ClassMeans(rule, ranges);
    }
    forall n | 1 <= n <= |rules|
      ensures ClassAt(rules, desired, n) == Broad <==> AllowsOnePort(rules[n - 1]) && rules[n - 1].source.Anywhere?
      ensures ClassAt(rules, desired, n) == Stale <==>
              && AllowsOnePort(rules[n - 1]) && rules[n - 1].comment.Managed?
              && !rules[n - 1].source.Anywhere? && !FromRange(rules[n - 1], ranges)
    {
      ClassMeans(rules[n - 1], ranges);
      assert ClassAt(rules, desired, n) == Classify(rules[n - 1], desired);
    }
    forall port, net
      ensures Key(port, net) in PresentKeys(rules, desired) <==>
              && port in {80, 443} && net in ranges
              && exists rule :: rule in rules && rule.action.AllowIn? && rule.target == Tcp([One(port)])
                                && rule.source == Net(net)
    {
      PresentMeans(rules, ranges, port, net);
    }
  }

  lemma DesiredAre(ranges: seq<Cidr>)
    ensures forall port, net :: Key(port, net) in DesiredKeys(ranges) <==> port in {80, 443} && net in ranges
  {
  }

  lemma PresentMeans(rules: seq<Rule>, ranges: seq<Cidr>, port: nat, net: Cidr)
    ensures Key(port, net) in PresentKeys(rules, DesiredKeys(ranges)) <==>
            && port in {80, 443} && net in ranges
            && exists rule :: rule in rules && rule.action.AllowIn? && rule.target == Tcp([One(port)])
                              && rule.source == Net(net)
  {
    hide Classify, DesiredKeys;
    var desired := DesiredKeys(ranges);
    if Key(port, net) in PresentKeys(rules, desired) {
      var rule :| rule in rules && Classify(rule, desired).Has? && Classify(rule, desired).key == Key(port, net);
      ClassMeans(rule, ranges);
      assert Classify(rule, desired) == Has(Key(port, net));
    }
    if rule :| && rule in rules && rule.action.AllowIn? && rule.target == Tcp([One(port)]) && rule.source == Net(net)
               && port in {80, 443} && net in ranges {
      ClassMeans(rule, ranges);
      assert Classify(rule, desired) == Has(Key(port, net));
    }
  }

  // ----- review

  predicate ForSsh(rule: Rule) {
    rule.action in {AllowIn, LimitIn} && rule.target == Tcp([One(22)])
  }

  /** No rule for an operator to look at: every SSH rule allows from the one network, or
      in global mode from anywhere, once per address family; every other is tolerable. */
  predicate Reviewable(rules: seq<Rule>, ranges: seq<Cidr>, cidr: Option<Cidr>) {
    && (forall rule :: rule in rules ==> Tolerable(rule, ranges))
    && (forall rule :: rule in rules && ForSsh(rule) ==> SshAllowed(rule, cidr))
    && (cidr.None? ==> FamiliesDiffer(ForSsh, rules))
  }

  predicate SshAllowed(rule: Rule, cidr: Option<Cidr>) {
    && rule.action.AllowIn?
    && match cidr
       case Some(c) => rule.source == Net(c)
       case None => rule.source.Anywhere? && rule.family in {4, 6}
  }

  /** No two of the selected rules are of one family. */
  predicate FamiliesDiffer(p: Rule -> bool, list: seq<Rule>) {
    forall i, j :: 0 <= i < j < |list| && p(list[i]) && p(list[j]) ==> list[i].family != list[j].family
  }

  lemma FamiliesDifferStep(p: Rule -> bool, list: seq<Rule>)
    requires list != []
    ensures FamiliesDiffer(p, list) <==>
            && FamiliesDiffer(p, list[1..])
            && (p(list[0]) ==> forall x :: x in list[1..] && p(x) ==> list[0].family != x.family)
  {
    var tail := list[1..];
    assert forall i :: 1 <= i < |list| ==> list[i] == tail[i - 1];
    if && FamiliesDiffer(p, tail)
       && (p(list[0]) ==> forall x :: x in tail && p(x) ==> list[0].family != x.family)
    {
      forall i, j | 0 <= i < j < |list| && p(list[i]) && p(list[j]) ensures list[i].family != list[j].family {
        assert list[j] == tail[j - 1] && list[j] in tail;
      }
    }
    if FamiliesDiffer(p, list) {
      forall i, j | 0 <= i < j < |tail| && p(tail[i]) && p(tail[j]) ensures tail[i].family != tail[j].family {
        assert tail[i] == list[i + 1] && tail[j] == list[j + 1];
      }
    }
  }

  lemma {:induction false} FamiliesOfFiltered(p: Rule -> bool, list: seq<Rule>)
    ensures FamiliesDiffer(p, Filter(p, list)) == FamiliesDiffer(p, list)
  {
    hide FamiliesDiffer;
    if list != [] {
      FamiliesDifferStep(p, list);
      FamiliesOfFiltered(p, list[1..]);
      FilterAll(p, list[1..]);
      if p(list[0]) {
        var kept := Filter(p, list);
        FamiliesDifferStep(p, kept);
        assert kept[1..] == Filter(p, list[1..]);
      } else {
        assert Filter(p, list) == Filter(p, list[1..]);
      }
    }
  }

  lemma SshIs(rule: Rule)
    ensures IsSsh(rule) <==> ForSsh(rule)
  {
    PortIs(rule.target, 22);
  }

  /** The two modes of the SSH check, in terms of the rules. */
  lemma UnexpectedSshFrom(rules: seq<Rule>, c: Cidr)
    ensures UnexpectedSsh(rules, Some(c)) == [] <==>
            forall rule :: rule in rules && ForSsh(rule) ==> SshAllowed(rule, Some(c))
  {
    hide ForSsh, Filter, IsSsh;
    var p := (rule: Rule) => !AllowsFrom(rule, c);
    FilterAll(IsSsh, rules);
    FilterAll(p, SshRules(rules));
    HasMember(UnexpectedSsh(rules, Some(c)));
    forall rule ensures IsSsh(rule) <==> ForSsh(rule) {
      SshIs(rule);
    }
  }

  lemma NoneUnexpectedAmong(p: Rule -> bool, ssh: seq<Rule>)
    requires forall rule :: rule in ssh ==> p(rule)
    ensures UnexpectedGlobal(ssh, {}) == [] <==>
            (forall rule :: rule in ssh ==> SshAllowed(rule, None)) && FamiliesDiffer(p, ssh)
  {
    hide UnexpectedGlobal;
    NoneUnexpected(ssh, {});
    assert forall i :: 0 <= i < |ssh| ==> ssh[i] in ssh;
    assert forall i :: 0 <= i < |ssh| ==>
        (SshAllowed(ssh[i], None) <==> IsGlobal(ssh[i]) && ssh[i].family in {4, 6} && ssh[i].family !in {});
  }

  lemma SameFamilies(p: Rule -> bool, q: Rule -> bool, list: seq<Rule>)
    requires forall rule :: p(rule) == q(rule)
    ensures FamiliesDiffer(p, list) == FamiliesDiffer(q, list)
  {
  }

  lemma UnexpectedSshGlobal(rules: seq<Rule>)
    ensures UnexpectedSsh(rules, None) == [] <==>
            && (forall rule :: rule in rules && ForSsh(rule) ==> SshAllowed(rule, None))
            && FamiliesDiffer(ForSsh, rules)
  {
    hide ForSsh, Filter, IsSsh, UnexpectedGlobal, FamiliesDiffer, SshAllowed;
    forall rule ensures IsSsh(rule) <==> ForSsh(rule) {
      SshIs(rule);
    }
    FilterAll(IsSsh, rules);
    NoneUnexpectedAmong(IsSsh, SshRules(rules));
    FamiliesOfFiltered(IsSsh, rules);
    SameFamilies(IsSsh, ForSsh, rules);
  }

  /** What the script reports for review is reported exactly if there is such a rule. */
  lemma ReviewableIff(rules: seq<Rule>, ranges: seq<Cidr>, cidr: Option<Cidr>)
    ensures Reviewable(rules, ranges, cidr) <==>
            UnexpectedRules(rules, DesiredKeys(ranges)) == [] && UnexpectedSsh(rules, cidr) == []
  {
    hide Tolerable, ForSsh, DesiredKeys, UnexpectedSsh, UnexpectedRules;
    AssessmentMeans(rules, ranges);
    if cidr.Some? {
      UnexpectedSshFrom(rules, cidr.value);
    } else {
      UnexpectedSshGlobal(rules);
    }
    UnexpectedPart(rules, DesiredKeys(ranges));
    HasMember(UnexpectedRules(rules, DesiredKeys(ranges)));
  }

  // ----- what hardening leaves

  /** A rule hardening leaves alone: it concerns no web port, or a published range. */
  predicate Stays(rule: Rule, ranges: seq<Cidr>) {
    ForWeb(rule) ==> FromRange(rule, ranges)
  }

  function Staying(ranges: seq<Cidr>): Rule -> bool {
    rule => Stays(rule, ranges)
  }

  /** The rules after hardening: exactly the initial ones that stay, any number of times
      over, and the added ones; so every rule an operator put in for some source stays. */
  ghost predicate Cleaned(initial: seq<Rule>, final: seq<Rule>, added: seq<Rule>, ranges: seq<Cidr>, cidr: Option<Cidr>)
  {
    && multiset(final) == multiset(Filter(Staying(ranges), initial)) + multiset(added)
    && (forall rule: Rule :: !rule.comment.Managed? && !rule.source.Anywhere? ==>
          multiset(final)[rule] >= multiset(initial)[rule])
    && forall rule :: rule in added ==> Puttable(rule, ranges, cidr)
  }

  /** A rule the script may put in. */
  predicate Puttable(rule: Rule, ranges: seq<Cidr>, cidr: Option<Cidr>) {
    || (exists port, net :: port in {80, 443} && net in ranges && rule == WebRule(Key(port, net)))
    || (cidr.Some? && rule == SshRule(cidr.value))
    || (cidr.None? && rule in {GlobalSshRule(4), GlobalSshRule(6)})
  }

  lemma {:induction false} SameFilter<T>(p: T -> bool, q: T -> bool, list: seq<T>)
    requires forall x :: x in list ==> p(x) == q(x)
    ensures Filter(p, list) == Filter(q, list)
  {
    if list != [] {
      assert list[0] in list;
      SameFilter(p, q, list[1..]);
    }
  }

  lemma CompletedIsCleaned(initial: seq<Rule>, final: seq<Rule>, added: seq<Rule>, ranges: seq<Cidr>,
                           cidr: Option<Cidr>)
    requires Reviewable(initial, ranges, cidr)
    requires var desired := DesiredKeys(ranges);
             Completed(initial, final, added, desired - PresentKeys(initial, desired), desired, cidr)
    ensures Cleaned(initial, final, added, ranges, cidr)
  {
    hide Classify, Tolerable, PresentKeys, Compliant;
    var desired := DesiredKeys(ranges);
    forall rule | rule in initial ensures Stays(rule, ranges) == IsKept(desired)(rule) {
      ClassMeans(rule, ranges);
      TolerableStays(rule, ranges);
    }
    SameFilter(Staying(ranges), IsKept(desired), initial);
    forall rule: Rule | !rule.comment.Managed? && !rule.source.Anywhere?
      ensures multiset(final)[rule] >= multiset(initial)[rule]
    {
      FilterMultiset(Staying(ranges), initial, rule);
      if rule in initial {
        TolerableStays(rule, ranges);
      }
    }
    var ssh :| SshRulesOf(ssh, cidr) && WebRulesAdded(ssh, added, desired - PresentKeys(initial, desired));
    forall rule | rule in added ensures Puttable(rule, ranges, cidr) {
      if rule !in ssh {
        var key :| key in desired && rule == WebRule(key);
        assert rule == WebRule(Key(key.port, key.net));
      }
    }
  }

  /** Of the tolerable rules, hardening deletes those from anywhere and the script's own
      ones from elsewhere than a published range. */
  lemma TolerableStays(rule: Rule, ranges: seq<Cidr>)
    requires Tolerable(rule, ranges)
    ensures Stays(rule, ranges) <==>
            !(AllowsOnePort(rule) && !FromRange(rule, ranges) && (rule.source.Anywhere? || rule.comment.Managed?))
  {
    if AllowsOnePort(rule) {
      assert rule.target.ports[0].Covers(80) || rule.target.ports[0].Covers(443);
    }
  }

  // ----- one list of ranges after another

  /** Whatever the script puts in, for whichever ranges, is no rule to look at later. */
  lemma PuttableIsTolerable(rule: Rule, ranges: seq<Cidr>, others: seq<Cidr>, cidr: Option<Cidr>)
    requires Puttable(rule, ranges, cidr)
    ensures Tolerable(rule, others)
  {
  }

  /** A list hardened for some ranges is reviewable for others if the initial one was. */
  lemma CleanedIsReviewable(initial: seq<Rule>, final: seq<Rule>, added: seq<Rule>, ranges: seq<Cidr>,
                            others: seq<Cidr>, cidr: Option<Cidr>)
    requires Cleaned(initial, final, added, ranges, cidr) && Reviewable(initial, others, cidr)
    requires Reviewable(final, ranges, cidr)
    ensures Reviewable(final, others, cidr)
  {
    hide Tolerable, ForSsh, Puttable, Stays;
    forall rule | rule in final ensures Tolerable(rule, others) {
      assert rule in multiset(final);
      if rule in multiset(added) {
        PuttableIsTolerable(rule, ranges, others, cidr);
      } else {
        assert rule in multiset(Filter(Staying(ranges), initial));
        FilterAll(Staying(ranges), initial);
      }
    }
  }
}
