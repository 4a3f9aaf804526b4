/** What a compliant rule list admits, under first-match evaluation with the
    default-deny policy that `verbose_status` requires. */
module UfwPackets {
  import opened Wrappers
  import opened Cidrs
  import opened Sequences
  import opened UfwRules

  datatype Inbound = Inbound(family: Family, src: nat, tcp: bool, dport: nat)

  /** The meaning of target and source texts the script does not interpret. Every
      statement holds for all of them. */
  datatype Texts = Texts(target: (string, Inbound) -> bool, source: (string, Inbound) -> bool)

  function FamilyNumber(family: Family): nat {
    if family.V4? then 4 else 6
  }

  predicate TargetMatches(target: Target, pkt: Inbound, texts: Texts) {
    match target
    case Tcp(ports) => pkt.tcp && exists i :: 0 <= i < |ports| && ports[i].Covers(pkt.dport)
    case OtherTarget(text) => texts.target(text, pkt)
  }

  predicate SourceMatches(rule: Rule, pkt: Inbound, texts: Texts) {
    match rule.source
    case Anywhere => rule.family == FamilyNumber(pkt.family)
    case Net(net) => net.family == pkt.family && net.Has(pkt.src)
    case OtherSource(text) => texts.source(text, pkt)
  }

  predicate RuleMatches(rule: Rule, pkt: Inbound, texts: Texts) {
    TargetMatches(rule.target, pkt, texts) && SourceMatches(rule, pkt, texts)
  }

  function FirstMatch(rules: seq<Rule>, pkt: Inbound, texts: Texts): Option<Rule> {
    if rules == [] then None
    else if RuleMatches(rules[0], pkt, texts) then Some(rules[0])
    else FirstMatch(rules[1..], pkt, texts)
  }

  /** Some ALLOW or LIMIT rule comes first; nothing matching means denied. */
  predicate Admitted(rules: seq<Rule>, pkt: Inbound, texts: Texts) {
    var first := FirstMatch(rules, pkt, texts);
    first.Some? && Authorizes(first.value.action)
  }

  /** What `_verify_compliant` checks of the rule list. */
  predicate Compliant(rules: seq<Rule>, desired: set<Key>, cidr: Option<Cidr>) {
    && SshPresent(rules, cidr)
    && UnexpectedSsh(rules, cidr) == []
    && Assess(rules, desired) == Assessment({}, {}, {}, [])
  }

  lemma {:induction false} FirstMatchMatches(rules: seq<Rule>, pkt: Inbound, texts: Texts)
    ensures var first := FirstMatch(rules, pkt, texts);
            if first.Some? then first.value in rules && RuleMatches(first.value, pkt, texts)
            else forall rule :: rule in rules ==> !RuleMatches(rule, pkt, texts)
  {
    if rules != [] && !RuleMatches(rules[0], pkt, texts) {
      FirstMatchMatches(rules[1..], pkt, texts);
    }
  }

  /** The class of every rule of a clean assessment. */
  lemma CleanClasses(rules: seq<Rule>, desired: set<Key>, rule: Rule)
    requires Assess(rules, desired) == Assessment({}, {}, {}, []) && rule in rules
    ensures Classify(rule, desired).Ignored? || Classify(rule, desired).Has?
  {
    hide Classify, Filter;
    FilterAll((r: Rule) => Classify(r, desired).Unexpected?, rules);
    assert rule !in UnexpectedRules(rules, desired);
    var k :| 0 <= k < |rules| && rules[k] == rule;
    assert ClassAt(rules, desired, k + 1) == Classify(rule, desired);
    assert k + 1 !in Numbers(rules, desired, Broad) && k + 1 !in Numbers(rules, desired, Stale);
  }

  /** A rule in the SSH list passes the mode's test. */
  lemma SshRulesFit(rules: seq<Rule>, cidr: Option<Cidr>, rule: Rule)
    requires UnexpectedSsh(rules, cidr) == [] && rule in rules && IsSsh(rule)
    ensures if cidr.Some? then AllowsFrom(rule, cidr.value) else IsGlobal(rule)
  {
    FilterAll(IsSsh, rules);
    var ssh := SshRules(rules);
    assert rule in ssh;
    if cidr.Some? {
      FilterAll((r: Rule) => !AllowsFrom(r, cidr.value), ssh);
      assert rule !in UnexpectedSsh(rules, cidr);
    } else {
      NoneUnexpected(ssh, {});
    }
  }

  /** Compliance bounds everything admitted: only TCP to a web port from a network
      desired for that port, or to port 22 as the SSH mode allows. */
  lemma CompliantAdmitsOnly(rules: seq<Rule>, desired: set<Key>, cidr: Option<Cidr>, pkt: Inbound, texts: Texts)
    requires Compliant(rules, desired, cidr) && Admitted(rules, pkt, texts)
    ensures pkt.tcp
    ensures || (exists key :: key in desired && key.port == pkt.dport && pkt.dport in WEB_PORTS
                              && key.net.family == pkt.family && key.net.Has(pkt.src))
            || (pkt.dport == 22 && (cidr.Some? ==> cidr.value.family == pkt.family && cidr.value.Has(pkt.src)))
  {
    FirstMatchMatches(rules, pkt, texts);
    var rule := FirstMatch(rules, pkt, texts).value;
    CleanClasses(rules, desired, rule);
    if Classify(rule, desired).Has? {
      assert Classify(rule, desired).key in desired;
    } else {
      assert rule.target == SSH_TARGET;
      SshRulesFit(rules, cidr, rule);
    }
  }

  // ----- when wanted packets are let in

  /** The readings under which no text, and every text, applies to every packet. */
  const NARROWEST := Texts((text, pkt) => false, (text, pkt) => false)
  const WIDEST := Texts((text, pkt) => true, (text, pkt) => true)

  /** Every other reading lies between. */
  lemma ReadingsBetween(rule: Rule, pkt: Inbound, texts: Texts)
    ensures RuleMatches(rule, pkt, NARROWEST) ==> RuleMatches(rule, pkt, texts)
    ensures RuleMatches(rule, pkt, texts) ==> RuleMatches(rule, pkt, WIDEST)
    ensures rule.target.Tcp? && !rule.source.OtherSource? ==>
              RuleMatches(rule, pkt, NARROWEST) == RuleMatches(rule, pkt, WIDEST)
  {
  }

  /** The rule lets the packet in, whatever the texts mean. */
  predicate LetsIn(rule: Rule, pkt: Inbound) {
    Authorizes(rule.action) && RuleMatches(rule, pkt, NARROWEST)
  }

  /** The rule is a DENY or REJECT that may be meant for the packet. */
  predicate MayDeny(rule: Rule, pkt: Inbound) {
    !Authorizes(rule.action) && RuleMatches(rule, pkt, WIDEST)
  }

  /** Such a denial stands before the first rule that lets the packet in. */
  predicate DenialFirst(rules: seq<Rule>, pkt: Inbound) {
    rules != [] && !LetsIn(rules[0], pkt) && (MayDeny(rules[0], pkt) || DenialFirst(rules[1..], pkt))
  }

  /** No rule that authorises has a target or source the script does not interpret. */
  predicate PlainAllows(rules: seq<Rule>) {
    forall rule :: rule in rules && Authorizes(rule.action) ==> rule.target.Tcp? && !rule.source.OtherSource?
  }

  /** With a rule that lets the packet in, it is admitted under every reading of the
      texts exactly if no denial can come first. */
  lemma {:induction false} AdmittedUnlessDenied(rules: seq<Rule>, pkt: Inbound, texts: Texts)
    requires PlainAllows(rules) && exists rule :: rule in rules && LetsIn(rule, pkt)
    ensures !DenialFirst(rules, pkt) ==> Admitted(rules, pkt, texts)
    ensures DenialFirst(rules, pkt) ==> !Admitted(rules, pkt, WIDEST)
  {
    hide RuleMatches;
    var first := rules[0];
    assert first in rules;
    ReadingsBetween(first, pkt, texts);
    ReadingsBetween(first, pkt, WIDEST);
    if !LetsIn(first, pkt) {
      assert forall rule :: rule in rules ==> rule == first || rule in rules[1..];
      AdmittedUnlessDenied(rules[1..], pkt, texts);
    }
  }

  /** Without denials, nothing stands before. */
  lemma {:induction false} NoDenials(rules: seq<Rule>, pkt: Inbound)
    requires forall rule :: rule in rules ==> Authorizes(rule.action)
    ensures !DenialFirst(rules, pkt)
  {
    if rules != [] {
      assert rules[0] in rules;
      NoDenials(rules[1..], pkt);
    }
  }

  lemma CompliantIsPlain(rules: seq<Rule>, desired: set<Key>, cidr: Option<Cidr>)
    requires Compliant(rules, desired, cidr)
    ensures PlainAllows(rules)
  {
    hide Assess, UnexpectedSsh, SshPresent;
    forall rule | rule in rules && Authorizes(rule.action) ensures rule.target.Tcp? && !rule.source.OtherSource? {
      CleanClasses(rules, desired, rule);
      if Classify(rule, desired).Ignored? {
        SshRulesFit(rules, cidr, rule);
      }
    }
  }

  /** Exactly when a compliant list lets in a packet of a desired port and network,
      whatever the texts it does not interpret mean: when no DENY or REJECT rule that
      can match it, which then has another target than a TCP port list, stands before
      the first rule that lets the packet in. */
  lemma DesiredIsAdmittedIff(rules: seq<Rule>, desired: set<Key>, cidr: Option<Cidr>, key: Key, pkt: Inbound)
    requires Compliant(rules, desired, cidr) && key in desired && key.port in WEB_PORTS
    requires pkt.tcp && pkt.dport == key.port && key.net.family == pkt.family && key.net.Has(pkt.src)
    ensures (forall texts :: Admitted(rules, pkt, texts)) <==> !DenialFirst(rules, pkt)
    ensures forall rule :: rule in rules && MayDeny(rule, pkt) ==> rule.target.OtherTarget?
  {
    hide Classify, Admitted, DenialFirst, SshPresent, UnexpectedSsh;
    CompliantIsPlain(rules, desired, cidr);
    assert key !in Assess(rules, desired).missing;
    var has :| has in rules && Classify(has, desired).Has? && Classify(has, desired).key == key;
    HolderLetsIn(has, desired, key, pkt);
    forall texts ensures !DenialFirst(rules, pkt) ==> Admitted(rules, pkt, texts) {
      AdmittedUnlessDenied(rules, pkt, texts);
    }
    AdmittedUnlessDenied(rules, pkt, WIDEST);
    forall rule | rule in rules && MayDeny(rule, pkt) ensures rule.target.OtherTarget? {
      CleanClasses(rules, desired, rule);
      SilentDenial(rule, desired, pkt);
    }
  }

  lemma HolderLetsIn(rule: Rule, desired: set<Key>, key: Key, pkt: Inbound)
    requires Classify(rule, desired) == Has(key)
    requires pkt.tcp && pkt.dport == key.port && key.net.family == pkt.family && key.net.Has(pkt.src)
    ensures LetsIn(rule, pkt)
  {
    assert rule.target.ports[0].Covers(pkt.dport);
  }

  /** A rule that neither authorises nor is reported, and may be meant for a web packet,
      has a target the script does not read as a port list. */
  lemma SilentDenial(rule: Rule, desired: set<Key>, pkt: Inbound)
    requires Classify(rule, desired).Ignored? || Classify(rule, desired).Has?
    requires MayDeny(rule, pkt) && pkt.dport in WEB_PORTS
    ensures rule.target.OtherTarget?
  {
    assert rule.target.Tcp? ==> pkt.dport in WebPortSet(rule.target);
  }

  /** The same for SSH: TCP to port 22 from the one network, or in global mode from
      anywhere, of either family. */
  lemma SshIsAdmittedIff(rules: seq<Rule>, desired: set<Key>, cidr: Option<Cidr>, pkt: Inbound)
    requires Compliant(rules, desired, cidr) && pkt.tcp && pkt.dport == 22
    requires cidr.Some? ==> cidr.value.family == pkt.family && cidr.value.Has(pkt.src)
    ensures (forall texts :: Admitted(rules, pkt, texts)) <==> !DenialFirst(rules, pkt)
  {
    hide Assess, Admitted, DenialFirst, UnexpectedSsh;
    CompliantIsPlain(rules, desired, cidr);
    var rule := SshHolder(rules, cidr, pkt);
    forall texts ensures !DenialFirst(rules, pkt) ==> Admitted(rules, pkt, texts) {
      AdmittedUnlessDenied(rules, pkt, texts);
    }
    AdmittedUnlessDenied(rules, pkt, WIDEST);
  }

  lemma SshHolder(rules: seq<Rule>, cidr: Option<Cidr>, pkt: Inbound) returns (rule: Rule)
    requires SshPresent(rules, cidr) && pkt.tcp && pkt.dport == 22
    requires cidr.Some? ==> cidr.value.family == pkt.family && cidr.value.Has(pkt.src)
    ensures rule in rules && LetsIn(rule, pkt)
  {
    var ssh := SshRules(rules);
    FilterAll(IsSsh, rules);
    if cidr.Some? {
      var i :| 0 <= i < |ssh| && AllowsFrom(ssh[i], cidr.value);
      rule := ssh[i];
    } else {
      var global := Filter(IsGlobal, ssh);
      FilterAll(IsGlobal, ssh);
      assert FamilyNumber(pkt.family) in {global[0].family, global[1].family};
      rule := if global[0].family == FamilyNumber(pkt.family) then global[0] else global[1];
      assert rule in global;
    }
    assert rule in ssh;
    assert rule.target.ports[0].Covers(22);
  }

  // ----- the whole meaning of compliance

  /** What hardening is to let in: TCP to a web port from a published range, and SSH as
      its mode says. */
  predicate Wanted(ranges: seq<Cidr>, cidr: Option<Cidr>, pkt: Inbound) {
    && pkt.tcp
    && (|| (pkt.dport in {80, 443}
            && exists net :: net in ranges && net.family == pkt.family && net.Has(pkt.src))
        || (pkt.dport == 22 && (cidr.Some? ==> cidr.value.family == pkt.family && cidr.value.Has(pkt.src))))
  }

  /** Nothing else is let in, under any reading of the texts, and that is under every
      reading, exactly as far as no denial comes first. */
  ghost predicate AdmitsWanted(rules: seq<Rule>, ranges: seq<Cidr>, cidr: Option<Cidr>) {
    && (forall pkt, texts :: Admitted(rules, pkt, texts) ==> Wanted(ranges, cidr, pkt))
    && forall pkt :: Wanted(ranges, cidr, pkt) ==>
        ((forall texts :: Admitted(rules, pkt, texts)) <==> !DenialFirst(rules, pkt))
  }

  lemma CompliantAdmitsWanted(rules: seq<Rule>, ranges: seq<Cidr>, cidr: Option<Cidr>)
    requires Compliant(rules, DesiredKeys(ranges), cidr)
    ensures AdmitsWanted(rules, ranges, cidr)
  {
    hide Compliant, Admitted, DenialFirst;
    var desired := DesiredKeys(ranges);
    assert 80 in WEB_PORTS && 443 in WEB_PORTS;
    forall pkt, texts | Admitted(rules, pkt, texts) ensures Wanted(ranges, cidr, pkt) {
      CompliantAdmitsOnly(rules, desired, cidr, pkt, texts);
    }
    forall pkt | Wanted(ranges, cidr, pkt)
      ensures (forall texts :: Admitted(rules, pkt, texts)) <==> !DenialFirst(rules, pkt)
    {
      if pkt.dport == 22 {
        SshIsAdmittedIff(rules, desired, cidr, pkt);
      } else {
        var net :| net in ranges && net.family == pkt.family && net.Has(pkt.src);
        assert Key(pkt.dport, net) in desired;
        DesiredIsAdmittedIff(rules, desired, cidr, Key(pkt.dport, net), pkt);
      }
    }
  }

  // ----- compliant lists that do not let in what is wanted

  /** `Anywhere DENY IN Anywhere` */
  const DENY_ALL := Rule(OtherTarget("Anywhere"), Anywhere, OtherComment(""), DenyIn, 4)

  /** A list the check passes as compliant: a deny-all for IPv4 in front of the rules
      for one network. */
  function DeniedList(net: Cidr): seq<Rule> {
    [DENY_ALL, WebRule(Key(80, net)), WebRule(Key(443, net)), SshRule(net)]
  }

  predicate CleanList(rules: seq<Rule>, desired: set<Key>) {
    forall rule :: rule in rules ==> Classify(rule, desired).Ignored? || Classify(rule, desired).Has?
  }

  lemma DeniedListIsCompliant(net: Cidr)
    ensures Compliant(DeniedList(net), DesiredKeys([net]), Some(net))
  {
    hide Classify, IsSsh;
    var rules, desired := DeniedList(net), DesiredKeys([net]);
    assert 80 in WEB_PORTS && 443 in WEB_PORTS;
    assert Key(80, net) in desired && Key(443, net) in desired;
    WebRuleClass(Key(80, net), desired);
    WebRuleClass(Key(443, net), desired);
    SshRuleClass(SshRule(net), desired);
    SshRuleFits(net);
    DenyAllIgnored(desired);
    assert forall rule :: rule in rules ==> rule in {rules[0], rules[1], rules[2], rules[3]};
    assert CleanList(rules, desired);
    CleanAssessment(rules, desired);
    SshOnly(rules[..3], rules[3], net);
    assert rules == rules[..3] + [rules[3]];
    PresentHere(rules, desired, rules[1]);
    PresentHere(rules, desired, rules[2]);
    forall key | key in desired ensures key in PresentKeys(rules, desired) {
      assert key.port == 80 || key.port == 443;
    }
  }

  lemma SshRuleFits(net: Cidr)
    ensures IsSsh(SshRule(net)) && AllowsFrom(SshRule(net), net)
  {
  }

  lemma PresentHere(rules: seq<Rule>, desired: set<Key>, rule: Rule)
    requires rule in rules && Classify(rule, desired).Has?
    ensures Classify(rule, desired).key in PresentKeys(rules, desired)
  {
  }

  lemma DenyAllIgnored(desired: set<Key>)
    ensures Classify(DENY_ALL, desired).Ignored? && !IsSsh(DENY_ALL)
  {
  }

  lemma CleanAssessment(rules: seq<Rule>, desired: set<Key>)
    requires CleanList(rules, desired)
    ensures Numbers(rules, desired, Broad) == {} && Numbers(rules, desired, Stale) == {}
    ensures UnexpectedRules(rules, desired) == []
  {
    hide Classify;
    forall n: nat | 1 <= n <= |rules| ensures ClassAt(rules, desired, n) !in {Broad, Stale} {
      assert rules[n - 1] in rules;
    }
    var p := (rule: Rule) => Classify(rule, desired).Unexpected?;
    FilterAll(p, rules);
    HasMember(UnexpectedRules(rules, desired));
  }

  lemma SshOnly(front: seq<Rule>, ssh: Rule, net: Cidr)
    requires forall rule :: rule in front ==> !IsSsh(rule)
    requires IsSsh(ssh) && AllowsFrom(ssh, net)
    ensures SshPresent(front + [ssh], Some(net)) && UnexpectedSsh(front + [ssh], Some(net)) == []
  {
    hide IsSsh;
    FilterConcat(IsSsh, front, [ssh]);
    FilterAll(IsSsh, front);
    HasMember(Filter(IsSsh, front));
    FilterCons(IsSsh, ssh, []);
    assert SshRules(front + [ssh]) == [ssh];
    var p := (rule: Rule) => !AllowsFrom(rule, net);
    FilterCons(p, ssh, []);
    assert [ssh] + [] == [ssh];
    assert SshRules(front + [ssh])[0] == ssh;
  }

  /** Compliance does not mean that what is desired is let in: this compliant list
      admits no IPv4 packet at all when `Anywhere` means what it does in UFW. */
  lemma CompliantMayDenyAll(net: Cidr, pkt: Inbound, texts: Texts)
    requires pkt.family == V4 && texts.target("Anywhere", pkt)
    ensures Compliant(DeniedList(net), DesiredKeys([net]), Some(net))
    ensures !Admitted(DeniedList(net), pkt, texts)
  {
    DeniedListIsCompliant(net);
    assert RuleMatches(DENY_ALL, pkt, texts);
  }

  /** A compliant list without DENY and REJECT rules admits all that is wanted. */
  lemma CompliantWithoutDenials(rules: seq<Rule>, ranges: seq<Cidr>, cidr: Option<Cidr>, pkt: Inbound, texts: Texts)
    requires Compliant(rules, DesiredKeys(ranges), cidr) && Wanted(ranges, cidr, pkt)
    requires forall rule :: rule in rules ==> Authorizes(rule.action)
    ensures Admitted(rules, pkt, texts)
  {
    hide Compliant, Admitted, DenialFirst, Wanted;
    CompliantAdmitsWanted(rules, ranges, cidr);
    NoDenials(rules, pkt);
  }
}
