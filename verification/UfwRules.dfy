/** The numbered UFW rule list and its classification
    (scripts/configure_cloudflare_ufw.py). A rule's number is its position, from 1. */
module UfwRules {
  import opened Wrappers
  import opened Cidrs
  import opened Sequences

  datatype Action = AllowIn | DenyIn | RejectIn | LimitIn

  datatype PortSpec = One(port: nat) | Span(low: nat, high: nat) {
    predicate Covers(p: nat) {
      match this
      case One(port) => port == p
      case Span(low, high) => low <= p <= high
    }
  }

  /** `80,443:500/tcp` and the like, or any other target text. */
  datatype Target = Tcp(ports: seq<PortSpec>) | OtherTarget(text: string)

  /** `Anywhere`, a CIDR block, or text that is neither; this is also what
      `normalized_source` compares. */
  datatype Source = Anywhere | Net(net: Cidr) | OtherSource(text: string)

  datatype Comment = Managed | AdminSsh | OtherComment(text: string)

  datatype Rule = Rule(target: Target, source: Source, comment: Comment, action: Action, family: nat)

  datatype Key = Key(port: nat, net: Cidr)

  const WEB_PORTS: seq<nat> := [80, 443]
  const SSH_TARGET := Tcp([One(22)])

  /** The web ports a target covers. */
  function WebPortSet(target: Target): set<nat> {
    if target.OtherTarget? then {}
    else set p | p in WEB_PORTS && exists i :: 0 <= i < |target.ports| && target.ports[i].Covers(p)
  }

  /** `Rule.web_ports` */
  method WebPorts(target: Target) returns (ports: set<nat>)
    ensures ports == WebPortSet(target)
  {
    ports := {};
    if target.OtherTarget? {
      return;
    }
    for k := 0 to |target.ports|
      invariant ports == set p | p in WEB_PORTS && exists i :: 0 <= i < k && target.ports[i].Covers(p)
    {
      match target.ports[k]
      case Span(lower, upper) =>
        for j := 0 to |WEB_PORTS|
          invariant ports == set p | p in WEB_PORTS
            && ((exists i :: 0 <= i < k && target.ports[i].Covers(p))
                || (p in WEB_PORTS[..j] && target.ports[k].Covers(p)))
        {
          if lower <= WEB_PORTS[j] <= upper {
            ports := ports + {WEB_PORTS[j]};
          }
        }
      case One(value) =>
        if value in WEB_PORTS {
          ports := ports + {value};
        }
    }
  }

  /** `Rule.port` */
  function PortOf(target: Target): Option<nat> {
    if target.Tcp? && |target.ports| == 1 && target.ports[0].One? && target.ports[0].port in {80, 443, 22}
    then Some(target.ports[0].port) else None
  }

  predicate Authorizes(action: Action) {
    action.AllowIn? || action.LimitIn?
  }

  /** `desired_rule_keys` */
  function DesiredKeys(ranges: seq<Cidr>): set<Key> {
    set net, port | net in ranges && port in WEB_PORTS :: Key(port, net)
  }

  datatype Class = Ignored | Has(key: Key) | Broad | Stale | Unexpected

  /** The branch `assess_rules` takes for one rule. */
  function Classify(rule: Rule, desired: set<Key>): Class {
    var web := WebPortSet(rule.target);
    var port := PortOf(rule.target);
    if web == {} then
      if Authorizes(rule.action) && rule.target != SSH_TARGET then Unexpected else Ignored
    else if |web| != 1 || port.None? || port.value !in WEB_PORTS then Unexpected
    else if !rule.action.AllowIn? then Unexpected
    else if rule.source.Anywhere? then Broad
    else if rule.source.Net? && Key(port.value, rule.source.net) in desired then Has(Key(port.value, rule.source.net))
    else if rule.comment.Managed? then Stale
    else Unexpected
  }

  datatype Assessment = Assessment(missing: set<Key>, broad: set<nat>, stale: set<nat>, unexpected: seq<Rule>)

  function PresentKeys(rules: seq<Rule>, desired: set<Key>): set<Key> {
    set rule | rule in rules && Classify(rule, desired).Has? :: Classify(rule, desired).key
  }

  /** The numbers of the rules of one class. */
  function Numbers(rules: seq<Rule>, desired: set<Key>, class_: Class): set<nat> {
    set n: nat | 1 <= n <= |rules| && ClassAt(rules, desired, n) == class_
  }

  function ClassAt(rules: seq<Rule>, desired: set<Key>, n: nat): Class
    requires 1 <= n <= |rules|
  {
    Classify(rules[n - 1], desired)
  }

  function UnexpectedRules(rules: seq<Rule>, desired: set<Key>): seq<Rule> {
    Filter((rule: Rule) => Classify(rule, desired).Unexpected?, rules)
  }

  function Assess(rules: seq<Rule>, desired: set<Key>): Assessment {
    Assessment(
      desired - PresentKeys(rules, desired),
      Numbers(rules, desired, Broad),
      Numbers(rules, desired, Stale),
      UnexpectedRules(rules, desired))
  }

  /** `assess_rules` */
  method AssessRules(rules: seq<Rule>, desired: set<Key>) returns (a: Assessment)
    ensures a == Assess(rules, desired)
  {
    var present: set<Key>, broad: set<nat>, stale: set<nat>, unexpected: seq<Rule> := {}, {}, {}, [];
    for k := 0 to |rules|
      invariant present == PresentKeys(rules[..k], desired)
      invariant broad == Numbers(rules[..k], desired, Broad)
      invariant stale == Numbers(rules[..k], desired, Stale)
      invariant unexpected == UnexpectedRules(rules[..k], desired)
    {
      var rule := rules[k];
      NextRule(rules, desired, k);
      var web := WebPorts(rule.target);
      if web == {} {
        if Authorizes(rule.action) && rule.target != SSH_TARGET {
          unexpected := unexpected + [rule];
        }
        continue;
      }
      var port := PortOf(rule.target);
      if |web| != 1 || port.None? || port.value !in WEB_PORTS {
        unexpected := unexpected + [rule];
        continue;
      }
      if !rule.action.AllowIn? {
        unexpected := unexpected + [rule];
        continue;
      }
      if rule.source.Anywhere? {
        broad := broad + {k + 1};
        continue;
      }
      if rule.source.Net? && Key(port.value, rule.source.net) in desired {
        present := present + {Key(port.value, rule.source.net)};
        continue;
      }
      if rule.comment.Managed? {
        stale := stale + {k + 1};
      } else {
        unexpected := unexpected + [rule];
      }
    }
    assert rules[..|rules|] == rules;
    return Assessment(desired - present, broad, stale, unexpected);
  }

  lemma NextNumbers(rules: seq<Rule>, desired: set<Key>, k: nat, c: Class)
    requires k < |rules|
    ensures Numbers(rules[..k + 1], desired, c)
        == Numbers(rules[..k], desired, c) + (if Classify(rules[k], desired) == c then {k + 1} else {})
  {
    hide Classify;
    forall n | 1 <= n <= k ensures ClassAt(rules[..k + 1], desired, n) == ClassAt(rules[..k], desired, n) {
    }
    assert ClassAt(rules[..k + 1], desired, k + 1) == Classify(rules[k], desired);
  }

  /** What one more rule adds to each part of the assessment. */
  lemma NextRule(rules: seq<Rule>, desired: set<Key>, k: nat)
    requires k < |rules|
    ensures var class_ := Classify(rules[k], desired);
            && PresentKeys(rules[..k + 1], desired)
                == PresentKeys(rules[..k], desired) + (if class_.Has? then {class_.key} else {})
            && (forall c ::
                  Numbers(rules[..k + 1], desired, c)
                  == Numbers(rules[..k], desired, c) + (if class_ == c then {k + 1} else {}))
            && UnexpectedRules(rules[..k + 1], desired)
                == UnexpectedRules(rules[..k], desired) + (if class_.Unexpected? then [rules[k]] else [])
  {
    hide Classify, Numbers;
    assert rules[..k + 1] == rules[..k] + [rules[k]];
    FilterConcat((rule: Rule) => Classify(rule, desired).Unexpected?, rules[..k], [rules[k]]);
    forall c ensures Numbers(rules[..k + 1], desired, c)
        == Numbers(rules[..k], desired, c) + (if Classify(rules[k], desired) == c then {k + 1} else {}) {
      NextNumbers(rules, desired, k, c);
    }
  }

  // ----- SSH

  predicate IsSsh(rule: Rule) {
    Authorizes(rule.action) && PortOf(rule.target) == Some(22)
  }

  /** `_ssh_authorization_rules` */
  function SshRules(rules: seq<Rule>): seq<Rule> {
    Filter(IsSsh, rules)
  }

  predicate IsGlobal(rule: Rule) {
    rule.action.AllowIn? && rule.source.Anywhere?
  }

  predicate AllowsFrom(rule: Rule, cidr: Cidr) {
    rule.action.AllowIn? && rule.source == Net(cidr)
  }

  /** `ssh_rule_present`; no CIDR means the global, key-only mode. */
  predicate SshPresent(rules: seq<Rule>, cidr: Option<Cidr>) {
    var ssh := SshRules(rules);
    match cidr
    case Some(c) => exists i :: 0 <= i < |ssh| && AllowsFrom(ssh[i], c)
    case None =>
      var global := Filter(IsGlobal, ssh);
      |global| == 2 && {global[0].family, global[1].family} == {4, 6}
  }

  /** The rules the global-mode loop reports, given the families seen before. */
  function UnexpectedGlobal(ssh: seq<Rule>, seen: set<nat>): seq<Rule> {
    if ssh == [] then []
    else if !IsGlobal(ssh[0]) || ssh[0].family !in {4, 6} || ssh[0].family in seen
    then [ssh[0]] + UnexpectedGlobal(ssh[1..], seen)
    else UnexpectedGlobal(ssh[1..], seen + {ssh[0].family})
  }

  function UnexpectedSsh(rules: seq<Rule>, cidr: Option<Cidr>): seq<Rule> {
    match cidr
    case Some(c) => Filter((rule: Rule) => !AllowsFrom(rule, c), SshRules(rules))
    case None => UnexpectedGlobal(SshRules(rules), {})
  }

  /** `unexpected_ssh_rules` */
  method UnexpectedSshRules(rules: seq<Rule>, cidr: Option<Cidr>) returns (unexpected: seq<Rule>)
    ensures unexpected == UnexpectedSsh(rules, cidr)
  {
    var ssh := SshRules(rules);
    if cidr.Some? {
      return Filter((rule: Rule) => !AllowsFrom(rule, cidr.value), ssh);
    }
    unexpected := [];
    var seen: set<nat> := {};
    for k := 0 to |ssh|
      invariant UnexpectedGlobal(ssh, {}) == unexpected + UnexpectedGlobal(ssh[k..], seen)
    {
      var rule := ssh[k];
      assert ssh[k..][1..] == ssh[k + 1..];
      if !IsGlobal(rule) || rule.family !in {4, 6} || rule.family in seen {
        assert unexpected + ([rule] + UnexpectedGlobal(ssh[k + 1..], seen))
            == unexpected + [rule] + UnexpectedGlobal(ssh[k + 1..], seen);
        unexpected := unexpected + [rule];
        continue;
      }
      seen := seen + {rule.family};
    }
  }

  /** The rule list authorises port 22 by exactly two rules, ALLOW from Anywhere, one
      per address family. */
  predicate ExactlyGlobal(rules: seq<Rule>) {
    var ssh := SshRules(rules);
    && |ssh| == 2
    && IsGlobal(ssh[0]) && IsGlobal(ssh[1])
    && {ssh[0].family, ssh[1].family} == {4, 6}
  }

  lemma {:induction false} NoneUnexpected(ssh: seq<Rule>, seen: set<nat>)
    ensures UnexpectedGlobal(ssh, seen) == [] <==>
            && (forall i :: 0 <= i < |ssh| ==> IsGlobal(ssh[i]) && ssh[i].family in {4, 6} && ssh[i].family !in seen)
            && (forall i, j :: 0 <= i < j < |ssh| ==> ssh[i].family != ssh[j].family)
  {
    if ssh != [] {
      NoneUnexpected(ssh[1..], seen + {ssh[0].family});
      assert forall i :: 1 <= i < |ssh| ==> ssh[i] == ssh[1..][i - 1];
    }
  }

  /** Global SSH mode is exact: the two checks together, loop over seen families
      included, say no more and no less than the counting statement. */
  lemma GlobalModeIsExact(rules: seq<Rule>)
    ensures SshPresent(rules, None) && UnexpectedSsh(rules, None) == [] <==> ExactlyGlobal(rules)
  {
    var ssh := SshRules(rules);
    NoneUnexpected(ssh, {});
    FilterAll(IsGlobal, ssh);
  }

  // ----- the rules the script adds

  function WebRule(key: Key): Rule {
    Rule(Tcp([One(key.port)]), Net(key.net), Managed, AllowIn, 4)
  }

  function SshRule(cidr: Cidr): Rule {
    Rule(SSH_TARGET, Net(cidr), AdminSsh, AllowIn, 4)
  }

  function GlobalSshRule(family: nat): Rule {
    Rule(SSH_TARGET, Anywhere, AdminSsh, AllowIn, family)
  }

  lemma WebRuleClass(key: Key, desired: set<Key>)
    requires key in desired && key.port in WEB_PORTS
    ensures Classify(WebRule(key), desired) == Has(key) && !IsSsh(WebRule(key))
  {
    var target := Tcp([One(key.port)]);
    forall p ensures p in WebPortSet(target) <==> p == key.port {
      assert target.ports[0].Covers(p) <==> p == key.port;
    }
    assert WebPortSet(target) == {key.port};
  }

  lemma SshRuleClass(rule: Rule, desired: set<Key>)
    requires rule.target == SSH_TARGET
    ensures Classify(rule, desired).Ignored?
  {
    forall p ensures p !in WebPortSet(SSH_TARGET) {
      assert SSH_TARGET.ports[0].Covers(p) <==> p == 22;
    }
    assert WebPortSet(SSH_TARGET) == {};
  }
}
