/** The rules of the two web gates, their canonical reading, and what a chain of
    them does to a packet (scripts/cloudflare_docker_firewall.py).

    The script has a pair of near-identical functions for the raw/PREROUTING gate
    and the DOCKER-USER gate; here one definition takes the gate as a parameter. */
module GateRules {
  import opened Wrappers
  import opened Cidrs
  import opened PersistedState

  datatype Gate = PreDnat | DockerUser

  /** One token of an `iptables -S` line, read as what it is: one of the options
      and values the gates use (`-s`, `-p`, `-m`, `-i`, `-j`, `--ctdir`,
      `--ctorigdstport`, `--dport`, `tcp`, `conntrack`, `ORIGINAL`, `RETURN`, `DROP`),
      the name of the gate's managed chain, digits, text that passes `isdigit` but not
      `int` (such as a superscript two), CIDR text, an interface name, or any other
      text. A line that `shlex.split` cannot split, for an unbalanced quote, is the
      single token `Unsplit`. */
  datatype Token =
    | Source | Protocol | Module | InIface | Jump
    | CtDir | CtOrigDstPort | Dport
    | Tcp | Conntrack | Original | ReturnTarget | DropTarget
    | Managed
    | Digits(n: nat)
    | DigitLike(text: string)
    | Block(net: Cidr)
    | Iface(name: string)
    | Other(text: string)
    | Unsplit(text: string)

  /** The tokens of a rule, without the leading `-A CHAIN`. */
  type Rule = seq<Token>

  // ----- building

  function Port(gate: Gate, port: nat): Rule {
    match gate
    case PreDnat => [Dport, Digits(port)]
    case DockerUser =>
      [Module, Conntrack, CtDir, Original, CtOrigDstPort, Digits(port)]
  }

  function AllowRule(gate: Gate, source: Cidr, port: nat): Rule {
    [Source, Block(source), Protocol, Tcp] + Port(gate, port) + [Jump, ReturnTarget]
  }

  function DropRule(gate: Gate, port: nat): Rule {
    [Protocol, Tcp] + Port(gate, port) + [Jump, DropTarget]
  }

  const FALL_THROUGH: Rule := [Jump, ReturnTarget]

  function HookRule(iface: string): Rule {
    [InIface, Iface(iface), Jump, Managed]
  }

  /** Whether a rule's line ends in `-j` and the managed chain. */
  predicate IsJump(rule: Rule) {
    |rule| >= 2 && rule[|rule| - 2..] == [Jump, Managed]
  }

  lemma JumpEnds(rule: Rule)
    ensures IsJump(rule) <==> exists front :: rule == front + [Jump, Managed]
  {
    if IsJump(rule) {
      assert rule == rule[..|rule| - 2] + [Jump, Managed];
    }
    if front :| rule == front + [Jump, Managed] {
      assert rule[|rule| - 2..] == [Jump, Managed];
    }
  }

  function AllowRules(gate: Gate, ranges: seq<Cidr>, port: nat): (rules: seq<Rule>)
    ensures |rules| == |ranges|
    ensures forall i :: 0 <= i < |ranges| ==> rules[i] == AllowRule(gate, ranges[i], port)
  {
    seq(|ranges|, i requires 0 <= i < |ranges| => AllowRule(gate, ranges[i], port))
  }

  function PortRules(gate: Gate, ranges: seq<Cidr>, port: nat): seq<Rule> {
    AllowRules(gate, ranges, port) + [DropRule(gate, port)]
  }

  /** The managed chain for a range list: per port one RETURN for each range and
      one DROP, then a final RETURN. */
  function ChainRules(gate: Gate, ranges: seq<Cidr>): seq<Rule> {
    PortRules(gate, ranges, 80) + PortRules(gate, ranges, 443) + [FALL_THROUGH]
  }

  /** `build_chain_rules` and `build_pregate_chain_rules` */
  method BuildChainRules(gate: Gate, ranges: seq<Cidr>) returns (rules: seq<Rule>)
    ensures rules == ChainRules(gate, ranges)
  {
    rules := [];
    for p := 0 to |PORTS|
      invariant p == 0 ==> rules == []
      invariant p == 1 ==> rules == PortRules(gate, ranges, 80)
      invariant p == 2 ==> rules == PortRules(gate, ranges, 80) + PortRules(gate, ranges, 443)
    {
      ghost var before := rules;
      for i := 0 to |ranges|
        invariant rules == before + AllowRules(gate, ranges, PORTS[p])[..i]
      {
        rules := rules + [AllowRule(gate, ranges[i], PORTS[p])];
      }
      rules := rules + [DropRule(gate, PORTS[p])];
      assert rules == before + PortRules(gate, ranges, PORTS[p]);
    }
    rules := rules + [FALL_THROUGH];
  }

  /** How the kernel lists an installed rule: a port match comes back with an
      explicit `-m tcp` in front of it. */
  function Printed(rule: Rule): Rule {
    if rule == [] then []
    else if rule[0] == Dport then [Module, Tcp] + rule
    else [rule[0]] + Printed(rule[1..])
  }

  /** An option and its value. */
  datatype Pair = Pair(option: Token, value: Token)

  function Pairs(rule: Rule): (pairs: seq<Pair>)
    ensures |pairs| == |rule| / 2
  {
    if |rule| < 2 then [] else [Pair(rule[0], rule[1])] + Pairs(rule[2..])
  }

  /** The same option/value pairs, in whatever order. */
  predicate SameOptions(a: Rule, b: Rule) {
    |a| % 2 == 0 && |b| % 2 == 0 && multiset(Pairs(a)) == multiset(Pairs(b))
  }

  /** What a chain restored for a range list may list: rule for rule what was built,
      port matches spelled out, the options of each rule in the order the kernel's
      extensions print them. */
  predicate InstalledAs(gate: Gate, lines: seq<Rule>, ranges: seq<Cidr>) {
    var rules := ChainRules(gate, ranges);
    |lines| == |rules| && forall i :: 0 <= i < |rules| ==> SameOptions(lines[i], Printed(rules[i]))
  }

  // ----- canonical form

  datatype Canon = FallThrough | Web(port: nat, source: Option<Cidr>, drop: bool)

  /** A rule is read, or rejected with the script's own error, or makes
      `ip_network` or `int` raise ValueError, which callers do not catch. */
  datatype Reading = Read(canon: Canon) | Rejected | Unreadable

  datatype Fields = Fields(
    source: Option<Cidr>,
    protocol: Option<Token>,
    matcher: Option<Token>,
    direction: Option<Token>,
    port: Option<nat>,
    jump: Option<Token>)

  const NO_FIELDS := Fields(None, None, None, None, None, None)

  datatype Scan = Scanned(fields: Fields) | ScanRejected | ScanCrashed

  function PortOption(gate: Gate): Token {
    match gate
    case PreDnat => Dport
    case DockerUser => CtOrigDstPort
  }

  /** The effect of one option/value pair on the fields read so far. */
  function ReadPair(gate: Gate, option: Token, value: Token, fields: Fields): Scan {
    if option == Source then
      if value.Block? && value.net.Strict() then Scanned(fields.(source := Some(value.net))) else ScanCrashed
    else if option == Protocol then Scanned(fields.(protocol := Some(value)))
    else if option == Module then Scanned(fields.(matcher := Some(value)))
    else if option == CtDir && gate.DockerUser? then Scanned(fields.(direction := Some(value)))
    else if option == PortOption(gate) then
      if value.Digits? then Scanned(fields.(port := Some(value.n)))
      else if value.DigitLike? then ScanCrashed
      else ScanRejected
    else if option == Jump then Scanned(fields.(jump := Some(value)))
    else ScanRejected
  }

  function ScanFrom(gate: Gate, tokens: Rule, fields: Fields): Scan {
    if tokens == [] then Scanned(fields)
    else if |tokens| == 1 then ScanRejected
    else
      var next := ReadPair(gate, tokens[0], tokens[1], fields);
      if next.Scanned? then ScanFrom(gate, tokens[2..], next.fields) else next
  }

  predicate FieldsOk(gate: Gate, f: Fields) {
    && f.protocol == Some(Tcp)
    && (match gate
        case PreDnat => f.matcher in {None, Some(Tcp)}
        case DockerUser => f.matcher == Some(Conntrack) && f.direction == Some(Original))
    && f.port.Some? && f.port.value in PORTS
    && f.jump in {Some(ReturnTarget), Some(DropTarget)}
    && (f.jump == Some(ReturnTarget) ==> f.source.Some?)
    && (f.jump == Some(DropTarget) ==> f.source.None?)
  }

  function Conclude(gate: Gate, f: Fields): Reading {
    if FieldsOk(gate, f) then Read(Web(f.port.value, f.source, f.jump == Some(DropTarget))) else Rejected
  }

  function Canonical(gate: Gate, tokens: Rule): Reading {
    if tokens == FALL_THROUGH then Read(FallThrough) else
    match ScanFrom(gate, tokens, NO_FIELDS)
    case Scanned(fields) => Conclude(gate, fields)
    case ScanRejected => Rejected
    case ScanCrashed => Unreadable
  }

  /** What reads as a web rule is for port 80 or 443, and lets a source through or drops
      everything: there is no third form. */
  lemma TwoWebForms(gate: Gate, tokens: Rule)
    ensures var reading := Canonical(gate, tokens);
            reading.Read? && reading.canon.Web? ==>
              reading.canon.port in {80, 443} && (reading.canon.drop <==> reading.canon.source.None?)
  {
  }

  /** `canonical_chain_rule` and `canonical_pregate_chain_rule` */
  method CanonicalChainRule(gate: Gate, tokens: Rule) returns (r: Reading)
    ensures r == Canonical(gate, tokens)
  {
    if tokens == FALL_THROUGH {
      return Read(FallThrough);
    }
    var fields := NO_FIELDS;
    var index := 0;
    while index < |tokens|
      invariant 0 <= index <= |tokens|
      invariant ScanFrom(gate, tokens, NO_FIELDS) == ScanFrom(gate, tokens[index..], fields)
    {
      if index + 1 >= |tokens| {
        return Rejected;
      }
      var next := ReadPair(gate, tokens[index], tokens[index + 1], fields);
      if next.ScanRejected? {
        return Rejected;
      }
      if next.ScanCrashed? {
        return Unreadable;
      }
      fields := next.fields;
      assert tokens[index..][2..] == tokens[index + 2..];
      index := index + 2;
    }
    return Conclude(gate, fields);
  }

  /** The canonical sequence of a listing: the first rule that cannot be read
      decides the failure. */
  datatype Listing = Sequence(canons: seq<Canon>) | ListRejected | ListCrashed

  function LineReading(gate: Gate, line: Rule): Reading {
    if |line| == 1 && line[0].Unsplit? then Unreadable else Canonical(gate, line)
  }

  function CanonicalAll(gate: Gate, lines: seq<Rule>): Listing {
    if lines == [] then Sequence([]) else
    match LineReading(gate, lines[0])
    case Rejected => ListRejected
    case Unreadable => ListCrashed
    case Read(canon) =>
      var rest := CanonicalAll(gate, lines[1..]);
      if rest.Sequence? then Sequence([canon] + rest.canons) else rest
  }

  function Prepend(canons: seq<Canon>, rest: Listing): Listing {
    if rest.Sequence? then Sequence(canons + rest.canons) else rest
  }

  /** What the next line adds to the lines read so far. */
  lemma NextLine(gate: Gate, lines: seq<Rule>, k: nat, canons: seq<Canon>)
    requires k < |lines|
    ensures Prepend(canons, CanonicalAll(gate, lines[k..])) ==
            match LineReading(gate, lines[k])
            case Rejected => ListRejected
            case Unreadable => ListCrashed
            case Read(canon) => Prepend(canons + [canon], CanonicalAll(gate, lines[k + 1..]))
  {
    hide LineReading;
    assert lines[k..][1..] == lines[k + 1..];
    var reading, tail := LineReading(gate, lines[k]), CanonicalAll(gate, lines[k + 1..]);
    if reading.Read? && tail.Sequence? {
      assert canons + ([reading.canon] + tail.canons) == canons + [reading.canon] + tail.canons;
    }
  }

  /** `canonical_chain_output` and `canonical_pregate_chain_output` */
  method CanonicalChainOutput(gate: Gate, lines: seq<Rule>) returns (r: Listing)
    ensures r == CanonicalAll(gate, lines)
  {
    hide Canonical, CanonicalAll;
    var result: seq<Canon> := [];
    assert lines[0..] == lines;
    NothingPrepended(CanonicalAll(gate, lines));
    for k := 0 to |lines|
      invariant CanonicalAll(gate, lines) == Prepend(result, CanonicalAll(gate, lines[k..]))
    {
      NextLine(gate, lines, k, result);
      if |lines[k]| == 1 && lines[k][0].Unsplit? {
        return ListCrashed;
      }
      var reading := CanonicalChainRule(gate, lines[k]);
      if reading.Rejected? {
        return ListRejected;
      }
      if reading.Unreadable? {
        return ListCrashed;
      }
      result := result + [reading.canon];
    }
    NoLines(gate);
    assert lines[|lines|..] == [] && result + [] == result;
    return Sequence(result);
  }

  lemma NoLines(gate: Gate)
    ensures CanonicalAll(gate, []) == Sequence([])
  {
  }

  lemma NothingPrepended(listing: Listing)
    ensures Prepend([], listing) == listing
  {
    if listing.Sequence? {
      assert [] + listing.canons == listing.canons;
    }
  }

  /** The canonical sequence of the chain built for a range list. */
  function AllowCanons(ranges: seq<Cidr>, port: nat): (canons: seq<Canon>)
    ensures |canons| == |ranges|
    ensures forall i :: 0 <= i < |ranges| ==> canons[i] == Web(port, Some(ranges[i]), false)
  {
    seq(|ranges|, i requires 0 <= i < |ranges| => Web(port, Some(ranges[i]), false))
  }

  function ChainCanons(ranges: seq<Cidr>): seq<Canon> {
    AllowCanons(ranges, 80) + [Web(80, None, true)] + AllowCanons(ranges, 443) + [Web(443, None, true), FallThrough]
  }
}
