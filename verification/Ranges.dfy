/** Validation of the published Cloudflare range lists and of the persisted
    firewall state (scripts/cloudflare_docker_firewall.py). */
module Ranges {
  import opened Wrappers
  import opened Cidrs
  import opened Sequences

  const MAX_RANGES := 256

  /** How a line's text compares with the canonical text of its network. */
  datatype Text = Exact | CaseVariant | NonCanonical

  /** One non-blank, stripped line: text `ip_network(line, strict=False)` cannot
      read, or a network with possibly non-canonical text. */
  datatype Line = Malformed | Net(net: Cidr, text: Text)

  /** The checks applied to a single line. Which blocks are globally routable is
      the standard library's table, passed in as `isGlobal`. */
  predicate LineOk(line: Line, family: Family, isGlobal: Cidr -> bool) {
    && line.Net?
    && line.net.Strict()
    && line.net.family == family
    && !line.text.NonCanonical?
    && isGlobal(line.net)
    && line.net.len != 0
  }

  function Nets(lines: seq<Line>): (nets: seq<Cidr>)
    requires forall line :: line in lines ==> line.Net?
    ensures |nets| == |lines|
    ensures forall i :: 0 <= i < |lines| ==> nets[i] == lines[i].net
  {
    seq(|lines|, i requires 0 <= i < |lines| => lines[i].net)
  }

  predicate PairwiseApart(nets: seq<Cidr>) {
    forall i, j :: 0 <= i < j < |nets| ==> !Overlaps(nets[i], nets[j])
  }

  predicate Acceptable(lines: seq<Line>, family: Family, isGlobal: Cidr -> bool) {
    && 0 < |lines| <= MAX_RANGES
    && (forall i :: 0 <= i < |lines| ==> LineOk(lines[i], family, isGlobal))
    && PairwiseApart(Nets(lines))
  }

  // ----- sorted(networks, key=lambda item: (int(item.network_address), item.prefixlen))

  predicate Before(a: Cidr, b: Cidr) {
    a.base < b.base || (a.base == b.base && a.len <= b.len)
  }

  predicate Ordered(nets: seq<Cidr>) {
    forall i, j :: 0 <= i < j < |nets| ==> Before(nets[i], nets[j])
  }

  function Insert(net: Cidr, nets: seq<Cidr>): seq<Cidr> {
    if nets == [] || Before(net, nets[0]) then [net] + nets
    else [nets[0]] + Insert(net, nets[1..])
  }

  function Sorted(nets: seq<Cidr>): seq<Cidr> {
    if nets == [] then [] else Insert(nets[0], Sorted(nets[1..]))
  }

  lemma {:induction false} InsertKeeps(net: Cidr, nets: seq<Cidr>)
    requires Ordered(nets)
    ensures Ordered(Insert(net, nets))
    ensures multiset(Insert(net, nets)) == multiset([net]) + multiset(nets)
  {
    if nets == [] || Before(net, nets[0]) {
    } else {
      InsertKeeps(net, nets[1..]);
      var rest := Insert(net, nets[1..]);
      assert nets == [nets[0]] + nets[1..];
      forall k | 0 <= k < |rest| ensures Before(nets[0], rest[k]) {
        assert rest[k] in multiset(rest);
      }
    }
  }

  lemma {:induction false} SortedIsOrderedPermutation(nets: seq<Cidr>)
    ensures Ordered(Sorted(nets))
    ensures multiset(Sorted(nets)) == multiset(nets)
  {
    if nets != [] {
      SortedIsOrderedPermutation(nets[1..]);
      InsertKeeps(nets[0], Sorted(nets[1..]));
      assert nets == [nets[0]] + nets[1..];
    }
  }

  predicate OneFamily(nets: seq<Cidr>, family: Family) {
    forall i :: 0 <= i < |nets| ==> nets[i].family == family
  }

  lemma {:induction false} OrderedIsUnique(a: seq<Cidr>, b: seq<Cidr>, family: Family)
    requires Ordered(a) && Ordered(b) && OneFamily(a, family) && OneFamily(b, family)
    requires multiset(a) == multiset(b)
    ensures a == b
  {
    assert |a| == |multiset(a)| == |multiset(b)| == |b|;
    if a != [] {
      assert a[0] in multiset(b) && b[0] in multiset(a);
      assert a[0] == b[0];
      assert a == [a[0]] + a[1..] && b == [b[0]] + b[1..];
      assert multiset(a[1..]) == multiset(a) - multiset([a[0]]);
      assert multiset(b[1..]) == multiset(b) - multiset([b[0]]);
      OrderedIsUnique(a[1..], b[1..], family);
    }
  }

  // ----- validate_ranges

  function Validated(lines: seq<Line>, family: Family, isGlobal: Cidr -> bool): Option<seq<Cidr>> {
    if Acceptable(lines, family, isGlobal) then Some(Sorted(Nets(lines))) else None
  }

  method ValidateRanges(lines: seq<Line>, family: Family, isGlobal: Cidr -> bool)
    returns (r: Option<seq<Cidr>>)
    ensures r.Some? <==> Acceptable(lines, family, isGlobal)
    ensures r == Validated(lines, family, isGlobal)
  {
    if lines == [] || |lines| > MAX_RANGES {
      return None;
    }
    var networks: seq<Cidr> := [];
    var seen: set<Cidr> := {};
    for k := 0 to |lines|
      invariant forall i :: 0 <= i < k ==> LineOk(lines[i], family, isGlobal)
      invariant networks == Nets(lines[..k])
      invariant seen == set n | n in networks
    {
      var line := lines[k];
      if line.Malformed? || !line.net.Strict() {
        return None;
      }
      var network := line.net;
      if network.family != family || line.text.NonCanonical? || !isGlobal(network) || network.len == 0 {
        return None;
      }
      if network in seen {
        var i :| 0 <= i < k && networks[i] == network;
        SelfOverlaps(network);
        assert i + 1 <= k < |lines|;
        DuplicateRejected(lines, i, k);
        return None;
      }
      seen := seen + {network};
      networks := networks + [network];
      assert lines[..k + 1] == lines[..k] + [line];
    }
    assert lines[..|lines|] == lines;
    for index := 0 to |networks|
      invariant forall i, j :: 0 <= i < index && i < j < |networks| ==> !Overlaps(networks[i], networks[j])
    {
      if exists j :: index + 1 <= j < |networks| && Overlaps(networks[index], networks[j]) {
        return None;
      }
    }
    return Some(Sorted(networks));
  }

  lemma SelfOverlaps(net: Cidr)
    requires net.Strict()
    ensures Overlaps(net, net)
  {
    HasIsInterval(net, net.base);
  }

  lemma DuplicateRejected(lines: seq<Line>, i: nat, j: nat)
    requires i < j < |lines| && lines[i].Net? && lines[j].Net? && lines[i].net == lines[j].net
    requires lines[i].net.Strict()
    ensures (forall line :: line in lines ==> line.Net?) ==> Overlaps(Nets(lines)[i], Nets(lines)[j])
  {
    SelfOverlaps(lines[i].net);
  }

  /** What every accepted list satisfies, and what nothing else does. */
  ghost predicate ValidList(ranges: seq<Cidr>, family: Family, isGlobal: Cidr -> bool) {
    && Acceptable(ExactLines(ranges), family, isGlobal)
    && Ordered(ranges)
  }

  function ExactLines(ranges: seq<Cidr>): (lines: seq<Line>)
    ensures |lines| == |ranges|
    ensures forall i :: 0 <= i < |ranges| ==> lines[i] == Net(ranges[i], Exact)
  {
    seq(|ranges|, i requires 0 <= i < |ranges| => Net(ranges[i], Exact))
  }

  lemma OverlapSymmetric(a: Cidr, b: Cidr)
    ensures Overlaps(a, b) <==> Overlaps(b, a)
  {
  }

  lemma CountTwice<T>(s: seq<T>, i: nat, j: nat)
    requires i < j < |s| && s[i] == s[j]
    ensures multiset(s)[s[i]] >= 2
  {
    assert s == s[..j] + [s[j]] + s[j + 1..];
    assert s[i] == s[..j][i];
    assert s[i] in multiset(s[..j]);
  }

  lemma {:induction false} CountOnce<T>(s: seq<T>, x: T)
    requires NoRepeats(s)
    ensures multiset(s)[x] <= 1
  {
    if s != [] {
      assert s == [s[0]] + s[1..];
      CountOnce(s[1..], x);
      if s[0] == x {
        assert x !in s[1..];
      }
    }
  }

  /** Pairwise apartness survives permutation. */
  lemma ApartUnderPermutation(a: seq<Cidr>, b: seq<Cidr>)
    requires multiset(a) == multiset(b) && PairwiseApart(a)
    requires forall i :: 0 <= i < |a| ==> a[i].Strict()
    ensures PairwiseApart(b)
  {
    forall i, j | 0 <= i < j < |a| ensures a[i] != a[j] {
      SelfOverlaps(a[i]);
    }
    forall i, j | 0 <= i < j < |b| ensures !Overlaps(b[i], b[j]) {
      if b[i] == b[j] {
        CountTwice(b, i, j);
        CountOnce(a, b[i]);
        assert false;
      } else {
        assert b[i] in multiset(a) && b[j] in multiset(a);
        var p, q :| 0 <= p < |a| && 0 <= q < |a| && a[p] == b[i] && a[q] == b[j];
        OverlapSymmetric(a[p], a[q]);
      }
    }
  }

  /** The accepted list is the input's networks, sorted, strictly increasing and
      with no address in two of them. */
  lemma ValidatedIsCanonical(lines: seq<Line>, family: Family, isGlobal: Cidr -> bool)
    requires Acceptable(lines, family, isGlobal)
    ensures var out := Sorted(Nets(lines));
            && ValidList(out, family, isGlobal)
            && multiset(out) == multiset(Nets(lines)) && 1 <= |out| <= 256
            && (forall i :: 0 <= i < |out| ==> out[i].len > 0 && out[i].family == family && isGlobal(out[i]))
            && (forall i, j :: 0 <= i < j < |out| ==> out[i].base < out[j].base && !ShareAddress(out[i], out[j]))
  {
    var nets := Nets(lines);
    var out := Sorted(nets);
    SortedIsOrderedPermutation(nets);
    assert |out| == |multiset(out)| == |nets|;
    forall i | 0 <= i < |out| ensures LineOk(Net(out[i], Exact), family, isGlobal) {
      assert out[i] in multiset(nets);
    }
    ApartUnderPermutation(nets, out);
    assert Nets(ExactLines(out)) == out;
    forall i, j | 0 <= i < j < |out|
      ensures out[i].base < out[j].base && !ShareAddress(out[i], out[j])
    {
      assert LineOk(Net(out[i], Exact), family, isGlobal) && LineOk(Net(out[j], Exact), family, isGlobal);
      assert !Overlaps(out[i], out[j]);
      OverlapMeansNesting(out[i], out[j]);
      HasIsInterval(out[j], out[j].base);
      HasIsInterval(out[i], out[i].base);
      assert Before(out[i], out[j]);
    }
  }

  lemma CountHead<T>(list: seq<T>, x: T)
    requires list != []
    ensures multiset(list)[x] == multiset(list[1..])[x] + if list[0] == x then 1 else 0
  {
    assert list == [list[0]] + list[1..];
  }

  lemma {:induction false} NetsUnderPermutation(lines: seq<Line>, net: Cidr)
    requires forall line :: line in lines ==> line.Net?
    ensures multiset(Nets(lines))[net]
         == multiset(lines)[Net(net, Exact)] + multiset(lines)[Net(net, CaseVariant)]
            + multiset(lines)[Net(net, NonCanonical)]
  {
    if lines == [] {
      assert Nets(lines) == [];
    } else {
      NetsUnderPermutation(lines[1..], net);
      assert Nets(lines)[1..] == Nets(lines[1..]);
      assert lines[0] in lines;
      var text := lines[0].text;
      assert text.Exact? || text.CaseVariant? || text.NonCanonical?;
      CountHead(Nets(lines), net);
      CountHead(lines, Net(net, Exact));
      CountHead(lines, Net(net, CaseVariant));
      CountHead(lines, Net(net, NonCanonical));
    }
  }

  lemma AcceptableUnderPermutation(a: seq<Line>, b: seq<Line>, family: Family, isGlobal: Cidr -> bool)
    requires multiset(a) == multiset(b) && Acceptable(a, family, isGlobal)
    ensures Acceptable(b, family, isGlobal) && multiset(Nets(a)) == multiset(Nets(b))
  {
    assert |a| == |multiset(a)| == |b|;
    forall line | line in b ensures line in a {
      assert line in multiset(a);
    }
    forall net ensures multiset(Nets(a))[net] == multiset(Nets(b))[net] {
      NetsUnderPermutation(a, net);
      NetsUnderPermutation(b, net);
    }
    ApartUnderPermutation(Nets(a), Nets(b));
  }

  /** The order of the lines does not matter, to acceptance or to the result. */
  lemma ValidationIgnoresOrder(a: seq<Line>, b: seq<Line>, family: Family, isGlobal: Cidr -> bool)
    requires multiset(a) == multiset(b)
    ensures Validated(a, family, isGlobal) == Validated(b, family, isGlobal)
  {
    if Acceptable(b, family, isGlobal) {
      AcceptableUnderPermutation(b, a, family, isGlobal);
    }
    if Acceptable(a, family, isGlobal) {
      AcceptableUnderPermutation(a, b, family, isGlobal);
      ValidatedIsCanonical(a, family, isGlobal);
      ValidatedIsCanonical(b, family, isGlobal);
      var x, y := Sorted(Nets(a)), Sorted(Nets(b));
      ValidListFamily(x, family, isGlobal);
      ValidListFamily(y, family, isGlobal);
      OrderedIsUnique(x, y, family);
    }
  }

  lemma ValidListFamily(ranges: seq<Cidr>, family: Family, isGlobal: Cidr -> bool)
    requires ValidList(ranges, family, isGlobal)
    ensures OneFamily(ranges, family)
    ensures NoRepeats(ranges)
    ensures forall i :: 0 <= i < |ranges| ==> ranges[i].Strict()
  {
    var lines := ExactLines(ranges);
    forall i | 0 <= i < |ranges| ensures ranges[i].family == family && ranges[i].Strict() {
      assert LineOk(lines[i], family, isGlobal);
    }
    forall i, j | 0 <= i < j < |ranges| ensures ranges[i] != ranges[j] {
      assert !Overlaps(Nets(lines)[i], Nets(lines)[j]);
      SelfOverlaps(ranges[i]);
    }
  }

  /** An accepted list is a fixed point of validation. */
  lemma ValidationIsIdempotent(ranges: seq<Cidr>, family: Family, isGlobal: Cidr -> bool)
    requires ValidList(ranges, family, isGlobal)
    ensures Validated(ExactLines(ranges), family, isGlobal) == Some(ranges)
  {
    var lines := ExactLines(ranges);
    assert Nets(lines) == ranges;
    SortedIsOrderedPermutation(ranges);
    ValidatedIsCanonical(lines, family, isGlobal);
    ValidListFamily(ranges, family, isGlobal);
    ValidListFamily(Sorted(ranges), family, isGlobal);
    OrderedIsUnique(Sorted(ranges), ranges, family);
  }
}
