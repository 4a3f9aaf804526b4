/** Facts about sequences shared by several modules. */
module Sequences {
  predicate NoRepeats<T(==)>(s: seq<T>) {
    forall i, j :: 0 <= i < j < |s| ==> s[i] != s[j]
  }

  lemma HasMember<T>(s: seq<T>)
    ensures s != [] ==> exists x :: x in s
  {
    if s != [] {
      assert s[0] in s;
    }
  }

  function Filter<T>(p: T -> bool, list: seq<T>): seq<T> {
    if list == [] then [] else (if p(list[0]) then [list[0]] else []) + Filter(p, list[1..])
  }

  lemma FilterCons<T>(p: T -> bool, x: T, rest: seq<T>)
    ensures Filter(p, [x] + rest) == (if p(x) then [x] else []) + Filter(p, rest)
  {
    assert ([x] + rest)[1..] == rest;
  }

  lemma {:induction false} FilterConcat<T>(p: T -> bool, a: seq<T>, b: seq<T>)
    ensures Filter(p, a + b) == Filter(p, a) + Filter(p, b)
  {
    if a == [] {
      assert a + b == b;
    } else {
      assert a + b == [a[0]] + (a[1..] + b);
      FilterCons(p, a[0], a[1..] + b);
      FilterConcat(p, a[1..], b);
    }
  }

  lemma FilterLast<T>(p: T -> bool, list: seq<T>)
    requires list != []
    ensures Filter(p, list) == Filter(p, list[..|list| - 1]) + if p(list[|list| - 1]) then [list[|list| - 1]] else []
  {
    var front, last := list[..|list| - 1], list[|list| - 1];
    assert list == front + [last];
    FilterConcat(p, front, [last]);
    FilterCons(p, last, []);
    assert [last] + [] == [last];
  }

  lemma {:induction false} FilterAll<T>(p: T -> bool, list: seq<T>)
    ensures Filter(p, list) == list <==> forall i :: 0 <= i < |list| ==> p(list[i])
    ensures |Filter(p, list)| <= |list|
    ensures |Filter(p, list)| == |list| ==> Filter(p, list) == list
    ensures forall x :: x in Filter(p, list) <==> x in list && p(x)
  {
    if list != [] {
      FilterAll(p, list[1..]);
      assert list == [list[0]] + list[1..];
      assert forall i :: 1 <= i < |list| ==> list[i] == list[1..][i - 1];
    }
  }

  lemma {:induction false} FilterMultiset<T>(p: T -> bool, list: seq<T>, x: T)
    ensures multiset(Filter(p, list))[x] == if p(x) then multiset(list)[x] else 0
  {
    if list != [] {
      FilterMultiset(p, list[1..], x);
      assert list == [list[0]] + list[1..];
      var head := if p(list[0]) then [list[0]] else [];
      assert Filter(p, list) == head + Filter(p, list[1..]);
    }
  }
}
