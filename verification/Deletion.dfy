/** Deleting by number on a list that renumbers itself: both firewall scripts
    delete from the highest number down. */
module Deletion {
  /** The elements after the first `k` whose number, counted from 1, is not marked. */
  function Survivors<T>(list: seq<T>, marked: set<nat>, k: nat): seq<T>
    requires k <= |list|
    decreases |list| - k
  {
    if k == |list| then []
    else (if k + 1 in marked then [] else [list[k]]) + Survivors(list, marked, k + 1)
  }

  /** `delete number`: the rest is renumbered. */
  function Delete<T>(list: seq<T>, number: nat): seq<T>
    requires 1 <= number <= |list|
  {
    list[..number - 1] + list[number..]
  }

  predicate Descending(numbers: seq<nat>) {
    forall i, j :: 0 <= i < j < |numbers| ==> numbers[i] > numbers[j]
  }

  lemma {:induction false} MaximumExists(numbers: set<nat>) returns (n: nat)
    requires numbers != {}
    ensures n in numbers && forall m :: m in numbers ==> m <= n
  {
    n :| n in numbers;
    if numbers != {n} {
      var rest := numbers - {n};
      var k := MaximumExists(rest);
      forall m | m in numbers ensures m <= (if n > k then n else k) {
        assert m == n || m in rest;
      }
      if k > n {
        n := k;
      }
    }
  }

  function Maximum(numbers: set<nat>): (n: nat)
    requires numbers != {}
    ensures n in numbers && forall m :: m in numbers ==> m <= n
  {
    assert exists n :: n in numbers && forall m :: m in numbers ==> m <= n by {
      var n := MaximumExists(numbers);
    }
    var n :| n in numbers && forall m :: m in numbers ==> m <= n;
    n
  }

  /** `sorted(numbers, reverse=True)` for a set of numbers. */
  function SortDescending(numbers: set<nat>): (sorted: seq<nat>)
    ensures |sorted| == |numbers|
    ensures Descending(sorted)
    ensures forall n :: n in sorted <==> n in numbers
  {
    if numbers == {} then []
    else
      var n := Maximum(numbers);
      var rest := SortDescending(numbers - {n});
      assert forall i :: 0 <= i < |rest| ==> rest[i] in rest && rest[i] < n;
      [n] + rest
  }

  /** What is left once the marked elements after the first `bound` have been deleted. */
  function DeletedFrom<T>(list: seq<T>, marked: set<nat>, bound: nat): seq<T>
    requires bound <= |list|
  {
    list[..bound] + Survivors(list, marked, bound)
  }

  lemma NoneDeletedYet<T>(list: seq<T>, marked: set<nat>)
    ensures DeletedFrom(list, marked, |list|) == list
  {
  }

  lemma ConcatStep<T>(list: seq<T>, low: nat, high: nat, tail: seq<T>)
    requires low < high <= |list|
    ensures list[low..high] + tail == [list[low]] + (list[low + 1..high] + tail)
  {
  }

  lemma {:induction false} SurvivorsUnmarked<T>(list: seq<T>, marked: set<nat>, low: nat, high: nat)
    requires low <= high <= |list|
    requires forall n :: low < n <= high ==> n !in marked
    ensures Survivors(list, marked, low) == list[low..high] + Survivors(list, marked, high)
    decreases high - low
  {
    if low < high {
      SurvivorsUnmarked(list, marked, low + 1, high);
      assert low + 1 !in marked;
      ConcatStep(list, low, high, Survivors(list, marked, high));
    }
  }

  /** The next marked element among the first `bound` still has its own number;
      deleting that number removes exactly that element. */
  lemma DeleteNext<T>(list: seq<T>, marked: set<nat>, number: nat, bound: nat)
    requires 1 <= number <= bound <= |list| && number in marked
    requires forall n :: number < n <= bound ==> n !in marked
    ensures |DeletedFrom(list, marked, bound)| >= number
    ensures DeletedFrom(list, marked, bound)[number - 1] == list[number - 1]
    ensures Delete(DeletedFrom(list, marked, bound), number) == DeletedFrom(list, marked, number - 1)
  {
    SurvivorsUnmarked(list, marked, number, bound);
    var tail := Survivors(list, marked, bound);
    var all := DeletedFrom(list, marked, bound);
    assert Survivors(list, marked, number - 1) == [] + Survivors(list, marked, number);
    assert all[..number - 1] == list[..number - 1];
    assert all[number..] == list[number..bound] + tail;
  }

  lemma DeletedBelow<T>(list: seq<T>, marked: set<nat>, low: nat, bound: nat)
    requires low <= bound <= |list|
    requires forall n :: low < n <= bound ==> n !in marked
    ensures DeletedFrom(list, marked, bound) == DeletedFrom(list, marked, low)
  {
    SurvivorsUnmarked(list, marked, low, bound);
    assert list[..bound] == list[..low] + list[low..bound];
  }

  /** `rest` lists, in descending order, the marked numbers up to `bound`. */
  ghost predicate Pending(marked: set<nat>, rest: seq<nat>, bound: nat) {
    && Descending(rest)
    && forall n :: n in rest <==> n in marked && n <= bound
  }

  lemma PendingStep(marked: set<nat>, rest: seq<nat>, bound: nat)
    requires Pending(marked, rest, bound) && rest != [] && 0 !in marked
    ensures 1 <= rest[0] <= bound && rest[0] in marked
    ensures forall n :: rest[0] < n <= bound ==> n !in marked
    ensures Pending(marked, rest[1..], rest[0] - 1)
  {
    assert rest[0] in rest;
    forall n ensures n in rest[1..] <==> n in rest && n < rest[0] {
      if n in rest && n < rest[0] {
        var j :| 0 <= j < |rest| && rest[j] == n;
        assert rest[1..][j - 1] == n;
      }
    }
  }

  lemma PendingAll(marked: set<nat>, bound: nat)
    requires forall n :: n in marked ==> n <= bound
    ensures Pending(marked, SortDescending(marked), bound)
  {
  }

  lemma PendingNone(marked: set<nat>, rest: seq<nat>, bound: nat)
    requires Pending(marked, rest, bound) && rest == []
    ensures forall n :: 0 < n <= bound ==> n !in marked
  {
    assert forall n :: n !in rest;
  }
}
