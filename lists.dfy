/**
 * Sequence operations that the import pipeline borrows from JavaScript arrays:
 * `indexOf`, `filter(x => !excluded.includes(x))` and the first-occurrence filter
 * `filter((x, index, self) => self.indexOf(x) === index)`.
 */
module Lists {

  /** No element occurs twice. */
  ghost predicate NoDuplicates<T>(s: seq<T>) {
    forall i, j :: 0 <= i < j < |s| ==> s[i] != s[j]
  }

  /** `s.indexOf(x)`: the first position of `x` in `s`, or -1 when `x` is absent. */
  function IndexOf<T(==,!new)>(s: seq<T>, x: T): (r: int)
    ensures -1 <= r < |s|
    ensures r == -1 <==> x !in s
    ensures 0 <= r ==> s[r] == x && x !in s[..r]
  {
    if |s| == 0 then -1
    else if s[0] == x then 0
    else
      var k := IndexOf(s[1..], x);
      assert k >= 0 ==> s[..k + 1] == [s[0]] + s[1..][..k];
      if k == -1 then -1 else k + 1
  }

  /** The element at position k is at its first occurrence exactly when it does not occur before k. */
  lemma IndexOfAt<T(!new)>(s: seq<T>, k: nat)
    requires k < |s|
    ensures IndexOf(s, s[k]) <= k
    ensures IndexOf(s, s[k]) == k <==> s[k] !in s[..k]
  {
    var r := IndexOf(s, s[k]);
    if r < k {
      assert s[..k][r] == s[k];
    }
  }

  /** `s.filter(x => !excluded.includes(x))`: keeps the elements of `s` absent from `excluded`, in order. */
  function Without<T(==,!new)>(s: seq<T>, excluded: seq<T>): (r: seq<T>)
    ensures |r| <= |s|
    ensures forall x :: x in r <==> x in s && x !in excluded
  {
    if |s| == 0 then []
    else
      assert s == [s[0]] + s[1..];
      (if s[0] in excluded then [] else [s[0]]) + Without(s[1..], excluded)
  }

  /**
   * Filtering out excluded elements does not change the order in which the remaining
   * elements first occur.
   */
  lemma {:induction false} WithoutKeepsFirstOrder<T(!new)>(s: seq<T>, excluded: seq<T>, x: T, y: T)
    requires x in s && x !in excluded
    requires y in s && y !in excluded
    ensures IndexOf(Without(s, excluded), x) < IndexOf(Without(s, excluded), y)
        <==> IndexOf(s, x) < IndexOf(s, y)
  {
    var w := Without(s, excluded);
    assert s == [s[0]] + s[1..];
    if s[0] in excluded {
      assert w == Without(s[1..], excluded);
      WithoutKeepsFirstOrder(s[1..], excluded, x, y);
    } else if x == s[0] || y == s[0] {
      assert w[0] == s[0];
    } else {
      assert w == [s[0]] + Without(s[1..], excluded);
      assert w[1..] == Without(s[1..], excluded);
      WithoutKeepsFirstOrder(s[1..], excluded, x, y);
    }
  }

  /**
   * The first-occurrence filter applied to the prefix s[..k]: an element is kept at
   * position i exactly when `s.indexOf(s[i]) == i`.
   */
  function KeepFirst<T(==,!new)>(s: seq<T>, k: nat): (r: seq<T>)
    requires k <= |s|
    ensures forall x :: x in r <==> x in s[..k]
    ensures forall i :: 0 <= i < |r| ==> 0 <= IndexOf(s, r[i]) < k
    ensures forall i, j :: 0 <= i < j < |r| ==> IndexOf(s, r[i]) < IndexOf(s, r[j])
  {
    if k == 0 then []
    else
      var prev := KeepFirst(s, k - 1);
      IndexOfAt(s, k - 1);
      assert s[..k] == s[..k - 1] + [s[k - 1]];
      if IndexOf(s, s[k - 1]) == k - 1 then prev + [s[k - 1]]
      else
        assert s[..k - 1][IndexOf(s, s[k - 1])] == s[k - 1];
        prev
  }

  /**
   * `s.filter((x, index, self) => self.indexOf(x) === index)`: every element of `s` once,
   * in the order of its first occurrence.
   */
  function FirstOccurrences<T(==,!new)>(s: seq<T>): (r: seq<T>)
    ensures forall x :: x in r <==> x in s
    ensures NoDuplicates(r)
    ensures forall i, j :: 0 <= i < j < |r| ==> IndexOf(s, r[i]) < IndexOf(s, r[j])
  {
    assert s[..|s|] == s;
    KeepFirst(s, |s|)
  }

  /** A sequence without duplicates has as many elements as its set of elements. */
  lemma {:induction false} DistinctCount<T>(s: seq<T>)
    requires NoDuplicates(s)
    ensures |set x | x in s| == |s|
  {
    if |s| > 0 {
      assert s == [s[0]] + s[1..];
      DistinctCount(s[1..]);
      assert (set x | x in s) == {s[0]} + (set x | x in s[1..]);
      assert s[0] !in (set x | x in s[1..]);
    }
  }

  /**
   * Filtering out excluded elements and then keeping first occurrences lists the kept
   * elements in the order of their first occurrence in the unfiltered sequence.
   */
  lemma FirstOccurrencesOfWithout<T(!new)>(s: seq<T>, excluded: seq<T>, r: seq<T>)
    requires r == FirstOccurrences(Without(s, excluded))
    ensures forall i, j :: 0 <= i < j < |r| ==> IndexOf(s, r[i]) < IndexOf(s, r[j])
  {
    forall i, j | 0 <= i < j < |r|
      ensures IndexOf(s, r[i]) < IndexOf(s, r[j])
    {
      WithoutKeepsFirstOrder(s, excluded, r[i], r[j]);
    }
  }
}
