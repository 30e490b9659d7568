/**
 * The parts of the Python list semantics that the interface-set code relies on:
 * `list.count`, repetition `xs * k`, indexing with negative indices, slicing
 * with clamped bounds, and reversal.
 */
module PyLists {
  import opened Outcomes

  /** The key of `__getitem__`: an int index, or a slice `start:stop` (step 1). */
  datatype Key = Index(i: int) | Span(start: Option<int>, stop: Option<int>)

  /** What `__getitem__` returns: a bare element for an index, a new collection for a slice. */
  datatype Item<+T, +S> = Element(element: T) | Subset(subset: S)

  /** The smaller of two numbers; `zip` stops at the shorter list. */
  function Min(a: int, b: int): (m: int)
    ensures m <= a && m <= b && (m == a || m == b)
  {
    if a < b then a else b
  }

  /** The larger of two numbers. */
  function Max(a: int, b: int): (m: int)
    ensures m >= a && m >= b && (m == a || m == b)
  {
    if a < b then b else a
  }

  /** All elements of `s` are equal to one another. */
  ghost predicate AllEqual<T>(s: seq<T>) {
    forall i, j :: 0 <= i < |s| && 0 <= j < |s| ==> s[i] == s[j]
  }

  /** `s.count(x)`: how many elements of `s` equal `x`. */
  function Count<T(==)>(s: seq<T>, x: T): (n: nat)
    ensures n <= |s|
  {
    if |s| == 0 then 0 else (if s[0] == x then 1 else 0) + Count(s[1..], x)
  }

  /** `s.count(x) == len(s)` holds exactly when every element of `s` is `x`. */
  lemma {:induction false} CountIsLength<T>(s: seq<T>, x: T)
    ensures Count(s, x) == |s| <==> forall i :: 0 <= i < |s| ==> s[i] == x
  {
    if |s| > 0 {
      CountIsLength(s[1..], x);
      if forall i :: 0 <= i < |s| ==> s[i] == x {
        assert forall i :: 0 <= i < |s| - 1 ==> s[1..][i] == x by {
          forall i | 0 <= i < |s| - 1 ensures s[1..][i] == x {
            assert s[1..][i] == s[i + 1];
          }
        }
      }
      if Count(s, x) == |s| {
        assert s[0] == x;
        forall i | 1 <= i < |s| ensures s[i] == x {
          assert s[i] == s[1..][i - 1];
        }
      }
    }
  }

  /** For a non-empty list, `s.count(s[0]) == len(s)` is the test "all elements are equal". */
  lemma CountFirstIsLength<T>(s: seq<T>)
    requires |s| > 0
    ensures Count(s, s[0]) == |s| <==> AllEqual(s)
  {
    CountIsLength(s, s[0]);
  }

  /** `s * k`: the list `s` repeated `k` times. */
  function Repeat<T>(s: seq<T>, k: nat): (r: seq<T>)
    ensures |r| == |s| * k
  {
    if k == 0 then [] else s + Repeat(s, k - 1)
  }

  /** A one-element list repeated `k` times is `k` copies of that element. */
  lemma {:induction false} RepeatSingleton<T>(x: T, k: nat)
    ensures |Repeat([x], k)| == k
    ensures forall i :: 0 <= i < k ==> Repeat([x], k)[i] == x
  {
    if k > 0 {
      RepeatSingleton(x, k - 1);
      assert Repeat([x], k) == [x] + Repeat([x], k - 1);
    }
  }

  /** `xs[i]` for an int index; a negative index counts from the end. */
  function At<T>(xs: seq<T>, i: int): (r: Result<T>)
    ensures r.Ok? <==> -|xs| <= i < |xs|
    ensures r.Err? ==> r.error == IndexError
    ensures 0 <= i < |xs| ==> r == Ok(xs[i])
    ensures -|xs| <= i < 0 ==> r == Ok(xs[|xs| + i])
  {
    if 0 <= i < |xs| then Ok(xs[i])
    else if -|xs| <= i < 0 then Ok(xs[i + |xs|])
    else Err(IndexError)
  }

  /**
   * Where one bound of a slice lands in a list of length `n`: a missing bound
   * takes its default, a negative one counts from the end, and the result is
   * clamped to `0..n`.
   */
  function SliceBound(bound: Option<int>, n: nat, default: nat): (k: nat)
    requires default <= n
    ensures k <= n
  {
    match bound
    case None => default
    case Some(b) =>
      if b < 0 then (if b + n < 0 then 0 else b + n)
      else if b > n then n
      else b
  }

  /** The first index a slice `start:stop` of a list of length `n` takes. */
  function SliceStart(n: nat, start: Option<int>): nat {
    SliceBound(start, n, 0)
  }

  /** The number of elements a slice `start:stop` of a list of length `n` takes. */
  function SliceLength(n: nat, start: Option<int>, stop: Option<int>): nat {
    var lo, hi := SliceBound(start, n, 0), SliceBound(stop, n, n);
    if lo < hi then hi - lo else 0
  }

  /** `xs[start:stop]`: the Python slice, which never fails and is empty when the bounds cross. */
  function Slice<T>(xs: seq<T>, start: Option<int>, stop: Option<int>): (r: seq<T>)
    ensures |r| == SliceLength(|xs|, start, stop)
    ensures SliceStart(|xs|, start) + |r| <= |xs|
    ensures forall k :: 0 <= k < |r| ==> r[k] == xs[SliceStart(|xs|, start) + k]
  {
    var lo := SliceStart(|xs|, start);
    xs[lo..lo + SliceLength(|xs|, start, stop)]
  }

  /** The same slice of two lists of equal length picks the elements at the same positions of both. */
  lemma SlicePair<S, T>(xs: seq<S>, ys: seq<T>, start: Option<int>, stop: Option<int>)
    requires |xs| == |ys|
    ensures |Slice(xs, start, stop)| == |Slice(ys, start, stop)|
    ensures forall k :: 0 <= k < |Slice(xs, start, stop)| ==>
      Slice(xs, start, stop)[k] == xs[SliceStart(|xs|, start) + k] &&
      Slice(ys, start, stop)[k] == ys[SliceStart(|xs|, start) + k]
  {
  }

  /** Within range, a Python slice is the mathematical sub-sequence, of length `j - i`. */
  lemma SliceInRange<T>(xs: seq<T>, i: int, j: int)
    requires 0 <= i <= j <= |xs|
    ensures Slice(xs, Some(i), Some(j)) == xs[i..j]
    ensures |Slice(xs, Some(i), Some(j))| == j - i
  {
  }

  /** `reversed(xs)`, as a list. */
  function Reverse<T>(xs: seq<T>): (r: seq<T>)
    ensures |r| == |xs|
    ensures forall k :: 0 <= k < |xs| ==> r[k] == xs[|xs| - 1 - k]
  {
    if |xs| == 0 then [] else Reverse(xs[1..]) + [xs[0]]
  }
}
