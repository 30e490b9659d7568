/**
 * `InterfaceSet`: an ordered list of interface volumes with the order
 * parameter (CV) they are defined on, the CV value ("lambda") of each
 * interface, and a direction telling whether the lambdas increase (1),
 * decrease (-1) or cannot be told apart (0).
 *
 * Volumes are values of an opaque type `V` compared with `==`, and the CV is
 * an opaque handle of type `C` that the set carries without looking inside.
 * The object never changes after construction: slicing builds a new set.
 */
module InterfaceSets {
  import opened Outcomes
  import opened PyLists

  /**
   * The fields of an `InterfaceSet` object. `lambdaDict` is the volume-to-lambda
   * lookup table the constructor derives from `volumes` and `lambdas`.
   */
  datatype InterfaceSet<V(==), C> = InterfaceSet(
    volumes: seq<V>,
    cv: C,
    lambdas: Option<seq<real>>,
    direction: int,
    lambdaDict: map<V, Option<real>>)

  /** `l` never decreases (`rising`) or never increases (`!rising`) from one element to any later one. */
  ghost predicate Ordered(l: seq<real>, rising: bool) {
    forall i, j :: 0 <= i < j < |l| ==> if rising then l[i] <= l[j] else l[j] <= l[i]
  }

  /**
   * `sum([l[i+1] >= l[i] for i in range(len(l)-1)])` when `rising`, the same
   * with `<=` otherwise: how many consecutive steps go the given way.
   */
  function Steps(l: seq<real>, rising: bool): (n: nat)
    ensures |l| > 0 ==> n < |l|
  {
    if |l| < 2 then 0
    else (if (if rising then l[1] >= l[0] else l[1] <= l[0]) then 1 else 0) + Steps(l[1..], rising)
  }

  /** Every consecutive step goes the given way exactly when the whole list is ordered that way. */
  lemma {:induction false} StepsCountOrdered(l: seq<real>, rising: bool)
    requires |l| > 0
    ensures Steps(l, rising) == |l| - 1 <==> Ordered(l, rising)
  {
    if |l| >= 2 {
      var t := l[1..];
      StepsCountOrdered(t, rising);
      if Ordered(l, rising) {
        forall i, j | 0 <= i < j < |t|
          ensures if rising then t[i] <= t[j] else t[j] <= t[i]
        {
          assert t[i] == l[i + 1] && t[j] == l[j + 1];
        }
        assert Ordered(t, rising);
      }
      if Steps(l, rising) == |l| - 1 {
        assert Steps(t, rising) == |t| - 1;
        forall i, j | 0 <= i < j < |l|
          ensures if rising then l[i] <= l[j] else l[j] <= l[i]
        {
          assert l[j] == t[j - 1];
          if i > 0 {
            assert l[i] == t[i - 1];
          } else if j > 1 {
            assert l[1] == t[0];
          }
        }
      }
    }
  }

  /**
   * The direction guessed from the lambdas when none is given: 1 if they never
   * decrease (so a constant or one-element list gives 1), otherwise -1 if they
   * never increase, otherwise 0. An empty list gives 0, because its step
   * count, 0, never equals `len(l) - 1`.
   */
  function GuessDirection(l: seq<real>): (d: int)
    ensures d == 1 <==> |l| > 0 && Ordered(l, true)
    ensures d == -1 <==> |l| > 0 && !Ordered(l, true) && Ordered(l, false)
    ensures d == 0 <==> |l| == 0 || (!Ordered(l, true) && !Ordered(l, false))
  {
    var count := |l| - 1;
    var increasing := Steps(l, true) == count;
    var decreasing := Steps(l, false) == count;
    assert |l| > 0 ==> (increasing <==> Ordered(l, true)) && (decreasing <==> Ordered(l, false)) by {
      if |l| > 0 {
        StepsCountOrdered(l, true);
        StepsCountOrdered(l, false);
      }
    }
    if increasing then 1 else if decreasing then -1 else 0
  }

  /** Each lambda as a present label. */
  function Present(l: seq<real>): (labels: seq<Option<real>>)
    ensures |labels| == |l|
    ensures forall i :: 0 <= i < |l| ==> labels[i] == Some(l[i])
  {
    if |l| == 0 then [] else Present(l[..|l| - 1]) + [Some(l[|l| - 1])]
  }

  /** The label of each volume: its lambda, or `None` for every volume when there are no lambdas. */
  function Labels<V>(volumes: seq<V>, lambdas: Option<seq<real>>): (labels: seq<Option<real>>)
    ensures lambdas.None? ==> |labels| == |volumes| && forall i :: 0 <= i < |labels| ==> labels[i] == None
    ensures lambdas.Some? ==> |labels| == |lambdas.value|
    ensures lambdas.Some? ==> forall i :: 0 <= i < |labels| ==> labels[i] == Some(lambdas.value[i])
  {
    match lambdas
    case None => RepeatSingleton<Option<real>>(None, |volumes|); Repeat([None], |volumes|)
    case Some(l) => Present(l)
  }

  /**
   * The dict comprehension over `zip(ks, xs)`: the pairs are inserted in order, so a
   * later pair overwrites an earlier one with the same key, and the longer
   * list is cut to the length of the shorter.
   */
  function ZipDict<K(==), X>(ks: seq<K>, xs: seq<X>): map<K, X>
    decreases |ks|
  {
    var n := Min(|ks|, |xs|);
    if n == 0 then map[]
    else ZipDict(ks[..n - 1], xs[..n - 1])[ks[n - 1] := xs[n - 1]]
  }

  /**
   * The keys of the zipped dict are exactly the keys among the zipped pairs,
   * and each of its values is one of the zipped values.
   */
  lemma {:induction false} ZipDictKeys<K, X>(ks: seq<K>, xs: seq<X>)
    ensures forall k :: k in ZipDict(ks, xs) ==> k in ks[..Min(|ks|, |xs|)]
    ensures forall i :: 0 <= i < Min(|ks|, |xs|) ==> ks[i] in ZipDict(ks, xs)
    ensures forall k :: k in ZipDict(ks, xs) ==> ZipDict(ks, xs)[k] in xs[..Min(|ks|, |xs|)]
    decreases |ks|
  {
    var n := Min(|ks|, |xs|);
    if n > 0 {
      var ksInit, xsInit := ks[..n - 1], xs[..n - 1];
      ZipDictKeys(ksInit, xsInit);
      assert Min(|ksInit|, |xsInit|) == n - 1;
      assert ksInit[..n - 1] == ksInit && xsInit[..n - 1] == xsInit;
      assert ks[..n] == ksInit + [ks[n - 1]] && xs[..n] == xsInit + [xs[n - 1]];
      assert ZipDict(ks, xs) == ZipDict(ksInit, xsInit)[ks[n - 1] := xs[n - 1]];
    }
  }

  /** The table maps a key to the value paired with its LAST occurrence among the zipped pairs. */
  lemma {:induction false} ZipDictLookup<K, X>(ks: seq<K>, xs: seq<X>, i: nat)
    requires i < Min(|ks|, |xs|)
    requires forall j :: i < j < Min(|ks|, |xs|) ==> ks[j] != ks[i]
    ensures ks[i] in ZipDict(ks, xs) && ZipDict(ks, xs)[ks[i]] == xs[i]
    decreases |ks|
  {
    var n := Min(|ks|, |xs|);
    if i < n - 1 {
      var ksInit, xsInit := ks[..n - 1], xs[..n - 1];
      assert Min(|ksInit|, |xsInit|) == n - 1;
      forall j | i < j < n - 1 ensures ksInit[j] != ksInit[i] {
        assert ksInit[j] == ks[j] && ksInit[i] == ks[i];
      }
      ZipDictLookup(ksInit, xsInit, i);
      assert ks[n - 1] != ks[i];
      assert ZipDict(ks, xs) == ZipDict(ksInit, xsInit)[ks[n - 1] := xs[n - 1]];
    }
  }

  /** `_set_lambda_dict`: the volume-to-lambda lookup table. */
  function LambdaDict<V(==)>(volumes: seq<V>, lambdas: Option<seq<real>>): map<V, Option<real>> {
    ZipDict(volumes, Labels(volumes, lambdas))
  }

  /** The lookup table is the one `_set_lambda_dict` derives from the stored volumes and lambdas. */
  ghost predicate Valid<V, C>(s: InterfaceSet<V, C>) {
    s.lambdaDict == LambdaDict(s.volumes, s.lambdas)
  }

  /** There is one lambda per volume whenever there are lambdas at all. */
  predicate Aligned<V(==), C>(s: InterfaceSet<V, C>) {
    s.lambdas.Some? ==> |s.lambdas.value| == |s.volumes|
  }

  /**
   * `InterfaceSet(volumes, cv, lambdas, direction)`: an explicit direction is
   * kept as given; without one it is guessed from the lambdas, and it is 0
   * when there are no lambdas either.
   */
  function MakeInterfaceSet<V(==), C>(volumes: seq<V>, cv: C, lambdas: Option<seq<real>>, direction: Option<int>)
    : (s: InterfaceSet<V, C>)
    ensures s.volumes == volumes && s.cv == cv && s.lambdas == lambdas
    ensures Valid(s)
    ensures direction.Some? ==> s.direction == direction.value
    ensures direction.None? && lambdas.None? ==> s.direction == 0
    ensures direction.None? && lambdas.Some? ==>
      (s.direction == 1 <==> |lambdas.value| > 0 && Ordered(lambdas.value, true)) &&
      (s.direction == -1 <==> |lambdas.value| > 0 && !Ordered(lambdas.value, true) && Ordered(lambdas.value, false)) &&
      (s.direction == 0 <==> |lambdas.value| == 0 || (!Ordered(lambdas.value, true) && !Ordered(lambdas.value, false)))
  {
    var guessed :=
      match direction
      case Some(d) => d
      case None => (match lambdas case Some(l) => GuessDirection(l) case None => 0);
    InterfaceSet(volumes, cv, lambdas, guessed, LambdaDict(volumes, lambdas))
  }

  /** `get_lambda(volume)`: the entry of the lookup table, or a KeyError. */
  function GetLambda<V(==), C>(s: InterfaceSet<V, C>, volume: V): Result<Option<real>> {
    if volume in s.lambdaDict then Ok(s.lambdaDict[volume]) else Err(KeyError)
  }

  /** How many volumes `zip` pairs with a label: all of them unless the lambdas are shorter. */
  function LabelledCount<V(==), C>(s: InterfaceSet<V, C>): nat {
    Min(|s.volumes|, |Labels(s.volumes, s.lambdas)|)
  }

  /**
   * A volume that does not occur again later among the labelled ones (so any
   * volume when the volumes are distinct) is mapped to its own lambda, or to
   * `None` in a set built without lambdas.
   */
  lemma GetLambdaOfMember<V, C>(s: InterfaceSet<V, C>, i: nat)
    requires Valid(s)
    requires i < LabelledCount(s)
    requires forall j :: i < j < LabelledCount(s) ==> s.volumes[j] != s.volumes[i]
    ensures s.lambdas.Some? ==> GetLambda(s, s.volumes[i]) == Ok(Some(s.lambdas.value[i]))
    ensures s.lambdas.None? ==> GetLambda(s, s.volumes[i]) == Ok(None)
  {
    ZipDictLookup(s.volumes, Labels(s.volumes, s.lambdas), i);
  }

  /** `get_lambda` raises a KeyError exactly for a volume that is not among the labelled volumes. */
  lemma GetLambdaOfNonMember<V, C>(s: InterfaceSet<V, C>, volume: V)
    requires Valid(s)
    ensures GetLambda(s, volume).Err? <==> volume !in s.volumes[..LabelledCount(s)]
    ensures GetLambda(s, volume).Err? ==> GetLambda(s, volume).error == KeyError
  {
    ZipDictKeys(s.volumes, Labels(s.volumes, s.lambdas));
  }

  /**
   * In a set built without lambdas, every member gives `None` (not an error)
   * and every non-member gives a KeyError.
   */
  lemma GetLambdaUnlabelled<V, C>(s: InterfaceSet<V, C>, volume: V)
    requires Valid(s) && s.lambdas.None?
    ensures GetLambda(s, volume) == if volume in s.volumes then Ok(None) else Err(KeyError)
  {
    var labels := Labels(s.volumes, s.lambdas);
    ZipDictKeys(s.volumes, labels);
    assert s.volumes[..LabelledCount(s)] == s.volumes;
    if volume in s.lambdaDict {
      assert labels[..LabelledCount(s)] == labels;
      assert s.lambdaDict[volume] in labels;
    }
  }

  /** `len(s)` */
  function Len<V(==), C>(s: InterfaceSet<V, C>): nat {
    |s.volumes|
  }

  /** `item in s` */
  predicate Contains<V(==), C>(s: InterfaceSet<V, C>, item: V) {
    item in s.volumes
  }

  /** The volumes `iter(s)` yields, in order. */
  function Iterate<V(==), C>(s: InterfaceSet<V, C>): seq<V> {
    s.volumes
  }

  /** The volumes `reversed(s)` yields, in order. */
  function Reversed<V(==), C>(s: InterfaceSet<V, C>): seq<V> {
    Reverse(s.volumes)
  }

  /** `self.lambdas[slicer]`, where slicing `None` raises a TypeError that leaves it as it is. */
  function SliceLambdas(lambdas: Option<seq<real>>, start: Option<int>, stop: Option<int>): Option<seq<real>> {
    match lambdas
    case None => None
    case Some(l) => Some(Slice(l, start, stop))
  }

  /**
   * `s[key]`: an int key gives the bare volume; a slice gives a new set over
   * the sliced volumes and lambdas, with the same CV and the direction passed
   * explicitly, so that it is not guessed again.
   */
  function GetItem<V(==), C>(s: InterfaceSet<V, C>, key: Key): Result<Item<V, InterfaceSet<V, C>>> {
    match key
    case Index(i) =>
      (match At(s.volumes, i)
       case Err(e) => Err(e)
       case Ok(v) => Ok(Element(v)))
    case Span(start, stop) =>
      Ok(Subset(MakeInterfaceSet(Slice(s.volumes, start, stop), s.cv,
                                 SliceLambdas(s.lambdas, start, stop), Some(s.direction))))
  }

  /**
   * Indexing reads `volumes`: position `i` and position `i - len(s)` both give
   * the i-th volume, and any other int key raises IndexError.
   */
  lemma IndexView<V, C>(s: InterfaceSet<V, C>)
    ensures forall i :: 0 <= i < Len(s) ==>
      GetItem(s, Index(i)) == Ok(Element(Iterate(s)[i])) &&
      GetItem(s, Index(i - Len(s))) == Ok(Element(Iterate(s)[i]))
    ensures forall i: int :: i + Len(s) < 0 || Len(s) <= i ==> GetItem(s, Index(i)) == Err(IndexError)
  {
    var vs := s.volumes;
    forall i | 0 <= i < |vs|
      ensures GetItem(s, Index(i)) == Ok(Element(vs[i])) && GetItem(s, Index(i - |vs|)) == Ok(Element(vs[i]))
    {
      assert At(vs, i) == Ok(vs[i]);
      assert At(vs, i - |vs|) == Ok(vs[i]);
    }
    forall i: int | i + |vs| < 0 || |vs| <= i
      ensures GetItem(s, Index(i)) == Err(IndexError)
    {
      assert At(vs, i) == Err(IndexError);
    }
  }

  /**
   * Membership, iteration and reversal agree with indexing: `item in s` holds
   * exactly when some index gives `item`, and `reversed(s)` yields the volumes
   * `iter(s)` yields, back to front.
   */
  lemma ListView<V, C>(s: InterfaceSet<V, C>, item: V)
    ensures Contains(s, item) <==> exists i :: 0 <= i < Len(s) && GetItem(s, Index(i)) == Ok(Element(item))
    ensures |Iterate(s)| == |Reversed(s)| == Len(s)
    ensures forall k :: 0 <= k < Len(s) ==> Reversed(s)[k] == Iterate(s)[Len(s) - 1 - k]
  {
    if Contains(s, item) {
      var i: int :| 0 <= i < |s.volumes| && s.volumes[i] == item;
      assert At(s.volumes, i) == Ok(item);
      assert GetItem(s, Index(i)) == Ok(Element(item));
    }
  }

  /**
   * `s[start:stop]` is a new, consistent set whose volumes are the sliced
   * volumes and whose lambdas are the sliced lambdas; `None` lambdas, the CV
   * and the direction carry over unchanged.
   */
  lemma SliceSpec<V, C>(s: InterfaceSet<V, C>, start: Option<int>, stop: Option<int>)
    ensures GetItem(s, Span(start, stop)).Ok? && GetItem(s, Span(start, stop)).value.Subset?
    ensures var t := GetItem(s, Span(start, stop)).value.subset;
      && Valid(t)
      && t.volumes == Slice(s.volumes, start, stop)
      && Len(t) == SliceLength(Len(s), start, stop)
      && t.cv == s.cv && t.direction == s.direction
      && (s.lambdas.None? ==> t.lambdas.None?)
      && (s.lambdas.Some? ==> t.lambdas == Some(Slice(s.lambdas.value, start, stop)))
  {
    var t := MakeInterfaceSet(Slice(s.volumes, start, stop), s.cv, SliceLambdas(s.lambdas, start, stop), Some(s.direction));
    assert GetItem(s, Span(start, stop)) == Ok(Subset(t));
  }

  /**
   * When every volume has its lambda, so does every volume of a slice: the
   * volumes and the lambdas are cut with the same bounds, so the k-th
   * volume and the k-th lambda of the slice come from the same position of
   * the original.
   */
  lemma SliceLockstep<V, C>(s: InterfaceSet<V, C>, start: Option<int>, stop: Option<int>)
    requires Aligned(s)
    ensures GetItem(s, Span(start, stop)).Ok? && GetItem(s, Span(start, stop)).value.Subset?
    ensures Aligned(GetItem(s, Span(start, stop)).value.subset)
  {
    SliceSpec(s, start, stop);
    if s.lambdas.Some? {
      SlicePair(s.volumes, s.lambdas.value, start, stop);
    }
  }
}
