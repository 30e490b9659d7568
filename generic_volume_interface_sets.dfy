/**
 * `GenericVolumeInterfaceSet`: an interface set whose volumes are generated
 * from minimum and maximum CV values by a two-argument volume function and
 * intersected with a common volume. It normalises the minvals/maxvals input,
 * infers the direction from it, and afterwards acts as a factory for further
 * interfaces through a one-argument specialisation of the volume function.
 *
 * The volume function and the intersection `&` are parameters of type
 * `(Bound, Bound) -> V` and `(V, V) -> V`: they belong to the volume library
 * and are not interpreted here.
 */
module GenericVolumeInterfaceSets {
  import opened Outcomes
  import opened PyLists
  import opened InterfaceSets

  /** A `minvals` or `maxvals` argument: a single CV value or a list of them. */
  datatype Bound = Scalar(x: real) | List(xs: seq<real>)

  /** The argument as a list: `len()` of a scalar raises TypeError and the code wraps it as `[x]`. */
  function AsList(b: Bound): seq<real> {
    match b
    case Scalar(x) => [x]
    case List(xs) => xs
  }

  /** The output of `_sanitize_input`: equal-length min and max lists and the inferred direction. */
  datatype Normalized = Normalized(minvs: seq<real>, maxvs: seq<real>, direction: int)

  /**
   * `_sanitize_input(minvals, maxvals)`. Equal lengths: the direction gets +1
   * when all minvals equal the first and -1 when all maxvals equal the first
   * (reading `minvals[0]` of an empty list raises IndexError). Otherwise a
   * length-1 side gives direction 1 (minvals) or -1 (maxvals), and anything
   * else raises RuntimeError. A length-1 side is then repeated to the length
   * of the other.
   */
  function SanitizeInput(minvals: Bound, maxvals: Bound): (r: Result<Normalized>)
    ensures r.Ok? ==> |r.value.minvs| == |r.value.maxvs| && -1 <= r.value.direction <= 1
  {
    var mins, maxs := AsList(minvals), AsList(maxvals);
    var lenMin, lenMax := |mins|, |maxs|;
    var outcome: Result<int> :=
      if lenMin == lenMax then
        if lenMin == 0 then Err(IndexError)
        else Ok((if Count(mins, mins[0]) == lenMin then 1 else 0) + (if Count(maxs, maxs[0]) == lenMax then -1 else 0))
      else if lenMax > lenMin && lenMin == 1 then Ok(1)
      else if lenMin > lenMax && lenMax == 1 then Ok(-1)
      else Err(ReconcileError);
    match outcome
    case Err(e) => Err(e)
    case Ok(direction) =>
      var minvs := if lenMin == 1 then Repeat(mins, |maxs|) else mins;
      var maxvs := if lenMax == 1 then Repeat(maxs, |minvs|) else maxs;
      Ok(Normalized(minvs, maxvs, direction))
  }

  /**
   * `_sanitize_input` succeeds exactly when both sides are non-empty and their
   * lengths are equal or one of them is 1. Two empty lists raise IndexError;
   * every other failure is a RuntimeError saying the array lengths cannot be reconciled.
   */
  lemma SanitizeErrors(minvals: Bound, maxvals: Bound)
    ensures var lenMin, lenMax := |AsList(minvals)|, |AsList(maxvals)|;
      && (SanitizeInput(minvals, maxvals).Ok? <==>
            lenMin > 0 && lenMax > 0 && (lenMin == lenMax || lenMin == 1 || lenMax == 1))
      && (SanitizeInput(minvals, maxvals) == Err(IndexError) <==> lenMin == 0 && lenMax == 0)
      && (SanitizeInput(minvals, maxvals).Err? && (lenMin > 0 || lenMax > 0) ==>
            SanitizeInput(minvals, maxvals) == Err(ReconcileError))
  {
  }

  /**
   * On success both lists have the larger of the two input lengths; a
   * length-1 side is that one value repeated, and the other side is returned
   * unchanged.
   */
  lemma SanitizeShape(minvals: Bound, maxvals: Bound)
    requires SanitizeInput(minvals, maxvals).Ok?
    ensures var n, mins, maxs := SanitizeInput(minvals, maxvals).value, AsList(minvals), AsList(maxvals);
      && |n.minvs| == |n.maxvs| == Max(|mins|, |maxs|)
      && (|mins| == 1 ==> forall i :: 0 <= i < |n.minvs| ==> n.minvs[i] == mins[0])
      && (|mins| != 1 ==> n.minvs == mins)
      && (|maxs| == 1 ==> forall i :: 0 <= i < |n.maxvs| ==> n.maxvs[i] == maxs[0])
      && (|maxs| != 1 ==> n.maxvs == maxs)
  {
    var mins, maxs := AsList(minvals), AsList(maxvals);
    if |mins| == 1 {
      assert mins == [mins[0]];
      RepeatSingleton(mins[0], |maxs|);
    }
    var minvs := if |mins| == 1 then Repeat(mins, |maxs|) else mins;
    if |maxs| == 1 {
      assert maxs == [maxs[0]];
      RepeatSingleton(maxs[0], |minvs|);
    }
  }

  /**
   * The inferred direction. With equal lengths it is 1 when the minvals are
   * all equal and the maxvals are not, -1 in the mirror case, and 0 when both
   * or neither are constant (so two scalars give 0). With unequal lengths it
   * is 1 when minvals is the length-1 side and -1 when maxvals is.
   */
  lemma SanitizeDirection(minvals: Bound, maxvals: Bound)
    requires SanitizeInput(minvals, maxvals).Ok?
    ensures var d, mins, maxs := SanitizeInput(minvals, maxvals).value.direction, AsList(minvals), AsList(maxvals);
      && (|mins| == |maxs| ==>
            && (d == 1 <==> AllEqual(mins) && !AllEqual(maxs))
            && (d == -1 <==> AllEqual(maxs) && !AllEqual(mins))
            && (d == 0 <==> (AllEqual(mins) <==> AllEqual(maxs))))
      && (|mins| < |maxs| ==> |mins| == 1 && d == 1)
      && (|mins| > |maxs| ==> |maxs| == 1 && d == -1)
  {
    var mins, maxs := AsList(minvals), AsList(maxvals);
    if |mins| == |maxs| {
      CountFirstIsLength(mins);
      CountFirstIsLength(maxs);
    }
  }

  /**
   * The result of `_set_volume_func`: the two-argument function itself when the
   * direction is 0, or a one-argument function fixing the STORED minvals
   * (direction > 0) or maxvals (direction < 0), whichever form they were
   * given in.
   */
  datatype Factory<V> =
    | TwoArg(f: (Bound, Bound) -> V)
    | FixedMin(minv: Bound, f: (Bound, Bound) -> V)
    | FixedMax(maxv: Bound, f: (Bound, Bound) -> V)

  /** `_set_volume_func(volume_func)`, dispatching on the sign of the direction. */
  function SetVolumeFunc<V>(direction: int, minvals: Bound, maxvals: Bound, f: (Bound, Bound) -> V): Factory<V> {
    if direction == 0 then TwoArg(f)
    else if direction > 0 then FixedMin(minvals, f)
    else FixedMax(maxvals, f)
  }

  /** The fields a `GenericVolumeInterfaceSet` has besides its volume function. */
  datatype GenericState<V(==), C> = GenericState(
    base: InterfaceSet<V, C>,
    minvals: Bound,
    maxvals: Bound,
    intersectWith: V)

  /** A `GenericVolumeInterfaceSet` object. */
  datatype GenericVolumeSet<V(==), C> = GenericVolumeSet(state: GenericState<V, C>, volumeFunc: Factory<V>)

  /**
   * What construction guarantees and slicing and loading keep: a consistent
   * lookup table, one lambda per volume, a direction of -1, 0 or 1, and
   * lambdas present exactly when the direction is not 0.
   */
  ghost predicate WellFormed<V, C>(st: GenericState<V, C>) {
    && Valid(st.base)
    && Aligned(st.base)
    && -1 <= st.base.direction <= 1
    && (st.base.direction == 0 <==> st.base.lambdas.None?)
  }

  /** `[intersect_with & volume_func(minv, maxv) for (minv, maxv) in zip(minvs, maxvs)]` */
  function PairVolumes<V>(iw: V, minvs: seq<real>, maxvs: seq<real>, volumeFunc: (Bound, Bound) -> V, meet: (V, V) -> V)
    : (vs: seq<V>)
    ensures |vs| == Min(|minvs|, |maxvs|)
    ensures forall i :: 0 <= i < |vs| ==> vs[i] == meet(iw, volumeFunc(Scalar(minvs[i]), Scalar(maxvs[i])))
  {
    var count := Min(|minvs|, |maxvs|);
    if count == 0 then []
    else PairVolumes(iw, minvs[..count - 1], maxvs[..count - 1], volumeFunc, meet)
         + [meet(iw, volumeFunc(Scalar(minvs[count - 1]), Scalar(maxvs[count - 1])))]
  }

  /**
   * `GenericVolumeInterfaceSet(cv, minvals, maxvals, intersect_with, volume_func)`:
   * a missing `intersect_with` becomes the full volume; the volumes are
   * `intersect_with & volume_func(minv, maxv)` over the normalised pairs; the
   * lambdas are the normalised maxvals (direction 1), minvals (-1) or none (0);
   * the raw minvals and maxvals are stored as given.
   */
  function MakeGeneric<V(==), C>(cv: C, minvals: Bound, maxvals: Bound, intersectWith: Option<V>,
                                 volumeFunc: (Bound, Bound) -> V, full: V, meet: (V, V) -> V)
    : Result<GenericVolumeSet<V, C>>
  {
    var iw := if intersectWith.None? then full else intersectWith.value;
    match SanitizeInput(minvals, maxvals)
    case Err(e) => Err(e)
    case Ok(n) => Ok(Assemble(cv, minvals, maxvals, iw, n, volumeFunc, meet))
  }

  /**
   * The rest of the constructor, once the input is normalised: the lambdas
   * are picked by the direction, the volumes are built pair by pair, and the
   * volume function is specialised.
   */
  function Assemble<V(==), C>(cv: C, minvals: Bound, maxvals: Bound, iw: V, n: Normalized,
                              volumeFunc: (Bound, Bound) -> V, meet: (V, V) -> V)
    : GenericVolumeSet<V, C>
  {
    var lambdas := if n.direction == 1 then Some(n.maxvs) else if n.direction == -1 then Some(n.minvs) else None;
    var base := MakeInterfaceSet(PairVolumes(iw, n.minvs, n.maxvs, volumeFunc, meet), cv, lambdas, Some(n.direction));
    GenericVolumeSet(GenericState(base, minvals, maxvals, iw), SetVolumeFunc(base.direction, minvals, maxvals, volumeFunc))
  }

  /** From equal-length normalised lists and a direction of -1, 0 or 1, the constructor builds a well-formed set. */
  lemma AssembleSpec<V, C>(cv: C, minvals: Bound, maxvals: Bound, iw: V, n: Normalized,
                           volumeFunc: (Bound, Bound) -> V, meet: (V, V) -> V)
    requires |n.minvs| == |n.maxvs| && -1 <= n.direction <= 1
    ensures Assemble(cv, minvals, maxvals, iw, n, volumeFunc, meet).volumeFunc == SetVolumeFunc(n.direction, minvals, maxvals, volumeFunc)
    ensures var st := Assemble(cv, minvals, maxvals, iw, n, volumeFunc, meet).state;
      && WellFormed(st)
      && st.minvals == minvals && st.maxvals == maxvals && st.intersectWith == iw
      && st.base.cv == cv && st.base.direction == n.direction
      && |st.base.volumes| == |n.minvs|
      && (forall i :: 0 <= i < |st.base.volumes| ==>
            st.base.volumes[i] == meet(iw, volumeFunc(Scalar(n.minvs[i]), Scalar(n.maxvs[i]))))
      && (n.direction == 1 ==> st.base.lambdas == Some(n.maxvs))
      && (n.direction == -1 ==> st.base.lambdas == Some(n.minvs))
      && (n.direction == 0 ==> st.base.lambdas == None)
  {
  }

  /**
   * Construction fails exactly when `_sanitize_input` does, with the same
   * exception; otherwise the set is well formed, its volume function is
   * specialised by its direction, it has one volume per
   * normalised pair, built from that pair, and takes its lambdas from the
   * side the direction names.
   */
  lemma MakeGenericSpec<V, C>(cv: C, minvals: Bound, maxvals: Bound, intersectWith: Option<V>,
                              volumeFunc: (Bound, Bound) -> V, full: V, meet: (V, V) -> V)
    ensures var r, n := MakeGeneric(cv, minvals, maxvals, intersectWith, volumeFunc, full, meet), SanitizeInput(minvals, maxvals);
      && (r.Ok? <==> n.Ok?)
      && (r.Err? ==> r.error == n.error)
      && (r.Ok? ==>
            var st := r.value.state;
            && r.value.volumeFunc == SetVolumeFunc(st.base.direction, minvals, maxvals, volumeFunc)
            && WellFormed(st)
            && st.minvals == minvals && st.maxvals == maxvals
            && st.intersectWith == (if intersectWith.None? then full else intersectWith.value)
            && st.base.cv == cv
            && st.base.direction == n.value.direction
            && |st.base.volumes| == Max(|AsList(minvals)|, |AsList(maxvals)|)
            && (forall i :: 0 <= i < |st.base.volumes| ==>
                  st.base.volumes[i] == meet(st.intersectWith, volumeFunc(Scalar(n.value.minvs[i]), Scalar(n.value.maxvs[i]))))
            && (st.base.direction == 1 ==> st.base.lambdas == Some(n.value.maxvs))
            && (st.base.direction == -1 ==> st.base.lambdas == Some(n.value.minvs))
            && (st.base.direction == 0 ==> st.base.lambdas == None))
  {
    if SanitizeInput(minvals, maxvals).Ok? {
      var n := SanitizeInput(minvals, maxvals).value;
      SanitizeShape(minvals, maxvals);
      var iw := if intersectWith.None? then full else intersectWith.value;
      AssembleSpec(cv, minvals, maxvals, iw, n, volumeFunc, meet);
    }
  }

  /**
   * `self.volume_func(lambda_i)`: the two-argument function given one argument
   * raises TypeError; a specialised one puts `lambda_i` in the slot it left open.
   */
  function CallFactory<W>(fac: Factory<W>, lambdaI: real): Result<W> {
    match fac
    case TwoArg(_) => Err(ArityError)
    case FixedMin(minv, f) => Ok(f(minv, Scalar(lambdaI)))
    case FixedMax(maxv, f) => Ok(f(Scalar(lambdaI), maxv))
  }

  /**
   * `new_interface(lambda_i)`: `intersect_with & volume_func(lambda_i)` with the
   * one-argument function; on a direction-0 set the two-argument function
   * gets one argument and raises TypeError. The set itself is not changed.
   */
  function NewInterface<V(==), C>(s: GenericVolumeSet<V, C>, meet: (V, V) -> V, lambdaI: real): Result<V> {
    match CallFactory(s.volumeFunc, lambdaI)
    case Err(e) => Err(e)
    case Ok(v) => Ok(meet(s.state.intersectWith, v))
  }

  /**
   * On a constructed set, direction 1 fixes the stored minvals and puts
   * `lambdaI` in the max slot, direction -1 fixes the stored maxvals and puts
   * `lambdaI` in the min slot, and direction 0 raises.
   */
  lemma NewInterfaceByDirection<V, C>(cv: C, minvals: Bound, maxvals: Bound, intersectWith: Option<V>,
                                      volumeFunc: (Bound, Bound) -> V, full: V, meet: (V, V) -> V, lambdaI: real)
    requires SanitizeInput(minvals, maxvals).Ok?
    ensures MakeGeneric(cv, minvals, maxvals, intersectWith, volumeFunc, full, meet).Ok?
    ensures var s := MakeGeneric(cv, minvals, maxvals, intersectWith, volumeFunc, full, meet).value;
      var d, iw := s.state.base.direction, s.state.intersectWith;
      && (d == 1 ==> NewInterface(s, meet, lambdaI) == Ok(meet(iw, volumeFunc(minvals, Scalar(lambdaI)))))
      && (d == -1 ==> NewInterface(s, meet, lambdaI) == Ok(meet(iw, volumeFunc(Scalar(lambdaI), maxvals))))
      && (d == 0 ==> NewInterface(s, meet, lambdaI) == Err(ArityError))
  {
    MakeGenericSpec(cv, minvals, maxvals, intersectWith, volumeFunc, full, meet);
  }

  /**
   * The usual increasing set: a scalar minimum and a list of at least two
   * maxima give direction 1, the maxima as lambdas, one volume per maximum,
   * and `new_interface(lambdas[i])` rebuilds `volumes[i]`.
   */
  lemma ScalarMinSet<V, C>(cv: C, m: real, xs: seq<real>, intersectWith: Option<V>,
                           volumeFunc: (Bound, Bound) -> V, full: V, meet: (V, V) -> V)
    requires |xs| >= 2
    ensures MakeGeneric(cv, Scalar(m), List(xs), intersectWith, volumeFunc, full, meet).Ok?
    ensures var s := MakeGeneric(cv, Scalar(m), List(xs), intersectWith, volumeFunc, full, meet).value;
      && s.state.base.direction == 1
      && s.state.base.lambdas == Some(xs)
      && |s.state.base.volumes| == |xs|
      && forall i :: 0 <= i < |xs| ==>
           s.state.base.volumes[i] == meet(s.state.intersectWith, volumeFunc(Scalar(m), Scalar(xs[i]))) &&
           NewInterface(s, meet, xs[i]) == Ok(s.state.base.volumes[i])
  {
    SanitizeErrors(Scalar(m), List(xs));
    SanitizeShape(Scalar(m), List(xs));
    SanitizeDirection(Scalar(m), List(xs));
    MakeGenericSpec(cv, Scalar(m), List(xs), intersectWith, volumeFunc, full, meet);
    assert MakeGeneric(cv, Scalar(m), List(xs), intersectWith, volumeFunc, full, meet).value.volumeFunc
        == FixedMin(Scalar(m), volumeFunc);
  }

  /**
   * The mirror image: a list of at least two minima and a scalar maximum give
   * direction -1, the minima as lambdas, and `new_interface(lambdas[i])`
   * rebuilds `volumes[i]`.
   */
  lemma ScalarMaxSet<V, C>(cv: C, xs: seq<real>, m: real, intersectWith: Option<V>,
                           volumeFunc: (Bound, Bound) -> V, full: V, meet: (V, V) -> V)
    requires |xs| >= 2
    ensures MakeGeneric(cv, List(xs), Scalar(m), intersectWith, volumeFunc, full, meet).Ok?
    ensures var s := MakeGeneric(cv, List(xs), Scalar(m), intersectWith, volumeFunc, full, meet).value;
      && s.state.base.direction == -1
      && s.state.base.lambdas == Some(xs)
      && |s.state.base.volumes| == |xs|
      && forall i :: 0 <= i < |xs| ==>
           s.state.base.volumes[i] == meet(s.state.intersectWith, volumeFunc(Scalar(xs[i]), Scalar(m))) &&
           NewInterface(s, meet, xs[i]) == Ok(s.state.base.volumes[i])
  {
    SanitizeErrors(List(xs), Scalar(m));
    SanitizeShape(List(xs), Scalar(m));
    SanitizeDirection(List(xs), Scalar(m));
    MakeGenericSpec(cv, List(xs), Scalar(m), intersectWith, volumeFunc, full, meet);
    assert MakeGeneric(cv, List(xs), Scalar(m), intersectWith, volumeFunc, full, meet).value.volumeFunc
        == FixedMax(Scalar(m), volumeFunc);
  }

  /** The dict `to_dict` returns and `_load_from_dict` reads, as a record with one field per key. */
  datatype Record<V, C> = Record(
    cv: C,
    minvals: Bound,
    maxvals: Bound,
    intersectWith: V,
    lambdas: Option<seq<real>>,
    direction: int,
    volumes: seq<V>)

  /** `to_dict()` */
  function ToDict<V(==), C>(st: GenericState<V, C>): Record<V, C> {
    Record(st.base.cv, st.minvals, st.maxvals, st.intersectWith, st.base.lambdas, st.base.direction, st.base.volumes)
  }

  /** `_load_from_dict(dct)`: copies every field and rebuilds the lookup table; nothing is re-derived. */
  function LoadFromDict<V(==), C>(d: Record<V, C>): GenericState<V, C> {
    GenericState(InterfaceSet(d.volumes, d.cv, d.lambdas, d.direction, LambdaDict(d.volumes, d.lambdas)),
                 d.minvals, d.maxvals, d.intersectWith)
  }

  /** Loading what `to_dict` wrote restores every field, the lookup table included, and keeps well-formedness. */
  lemma LoadToDict<V, C>(st: GenericState<V, C>)
    requires Valid(st.base)
    ensures LoadFromDict(ToDict(st)) == st
    ensures WellFormed(st) ==> WellFormed(LoadFromDict(ToDict(st)))
  {
  }

  /** Writing out what was loaded gives back the same record. */
  lemma ToDictLoad<V, C>(d: Record<V, C>)
    ensures ToDict(LoadFromDict(d)) == d
    ensures Valid(LoadFromDict(d).base)
  {
  }

  /** `self.minvals[slicer]`: a list is sliced, a scalar raises TypeError and is kept as it is. */
  function SliceBoundValue(b: Bound, start: Option<int>, stop: Option<int>): Bound {
    match b
    case Scalar(_) => b
    case List(xs) => List(Slice(xs, start, stop))
  }

  /**
   * `_slice_dict(slicer)`: `to_dict()` with the volumes, lambdas, minvals and
   * maxvals replaced by their slices.
   */
  function SliceDict<V(==), C>(st: GenericState<V, C>, start: Option<int>, stop: Option<int>): Record<V, C> {
    ToDict(st).(volumes := Slice(st.base.volumes, start, stop),
                lambdas := SliceLambdas(st.base.lambdas, start, stop),
                minvals := SliceBoundValue(st.minvals, start, stop),
                maxvals := SliceBoundValue(st.maxvals, start, stop))
  }

  /**
   * Loading the `_slice_dict` of a well-formed set gives a well-formed state
   * holding the sliced volumes, lambdas, minvals and maxvals, with the CV,
   * the direction and the intersect volume carried over.
   */
  lemma SliceDictSpec<V, C>(st: GenericState<V, C>, start: Option<int>, stop: Option<int>)
    requires WellFormed(st)
    ensures var u := LoadFromDict(SliceDict(st, start, stop));
      && WellFormed(u)
      && u.base.volumes == Slice(st.base.volumes, start, stop)
      && u.base.lambdas == SliceLambdas(st.base.lambdas, start, stop)
      && u.minvals == SliceBoundValue(st.minvals, start, stop)
      && u.maxvals == SliceBoundValue(st.maxvals, start, stop)
      && u.base.cv == st.base.cv && u.base.direction == st.base.direction && u.intersectWith == st.intersectWith
  {
    if st.base.lambdas.Some? {
      SlicePair(st.base.volumes, st.base.lambdas.value, start, stop);
    }
  }
}
