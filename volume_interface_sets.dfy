/**
 * `VolumeInterfaceSet`: the generic interface set whose volume function is
 * `CVRangeVolume(cv, minv, maxv)`, together with the `from_dict` that rebuilds
 * one from its `to_dict` record and the `__getitem__` that slices through
 * that record.
 */
module VolumeInterfaceSets {
  import opened Outcomes
  import opened PyLists
  import opened InterfaceSets
  import opened GenericVolumeInterfaceSets

  /**
   * The parts of the volume library this class uses: the full volume, the
   * intersection `&`, and the range-volume constructor `CVRangeVolume(cv, minv, maxv)`,
   * taking the CV first and then the bounds.
   */
  datatype VolumeLibrary<!V, !C> = VolumeLibrary(full: V, meet: (V, V) -> V, range: C -> (Bound, Bound) -> V)

  /** `VolumeInterfaceSet(cv, minvals, maxvals, intersect_with)` */
  function MakeVolumeSet<V(==), C>(cv: C, minvals: Bound, maxvals: Bound, intersectWith: Option<V>, lib: VolumeLibrary<V, C>)
    : Result<GenericVolumeSet<V, C>>
  {
    MakeGeneric(cv, minvals, maxvals, intersectWith, lib.range(cv), lib.full, lib.meet)
  }

  /**
   * `VolumeInterfaceSet.from_dict(dct)`: load every field without re-deriving
   * anything, then specialise `CVRangeVolume` over the loaded CV by the loaded
   * direction, minvals and maxvals.
   */
  function FromDict<V(==), C>(d: Record<V, C>, lib: VolumeLibrary<V, C>): GenericVolumeSet<V, C> {
    GenericVolumeSet(LoadFromDict(d), SetVolumeFunc(d.direction, d.minvals, d.maxvals, lib.range(d.cv)))
  }

  /**
   * `from_dict(to_dict(x))` for a constructed set restores the CV, minvals,
   * maxvals, intersect volume, lambdas, direction, volumes and lookup table
   * exactly, and behaves the same for `new_interface` and `get_lambda`.
   */
  lemma RoundTrip<V, C>(cv: C, minvals: Bound, maxvals: Bound, intersectWith: Option<V>, lib: VolumeLibrary<V, C>,
                        lambdaI: real, volume: V)
    requires MakeVolumeSet(cv, minvals, maxvals, intersectWith, lib).Ok?
    ensures var s := MakeVolumeSet(cv, minvals, maxvals, intersectWith, lib).value;
      var t := FromDict(ToDict(s.state), lib);
      && t.state == s.state
      && WellFormed(t.state)
      && NewInterface(t, lib.meet, lambdaI) == NewInterface(s, lib.meet, lambdaI)
      && GetLambda(t.state.base, volume) == GetLambda(s.state.base, volume)
  {
    var s := MakeVolumeSet(cv, minvals, maxvals, intersectWith, lib).value;
    MakeGenericSpec(cv, minvals, maxvals, intersectWith, lib.range(cv), lib.full, lib.meet);
    LoadToDict(s.state);
  }

  /**
   * `s[key]`: an int key gives the bare volume (IndexError when out of
   * range); a slice gives `from_dict(_slice_dict(key))`.
   */
  function VolumeGetItem<V(==), C>(s: GenericVolumeSet<V, C>, key: Key, lib: VolumeLibrary<V, C>)
    : Result<Item<V, GenericVolumeSet<V, C>>>
  {
    match key
    case Index(i) =>
      (match At(s.state.base.volumes, i)
       case Err(e) => Err(e)
       case Ok(v) => Ok(Element(v)))
    case Span(start, stop) => Ok(Subset(FromDict(SliceDict(s.state, start, stop), lib)))
  }

  /** An int key in range gives the volume at that position, counting from the end when negative. */
  lemma IndexSpec<V, C>(s: GenericVolumeSet<V, C>, lib: VolumeLibrary<V, C>, i: int)
    ensures var vs := s.state.base.volumes;
      && (0 <= i < |vs| ==> VolumeGetItem(s, Index(i), lib) == Ok(Element(vs[i])))
      && (-|vs| <= i < 0 ==> VolumeGetItem(s, Index(i), lib) == Ok(Element(vs[|vs| + i])))
      && (i < -|vs| || |vs| <= i ==> VolumeGetItem(s, Index(i), lib) == Err(IndexError))
  {
  }

  /**
   * `s[start:stop]` of a well-formed set is a well-formed set whose volumes
   * are the sliced volumes; list-valued lambdas, minvals and maxvals are
   * sliced with the same bounds, while `None` lambdas, scalar minvals and
   * maxvals, the CV, the direction and the intersect volume carry over.
   */
  lemma VolumeSliceSpec<V, C>(s: GenericVolumeSet<V, C>, start: Option<int>, stop: Option<int>, lib: VolumeLibrary<V, C>)
    requires WellFormed(s.state)
    ensures VolumeGetItem(s, Span(start, stop), lib).Ok? && VolumeGetItem(s, Span(start, stop), lib).value.Subset?
    ensures var t := VolumeGetItem(s, Span(start, stop), lib).value.subset;
      var b, tb := s.state.base, t.state.base;
      && WellFormed(t.state)
      && tb.volumes == Slice(b.volumes, start, stop)
      && (b.lambdas.None? ==> tb.lambdas.None?)
      && (b.lambdas.Some? ==> tb.lambdas == Some(Slice(b.lambdas.value, start, stop)))
      && (s.state.minvals.Scalar? ==> t.state.minvals == s.state.minvals)
      && (s.state.minvals.List? ==> t.state.minvals == List(Slice(s.state.minvals.xs, start, stop)))
      && (s.state.maxvals.Scalar? ==> t.state.maxvals == s.state.maxvals)
      && (s.state.maxvals.List? ==> t.state.maxvals == List(Slice(s.state.maxvals.xs, start, stop)))
      && tb.cv == b.cv && tb.direction == b.direction && t.state.intersectWith == s.state.intersectWith
  {
    var t := FromDict(SliceDict(s.state, start, stop), lib);
    assert VolumeGetItem(s, Span(start, stop), lib) == Ok(Subset(t));
    SliceDictSpec(s.state, start, stop);
  }

  /**
   * The `new_interface` of a slice is specialised on its own minvals or
   * maxvals (the sliced list, or the same scalar), by the same direction.
   */
  lemma SliceNewInterface<V, C>(s: GenericVolumeSet<V, C>, start: Option<int>, stop: Option<int>, lib: VolumeLibrary<V, C>,
                                lambdaI: real)
    ensures VolumeGetItem(s, Span(start, stop), lib).Ok? && VolumeGetItem(s, Span(start, stop), lib).value.Subset?
    ensures var t, b := VolumeGetItem(s, Span(start, stop), lib).value.subset, s.state.base;
      var mins, maxs := SliceBoundValue(s.state.minvals, start, stop), SliceBoundValue(s.state.maxvals, start, stop);
      && (b.direction == 0 ==> NewInterface(t, lib.meet, lambdaI) == Err(ArityError))
      && (b.direction > 0 ==>
            NewInterface(t, lib.meet, lambdaI) == Ok(lib.meet(s.state.intersectWith, lib.range(b.cv)(mins, Scalar(lambdaI)))))
      && (b.direction < 0 ==>
            NewInterface(t, lib.meet, lambdaI) == Ok(lib.meet(s.state.intersectWith, lib.range(b.cv)(Scalar(lambdaI), maxs))))
  {
    var t := FromDict(SliceDict(s.state, start, stop), lib);
    assert VolumeGetItem(s, Span(start, stop), lib) == Ok(Subset(t));
  }
}
