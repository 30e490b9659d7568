/**
 * `PeriodicVolumeInterfaceSet`: the generic interface set whose volume
 * function is `CVRangeVolumePeriodic(cv, minv, maxv, period_min, period_max)`.
 * It stores the two period bounds and adds them to its `to_dict` record.
 */
module PeriodicVolumeInterfaceSets {
  import opened Outcomes
  import opened PyLists
  import opened InterfaceSets
  import opened GenericVolumeInterfaceSets

  /**
   * The parts of the volume library this class uses: the full volume, the
   * intersection `&`, and `CVRangeVolumePeriodic(cv, minv, maxv, period_min, period_max)`,
   * taking the CV and the period bounds first and then the bounds.
   */
  datatype PeriodicLibrary<!V, !C> = PeriodicLibrary(
    full: V,
    meet: (V, V) -> V,
    periodicRange: (C, Option<real>, Option<real>) -> (Bound, Bound) -> V)

  /** A `PeriodicVolumeInterfaceSet` object: the generic fields plus the period bounds. */
  datatype PeriodicSet<V(==), C> = PeriodicSet(
    generic: GenericVolumeSet<V, C>,
    periodMin: Option<real>,
    periodMax: Option<real>)

  /** The dict its `to_dict` returns: the generic record plus `period_min` and `period_max`. */
  datatype PeriodicRecord<V, C> = PeriodicRecord(
    record: Record<V, C>,
    periodMin: Option<real>,
    periodMax: Option<real>)

  /** The two-argument volume function over a CV and period bounds. */
  function PeriodicVolumeFunc<V, C>(lib: PeriodicLibrary<V, C>, cv: C, periodMin: Option<real>, periodMax: Option<real>)
    : (Bound, Bound) -> V
  {
    lib.periodicRange(cv, periodMin, periodMax)
  }

  /** `PeriodicVolumeInterfaceSet(cv, minvals, maxvals, period_min, period_max, intersect_with)` */
  function MakePeriodic<V(==), C>(cv: C, minvals: Bound, maxvals: Bound, periodMin: Option<real>, periodMax: Option<real>,
                                  intersectWith: Option<V>, lib: PeriodicLibrary<V, C>)
    : Result<PeriodicSet<V, C>>
  {
    match MakeGeneric(cv, minvals, maxvals, intersectWith, PeriodicVolumeFunc(lib, cv, periodMin, periodMax), lib.full, lib.meet)
    case Err(e) => Err(e)
    case Ok(g) => Ok(PeriodicSet(g, periodMin, periodMax))
  }

  /** `to_dict()`: the generic record with `period_min` and `period_max` added. */
  function PeriodicToDict<V(==), C>(s: PeriodicSet<V, C>): PeriodicRecord<V, C> {
    PeriodicRecord(ToDict(s.generic.state), s.periodMin, s.periodMax)
  }

  /**
   * `from_dict(dct)` with the loaded period bounds in the volume function.
   * This is the evident intent of the source, whose volume function reads the
   * period bounds from a name that is not bound there (see
   * `PeriodicFromDictAsWritten`).
   */
  function PeriodicFromDict<V(==), C>(d: PeriodicRecord<V, C>, lib: PeriodicLibrary<V, C>): PeriodicSet<V, C> {
    var f := PeriodicVolumeFunc(lib, d.record.cv, d.periodMin, d.periodMax);
    PeriodicSet(GenericVolumeSet(LoadFromDict(d.record), SetVolumeFunc(d.record.direction, d.record.minvals, d.record.maxvals, f)),
                d.periodMin, d.periodMax)
  }

  /**
   * What the name `self` refers to inside a volume function built by
   * `from_dict`. `from_dict` is a static method, so as written no `self` is in
   * scope there: the name is unbound. Bound to the loaded object, it would
   * carry that object's period bounds.
   */
  datatype SelfScope = Unbound | BoundTo(periodMin: Option<real>, periodMax: Option<real>)

  /**
   * The volume function `from_dict` installs:
   * `CVRangeVolumePeriodic(interface_set.cv, minv, maxv, self.period_min, self.period_max)`.
   * Evaluating its arguments looks up `self`; an unbound name raises NameError.
   */
  function ScopedPeriodicVolumeFunc<V, C>(lib: PeriodicLibrary<V, C>, cv: C, scope: SelfScope): (Bound, Bound) -> Result<V> {
    (minv: Bound, maxv: Bound) =>
      match scope
      case Unbound => Err(NameError)
      case BoundTo(periodMin, periodMax) => Ok(lib.periodicRange(cv, periodMin, periodMax)(minv, maxv))
  }

  /** A set loaded by `from_dict` whose volume function may raise: the loaded fields and that function. */
  datatype LoadedPeriodicSet<V(==), C> = LoadedPeriodicSet(
    state: GenericState<V, C>,
    periodMin: Option<real>,
    periodMax: Option<real>,
    volumeFunc: Factory<Result<V>>)

  /**
   * The steps of `from_dict`: `_load_from_dict`, the two period bounds, then
   * `_set_volume_func` over a volume function that resolves `self` in `scope`.
   */
  function LoadPeriodic<V(==), C>(d: PeriodicRecord<V, C>, lib: PeriodicLibrary<V, C>, scope: SelfScope): LoadedPeriodicSet<V, C> {
    var st := LoadFromDict(d.record);
    var f := ScopedPeriodicVolumeFunc(lib, st.base.cv, scope);
    LoadedPeriodicSet(st, d.periodMin, d.periodMax, SetVolumeFunc(st.base.direction, st.minvals, st.maxvals, f))
  }

  /** `PeriodicVolumeInterfaceSet.from_dict(dct)` as written: `self` is unbound in its volume function. */
  function PeriodicFromDictAsWritten<V(==), C>(d: PeriodicRecord<V, C>, lib: PeriodicLibrary<V, C>): LoadedPeriodicSet<V, C> {
    LoadPeriodic(d, lib, Unbound)
  }

  /**
   * `new_interface(lambda_i)` on a loaded set: the same dispatch on the
   * factory as for a constructed set, with an exception raised inside the
   * volume function passed on.
   */
  function LoadedNewInterface<V(==), C>(t: LoadedPeriodicSet<V, C>, meet: (V, V) -> V, lambdaI: real): Result<V> {
    match CallFactory(t.volumeFunc, lambdaI)
    case Err(e) => Err(e)
    case Ok(called) =>
      (match called
       case Err(e) => Err(e)
       case Ok(v) => Ok(meet(t.state.intersectWith, v)))
  }

  /**
   * As written, `from_dict` loads every field and both period bounds, but
   * `new_interface` on the result never returns a volume: direction 0 raises
   * the arity TypeError, any other direction reaches the volume function and
   * raises NameError.
   */
  lemma LoadAsWrittenNewInterface<V, C>(d: PeriodicRecord<V, C>, lib: PeriodicLibrary<V, C>, lambdaI: real)
    ensures var t := PeriodicFromDictAsWritten(d, lib);
      && t.state == LoadFromDict(d.record)
      && t.periodMin == d.periodMin && t.periodMax == d.periodMax
      && LoadedNewInterface(t, lib.meet, lambdaI) == (if d.record.direction == 0 then Err(ArityError) else Err(NameError))
  {
  }

  /**
   * With `self` bound to the loaded object, the same steps give the corrected
   * `from_dict`: `new_interface` agrees with `PeriodicFromDict` for every lambda.
   */
  lemma BoundScopeIsCorrected<V, C>(d: PeriodicRecord<V, C>, lib: PeriodicLibrary<V, C>, lambdaI: real)
    ensures var t := LoadPeriodic(d, lib, BoundTo(d.periodMin, d.periodMax));
      && t.state == PeriodicFromDict(d, lib).generic.state
      && LoadedNewInterface(t, lib.meet, lambdaI) == NewInterface(PeriodicFromDict(d, lib).generic, lib.meet, lambdaI)
  {
  }

  /**
   * As written, a set with direction 1 or -1 loses its factory on a round
   * trip through the dict: the constructed set returns a volume for every
   * lambda; the loaded one has the same fields and raises NameError.
   */
  lemma LoadAsWrittenLosesNewInterface<V, C>(cv: C, minvals: Bound, maxvals: Bound, periodMin: Option<real>,
                                             periodMax: Option<real>, intersectWith: Option<V>,
                                             lib: PeriodicLibrary<V, C>, lambdaI: real)
    requires SanitizeInput(minvals, maxvals).Ok? && SanitizeInput(minvals, maxvals).value.direction != 0
    ensures MakePeriodic(cv, minvals, maxvals, periodMin, periodMax, intersectWith, lib).Ok?
    ensures var s := MakePeriodic(cv, minvals, maxvals, periodMin, periodMax, intersectWith, lib).value;
      var t := PeriodicFromDictAsWritten(PeriodicToDict(s), lib);
      && s.generic.state.base.direction != 0
      && NewInterface(s.generic, lib.meet, lambdaI).Ok?
      && t.state == s.generic.state
      && t.periodMin == periodMin && t.periodMax == periodMax
      && LoadedNewInterface(t, lib.meet, lambdaI) == Err(NameError)
  {
    var f := PeriodicVolumeFunc(lib, cv, periodMin, periodMax);
    MakeGenericSpec(cv, minvals, maxvals, intersectWith, f, lib.full, lib.meet);
    NewInterfaceByDirection(cv, minvals, maxvals, intersectWith, f, lib.full, lib.meet, lambdaI);
    var s := MakePeriodic(cv, minvals, maxvals, periodMin, periodMax, intersectWith, lib).value;
    LoadToDict(s.generic.state);
    LoadAsWrittenNewInterface(PeriodicToDict(s), lib, lambdaI);
  }

  /**
   * With the corrected `from_dict`, `from_dict(to_dict(x))` restores every
   * field, the period bounds included, and `new_interface` gives the same
   * volume for every lambda.
   */
  lemma PeriodicRoundTrip<V, C>(cv: C, minvals: Bound, maxvals: Bound, periodMin: Option<real>, periodMax: Option<real>,
                                intersectWith: Option<V>, lib: PeriodicLibrary<V, C>, lambdaI: real)
    requires MakePeriodic(cv, minvals, maxvals, periodMin, periodMax, intersectWith, lib).Ok?
    ensures var s := MakePeriodic(cv, minvals, maxvals, periodMin, periodMax, intersectWith, lib).value;
      var t := PeriodicFromDict(PeriodicToDict(s), lib);
      && t.generic.state == s.generic.state
      && t.periodMin == s.periodMin && t.periodMax == s.periodMax
      && WellFormed(t.generic.state)
      && NewInterface(t.generic, lib.meet, lambdaI) == NewInterface(s.generic, lib.meet, lambdaI)
  {
    var s := MakePeriodic(cv, minvals, maxvals, periodMin, periodMax, intersectWith, lib).value;
    MakeGenericSpec(cv, minvals, maxvals, intersectWith, PeriodicVolumeFunc(lib, cv, periodMin, periodMax), lib.full, lib.meet);
    LoadToDict(s.generic.state);
  }

  /**
   * `s[key]` with the corrected `from_dict`: an int key gives the bare volume;
   * a slice goes through the `to_dict` of this class, so the period bounds
   * travel with the sliced record into `from_dict`.
   */
  function PeriodicGetItem<V(==), C>(s: PeriodicSet<V, C>, key: Key, lib: PeriodicLibrary<V, C>)
    : Result<Item<V, PeriodicSet<V, C>>>
  {
    match key
    case Index(i) =>
      (match At(s.generic.state.base.volumes, i)
       case Err(e) => Err(e)
       case Ok(v) => Ok(Element(v)))
    case Span(start, stop) =>
      Ok(Subset(PeriodicFromDict(PeriodicRecord(SliceDict(s.generic.state, start, stop), s.periodMin, s.periodMax), lib)))
  }

  /**
   * A slice of a well-formed periodic set is well formed, holds the sliced
   * volumes, and keeps the period bounds, the CV and the direction.
   */
  lemma PeriodicSliceSpec<V, C>(s: PeriodicSet<V, C>, start: Option<int>, stop: Option<int>, lib: PeriodicLibrary<V, C>)
    requires WellFormed(s.generic.state)
    ensures PeriodicGetItem(s, Span(start, stop), lib).Ok? && PeriodicGetItem(s, Span(start, stop), lib).value.Subset?
    ensures var t := PeriodicGetItem(s, Span(start, stop), lib).value.subset;
      && WellFormed(t.generic.state)
      && t.generic.state.base.volumes == Slice(s.generic.state.base.volumes, start, stop)
      && t.generic.state.base.lambdas == SliceLambdas(s.generic.state.base.lambdas, start, stop)
      && t.generic.state.minvals == SliceBoundValue(s.generic.state.minvals, start, stop)
      && t.generic.state.maxvals == SliceBoundValue(s.generic.state.maxvals, start, stop)
      && t.periodMin == s.periodMin && t.periodMax == s.periodMax
      && t.generic.state.base.cv == s.generic.state.base.cv
      && t.generic.state.base.direction == s.generic.state.base.direction
  {
    var t := PeriodicFromDict(PeriodicRecord(SliceDict(s.generic.state, start, stop), s.periodMin, s.periodMax), lib);
    assert PeriodicGetItem(s, Span(start, stop), lib) == Ok(Subset(t));
    SliceDictSpec(s.generic.state, start, stop);
  }

  /** `s[key]` as written: a slice is loaded by the `from_dict` of the source. */
  function PeriodicGetItemAsWritten<V(==), C>(s: PeriodicSet<V, C>, key: Key, lib: PeriodicLibrary<V, C>)
    : Result<Item<V, LoadedPeriodicSet<V, C>>>
  {
    match key
    case Index(i) =>
      (match At(s.generic.state.base.volumes, i)
       case Err(e) => Err(e)
       case Ok(v) => Ok(Element(v)))
    case Span(start, stop) =>
      Ok(Subset(PeriodicFromDictAsWritten(PeriodicRecord(SliceDict(s.generic.state, start, stop), s.periodMin, s.periodMax), lib)))
  }

  /**
   * As written, a slice holds the same fields as the corrected slice, but
   * `new_interface` on it raises: the arity TypeError on direction 0 and
   * NameError otherwise.
   */
  lemma SliceAsWrittenLosesNewInterface<V, C>(s: PeriodicSet<V, C>, start: Option<int>, stop: Option<int>,
                                              lib: PeriodicLibrary<V, C>, lambdaI: real)
    ensures PeriodicGetItemAsWritten(s, Span(start, stop), lib).Ok?
    ensures PeriodicGetItemAsWritten(s, Span(start, stop), lib).value.Subset?
    ensures var t := PeriodicGetItemAsWritten(s, Span(start, stop), lib).value.subset;
      && t.state == PeriodicGetItem(s, Span(start, stop), lib).value.subset.generic.state
      && t.periodMin == s.periodMin && t.periodMax == s.periodMax
      && LoadedNewInterface(t, lib.meet, lambdaI)
         == (if s.generic.state.base.direction == 0 then Err(ArityError) else Err(NameError))
  {
    var d := PeriodicRecord(SliceDict(s.generic.state, start, stop), s.periodMin, s.periodMax);
    assert PeriodicGetItemAsWritten(s, Span(start, stop), lib) == Ok(Subset(PeriodicFromDictAsWritten(d, lib)));
    assert PeriodicGetItem(s, Span(start, stop), lib) == Ok(Subset(PeriodicFromDict(d, lib)));
    LoadAsWrittenNewInterface(d, lib, lambdaI);
  }
}
