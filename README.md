# Interface sets of a transition-path-sampling toolkit, in Dafny

This project models the interface-set bookkeeping of OpenPathSampling
(`openpathsampling/high_level/interface_set.py`): ordered lists of interface
volumes along an order parameter (the CV), the CV value ("lambda") of each
interface, and the direction in which the lambdas run.

- `InterfaceSets` (`interface_sets.dfy`) models `InterfaceSet`: construction
  with the direction guessed from the monotonicity of the lambdas, the
  volume-to-lambda lookup table behind `get_lambda`, and the immutable list
  API (`len`, indexing, slicing, `in`, iteration, `reversed`).
- `GenericVolumeInterfaceSets` (`generic_volume_interface_sets.dfy`) models
  `GenericVolumeInterfaceSet`. It covers `_sanitize_input`, which turns
  scalar or list minvals/maxvals into equal-length lists and infers the
  direction. It also covers construction of the volumes and lambdas, the
  one-argument specialisation of the volume function (`_set_volume_func`),
  `new_interface`, `to_dict`, `_load_from_dict` and `_slice_dict`.
- `VolumeInterfaceSets` (`volume_interface_sets.dfy`) models
  `VolumeInterfaceSet`: construction over `CVRangeVolume`, `from_dict`, and
  `__getitem__`, which slices through `from_dict(_slice_dict(key))`.
- `PeriodicVolumeInterfaceSets` (`periodic_volume_interface_sets.dfy`)
  models `PeriodicVolumeInterfaceSet`: its period bounds, its extended
  `to_dict`, and `from_dict` (see Findings).
- `PyLists` (`py_lists.dfy`) gives the Python list semantics the code relies
  on: `list.count`, `xs * k`, negative indices, clamped slices and `reversed`.
- `Outcomes` (`outcomes.dfy`) holds `Option` for `None`, and `Result` with
  the exceptions the code raises.

Modelling choices:

- Every object is an immutable datatype. The source assigns fields only
  while constructing or loading an object. It does, however, keep the
  caller's own list objects, which a value cannot express (see Left out).
- Volumes are values of a type parameter `V` compared with `==`. The CV is
  an opaque handle of type `C`.
- The intersection `&`, `FullVolume()`, `CVRangeVolume` and
  `CVRangeVolumePeriodic` are function-typed parameters. They are not
  interpreted.
- CV values are `real`.
- A minvals/maxvals argument is `Bound = Scalar(x) | List(xs)`. This
  replaces the code's `len()`/`TypeError` probing.
- The volume function takes two `Bound`s. The specialised factory of
  `_set_volume_func` captures the stored minvals/maxvals as they were
  given, and a list stays a list there. `NewInterfaceByDirection` states
  this: after `minvals=[0, 0, 0]`, `new_interface(x)` calls the volume
  function with the whole list as its minimum.
- The factory is the variant `TwoArg | FixedMin | FixedMax` instead of a
  closure. Calling `TwoArg` with one argument is the `TypeError`, modelled
  as `ArityError`.

## Model

| member | source | states |
|---|---|---|
| `PyLists.Count` | openpathsampling/high_level/interface_set.py:204-206 | `list.count(x)` never exceeds the list's length |
| `PyLists.CountIsLength` | openpathsampling/high_level/interface_set.py:204-206 | `s.count(x) == len(s)` holds exactly when every element of `s` is `x` |
| `PyLists.CountFirstIsLength` | openpathsampling/high_level/interface_set.py:204-206 | for a non-empty list, `s.count(s[0]) == len(s)` holds exactly when all elements are pairwise equal |
| `PyLists.Repeat` | openpathsampling/high_level/interface_set.py:221-224 | `s * k` has `len(s) * k` elements |
| `PyLists.RepeatSingleton` | openpathsampling/high_level/interface_set.py:221-224 | `[x] * k` is exactly `k` copies of `x` |
| `PyLists.At` | openpathsampling/high_level/interface_set.py:78-79 | an int index succeeds exactly for `-len <= i < len`, counting from the end when negative, and raises IndexError otherwise |
| `PyLists.Slice` | openpathsampling/high_level/interface_set.py:68-70 | a slice never fails; its length is that of the clamped bounds and its k-th element is the element at the clamped start plus k |
| `PyLists.SlicePair` | openpathsampling/high_level/interface_set.py:68-72 | the same slice of two equally long lists has equal lengths and takes its k-th elements from the same position of both |
| `PyLists.SliceInRange` | openpathsampling/high_level/interface_set.py:68-70 | for `0 <= i <= j <= len`, `xs[i:j]` is the sub-sequence from i to j, of length `j - i` |
| `PyLists.Reverse` | openpathsampling/high_level/interface_set.py:91-92 | `reversed` has the same length and yields element `len-1-k` at position k |
| `InterfaceSets.Steps` | openpathsampling/high_level/interface_set.py:29-33 | the summed comparison count is below `len(lambdas)` for a non-empty list; what it means is stated by `InterfaceSets.StepsCountOrdered` |
| `InterfaceSets.StepsCountOrdered` | openpathsampling/high_level/interface_set.py:29-33 | the count of consecutive non-decreasing (non-increasing) steps equals `len - 1` exactly when the whole list is ordered that way |
| `InterfaceSets.GuessDirection` | openpathsampling/high_level/interface_set.py:26-40 | the guess is 1 iff the lambdas are non-empty and non-decreasing (checked before non-increasing, so constant lists give 1), -1 iff non-empty, not non-decreasing and non-increasing, and 0 otherwise, including for an empty list |
| `InterfaceSets.MakeInterfaceSet` | openpathsampling/high_level/interface_set.py:20-42 | fields are stored as given; an explicit direction is kept; with no direction and no lambdas it is 0; otherwise it is the monotonicity guess; the lookup table is consistent |
| `InterfaceSets.Labels` | openpathsampling/high_level/interface_set.py:45-47 | without lambdas every volume is labelled `None`; with lambdas the labels are the lambdas, one for one |
| `InterfaceSets.ZipDict` | openpathsampling/high_level/interface_set.py:48-49 | the dict comprehension over `zip`; no contract of its own, specified by `InterfaceSets.ZipDictKeys` and `InterfaceSets.ZipDictLookup` |
| `InterfaceSets.LambdaDict` | openpathsampling/high_level/interface_set.py:44-49 | `_set_lambda_dict`; no contract of its own: it is the zipped dict of the volumes and `InterfaceSets.Labels`, and `InterfaceSets.MakeInterfaceSet` and `GenericVolumeInterfaceSets.LoadFromDict` store it |
| `InterfaceSets.ZipDictKeys` | openpathsampling/high_level/interface_set.py:48-49 | the keys of the zipped dict are exactly the volumes among the first `min(len)` positions, and every value is one of the zipped labels |
| `InterfaceSets.ZipDictLookup` | openpathsampling/high_level/interface_set.py:48-49 | a volume that does not occur again later maps to the label paired with it (the last pair wins for duplicates) |
| `InterfaceSets.GetLambda` | openpathsampling/high_level/interface_set.py:51-64 | `get_lambda` as a dict lookup with KeyError; specified by `InterfaceSets.GetLambdaOfMember`, `InterfaceSets.GetLambdaOfNonMember` and `InterfaceSets.GetLambdaUnlabelled` |
| `InterfaceSets.GetLambdaOfMember` | openpathsampling/high_level/interface_set.py:44-64 | `get_lambda(volumes[i])` returns `lambdas[i]` (or `None` when the set has no lambdas) whenever `volumes[i]` is not repeated later, so for all members when the volumes are distinct |
| `InterfaceSets.GetLambdaOfNonMember` | openpathsampling/high_level/interface_set.py:51-64 | `get_lambda` raises KeyError exactly for volumes outside the labelled volumes |
| `InterfaceSets.GetLambdaUnlabelled` | openpathsampling/high_level/interface_set.py:44-64 | in a set without lambdas, every member gives `None` and every non-member raises KeyError |
| `InterfaceSets.Len` | openpathsampling/high_level/interface_set.py:75-76 | `len(s)`; specified with the other list operations by `InterfaceSets.IndexView` and `InterfaceSets.ListView` |
| `InterfaceSets.Contains` | openpathsampling/high_level/interface_set.py:88-89 | `item in s`; specified by `InterfaceSets.ListView` |
| `InterfaceSets.Iterate` | openpathsampling/high_level/interface_set.py:85-86 | `iter(s)`; specified by `InterfaceSets.IndexView` and `InterfaceSets.ListView` |
| `InterfaceSets.Reversed` | openpathsampling/high_level/interface_set.py:91-92 | `reversed(s)`; specified by `InterfaceSets.ListView` through `PyLists.Reverse` |
| `InterfaceSets.GetItem` | openpathsampling/high_level/interface_set.py:78-83 | `s[key]` of the base class, slicing through the constructor record; specified by `InterfaceSets.IndexView`, `InterfaceSets.SliceSpec` and `InterfaceSets.SliceLockstep` |
| `InterfaceSets.SliceLambdas` | openpathsampling/high_level/interface_set.py:69-72 | `self.lambdas[slicer]` with `None` kept by the TypeError branch; used and specified through `InterfaceSets.SliceSpec` |
| `InterfaceSets.IndexView` | openpathsampling/high_level/interface_set.py:78-83 | an int key `i` with `0 <= i < len` and the key `i - len` both give the i-th volume; every other int key raises IndexError |
| `InterfaceSets.ListView` | openpathsampling/high_level/interface_set.py:75-92 | `item in s` holds exactly when some index gives `item`; iteration yields the volumes in order and `reversed` yields them back to front, both of length `len(s)` |
| `InterfaceSets.SliceSpec` | openpathsampling/high_level/interface_set.py:66-83 | `s[i:j]` is a new consistent set over the sliced volumes and the lambdas sliced with the same bounds, with `None` lambdas, the CV and the direction kept |
| `InterfaceSets.SliceLockstep` | openpathsampling/high_level/interface_set.py:66-73 | a slice of a set with one lambda per volume again has one lambda per volume |
| `GenericVolumeInterfaceSets.AsList` | openpathsampling/high_level/interface_set.py:192-201 | the `len()`/TypeError probe: a scalar becomes a one-element list; no contract of its own |
| `GenericVolumeInterfaceSets.SanitizeInput` | openpathsampling/high_level/interface_set.py:170-225 | on success the two lists have equal length and the direction is -1, 0 or 1; the full behaviour is stated by `GenericVolumeInterfaceSets.SanitizeErrors`, `GenericVolumeInterfaceSets.SanitizeShape` and `GenericVolumeInterfaceSets.SanitizeDirection` |
| `GenericVolumeInterfaceSets.SanitizeErrors` | openpathsampling/high_level/interface_set.py:191-217 | normalisation succeeds iff both sides are non-empty and the lengths are equal or one is 1; two empty lists raise IndexError; every other failure is the RuntimeError |
| `GenericVolumeInterfaceSets.SanitizeShape` | openpathsampling/high_level/interface_set.py:219-225 | both outputs have the larger input length; a length-1 side is its value repeated; the other side is returned unchanged |
| `GenericVolumeInterfaceSets.SanitizeDirection` | openpathsampling/high_level/interface_set.py:191-214 | equal lengths: 1 iff minvals constant and maxvals not, -1 iff the reverse, 0 iff both or neither constant; unequal lengths: 1 when minvals has length 1, -1 when maxvals has |
| `GenericVolumeInterfaceSets.MakeGeneric` | openpathsampling/high_level/interface_set.py:115-128 | `GenericVolumeInterfaceSet.__init__`; no contract of its own, specified by `GenericVolumeInterfaceSets.MakeGenericSpec` |
| `GenericVolumeInterfaceSets.Assemble` | openpathsampling/high_level/interface_set.py:122-128 | the constructor after `_sanitize_input`; no contract of its own, specified by `GenericVolumeInterfaceSets.AssembleSpec` |
| `GenericVolumeInterfaceSets.SetVolumeFunc` | openpathsampling/high_level/interface_set.py:142-148 | `_set_volume_func`, the factory variant chosen by the sign of the direction; no contract of its own, specified through `GenericVolumeInterfaceSets.NewInterfaceByDirection` |
| `GenericVolumeInterfaceSets.PairVolumes` | openpathsampling/high_level/interface_set.py:124-125 | the zipped volume list has one volume per pair, the i-th being `intersect_with & volume_func(minvs[i], maxvs[i])` |
| `GenericVolumeInterfaceSets.AssembleSpec` | openpathsampling/high_level/interface_set.py:122-128 | from equal-length normalised lists and a direction of -1, 0 or 1, the set is well formed, stores its inputs, and takes its lambdas from the side the direction names |
| `GenericVolumeInterfaceSets.MakeGenericSpec` | openpathsampling/high_level/interface_set.py:115-128 | construction fails exactly as normalisation does. Otherwise the set is well formed and `volumes[i] = intersect_with & volume_func(minvs[i], maxvs[i])`, one per normalised pair. The lambdas are maxvs (1), minvs (-1) or `None` (0). Raw minvals/maxvals are stored, and a missing `intersect_with` is the full volume |
| `GenericVolumeInterfaceSets.CallFactory` | openpathsampling/high_level/interface_set.py:142-148 | calling the stored volume function with one argument: TypeError for the two-argument function, otherwise the open slot gets the lambda; specified through `GenericVolumeInterfaceSets.NewInterfaceByDirection` |
| `GenericVolumeInterfaceSets.NewInterface` | openpathsampling/high_level/interface_set.py:227-252 | `new_interface`; no contract of its own, specified by `GenericVolumeInterfaceSets.NewInterfaceByDirection`, `GenericVolumeInterfaceSets.ScalarMinSet` and `GenericVolumeInterfaceSets.ScalarMaxSet` |
| `GenericVolumeInterfaceSets.NewInterfaceByDirection` | openpathsampling/high_level/interface_set.py:227-252 | through `_set_volume_func` (lines 142-148): direction 1 gives `intersect_with & volume_func(stored minvals, lambda)`, -1 gives `intersect_with & volume_func(lambda, stored maxvals)`, 0 raises the arity TypeError |
| `GenericVolumeInterfaceSets.ScalarMinSet` | openpathsampling/high_level/interface_set.py:115-148 | a scalar min with at least two maxima gives direction 1, lambdas equal to the maxima, one volume per maximum, and `new_interface(lambdas[i])` equal to `volumes[i]` |
| `GenericVolumeInterfaceSets.ScalarMaxSet` | openpathsampling/high_level/interface_set.py:115-148 | the mirror case: direction -1, lambdas equal to the minima, and `new_interface(lambdas[i])` equal to `volumes[i]` |
| `GenericVolumeInterfaceSets.ToDict` | openpathsampling/high_level/interface_set.py:150-157 | `to_dict`; no contract of its own, specified by `GenericVolumeInterfaceSets.LoadToDict` and `GenericVolumeInterfaceSets.ToDictLoad` |
| `GenericVolumeInterfaceSets.LoadFromDict` | openpathsampling/high_level/interface_set.py:159-167 | `_load_from_dict`; no contract of its own, specified by `GenericVolumeInterfaceSets.LoadToDict` and `GenericVolumeInterfaceSets.ToDictLoad` |
| `GenericVolumeInterfaceSets.LoadToDict` | openpathsampling/high_level/interface_set.py:150-167 | `_load_from_dict(to_dict(x))` restores every field and the lookup table, and keeps well-formedness |
| `GenericVolumeInterfaceSets.ToDictLoad` | openpathsampling/high_level/interface_set.py:150-167 | `to_dict` after `_load_from_dict(d)` returns `d`, and the loaded lookup table is consistent |
| `VolumeInterfaceSets.MakeVolumeSet` | openpathsampling/high_level/interface_set.py:270-274 | `VolumeInterfaceSet.__init__` over `CVRangeVolume`; no contract of its own, specified through `GenericVolumeInterfaceSets.MakeGenericSpec` and `VolumeInterfaceSets.RoundTrip` |
| `VolumeInterfaceSets.FromDict` | openpathsampling/high_level/interface_set.py:276-285 | `VolumeInterfaceSet.from_dict`; no contract of its own, specified by `VolumeInterfaceSets.RoundTrip` and `VolumeInterfaceSets.SliceNewInterface` |
| `VolumeInterfaceSets.RoundTrip` | openpathsampling/high_level/interface_set.py:276-285 | `from_dict(to_dict(x))` restores cv, minvals, maxvals, intersect_with, lambdas, direction, volumes and the lookup table exactly, and agrees with `x` on `new_interface` and `get_lambda` |
| `VolumeInterfaceSets.VolumeGetItem` | openpathsampling/high_level/interface_set.py:78-83 | `s[key]`, slicing through `from_dict(_slice_dict(key))`; no contract of its own, specified by `VolumeInterfaceSets.IndexSpec`, `VolumeInterfaceSets.VolumeSliceSpec` and `VolumeInterfaceSets.SliceNewInterface` |
| `VolumeInterfaceSets.IndexSpec` | openpathsampling/high_level/interface_set.py:78-83 | an int key returns the bare volume, counting from the end when negative, and raises IndexError out of range |
| `GenericVolumeInterfaceSets.SliceBoundValue` | openpathsampling/high_level/interface_set.py:132-139 | `self.minvals[slicer]`, a scalar kept by the TypeError branch; specified through `GenericVolumeInterfaceSets.SliceDictSpec` |
| `GenericVolumeInterfaceSets.SliceDict` | openpathsampling/high_level/interface_set.py:130-140 | `_slice_dict`; no contract of its own, specified by `GenericVolumeInterfaceSets.SliceDictSpec` |
| `GenericVolumeInterfaceSets.SliceDictSpec` | openpathsampling/high_level/interface_set.py:130-140 | loading `_slice_dict` of a well-formed set gives a well-formed state with sliced volumes, lambdas, minvals and maxvals, and the same CV, direction and intersect volume |
| `VolumeInterfaceSets.VolumeSliceSpec` | openpathsampling/high_level/interface_set.py:130-140 | a slice is well formed; its volumes and list lambdas are sliced with the same bounds; list minvals/maxvals are sliced and scalar ones kept; `None` lambdas, cv, direction and intersect volume carry over |
| `VolumeInterfaceSets.SliceNewInterface` | openpathsampling/high_level/interface_set.py:276-285 | the slice, rebuilt by `from_dict`, answers `new_interface` from its own sliced minvals (direction 1) or maxvals (-1), and raises on direction 0 |
| `PeriodicVolumeInterfaceSets.PeriodicVolumeFunc` | openpathsampling/high_level/interface_set.py:306-310 | the two-argument `CVRangeVolumePeriodic` function over the CV and the period bounds; no contract of its own |
| `PeriodicVolumeInterfaceSets.MakePeriodic` | openpathsampling/high_level/interface_set.py:306-316 | `PeriodicVolumeInterfaceSet.__init__`; no contract of its own, specified through `GenericVolumeInterfaceSets.MakeGenericSpec` and `PeriodicVolumeInterfaceSets.PeriodicRoundTrip` |
| `PeriodicVolumeInterfaceSets.PeriodicToDict` | openpathsampling/high_level/interface_set.py:318-322 | `to_dict` with `period_min` and `period_max` added; specified by `PeriodicVolumeInterfaceSets.PeriodicRoundTrip` and `PeriodicVolumeInterfaceSets.LoadAsWrittenLosesNewInterface` |
| `PeriodicVolumeInterfaceSets.ScopedPeriodicVolumeFunc` | openpathsampling/high_level/interface_set.py:332-334 | the volume function `from_dict` installs; evaluating its arguments looks up `self`, and an unbound name raises NameError; specified through `PeriodicVolumeInterfaceSets.LoadAsWrittenNewInterface` and `PeriodicVolumeInterfaceSets.BoundScopeIsCorrected` |
| `PeriodicVolumeInterfaceSets.LoadPeriodic` | openpathsampling/high_level/interface_set.py:324-337 | the steps of `from_dict` (load, period bounds, `_set_volume_func`) with `self` resolved in a given scope; specified by `PeriodicVolumeInterfaceSets.LoadAsWrittenNewInterface` and `PeriodicVolumeInterfaceSets.BoundScopeIsCorrected` |
| `PeriodicVolumeInterfaceSets.PeriodicFromDictAsWritten` | openpathsampling/high_level/interface_set.py:324-337 | `from_dict` as written: `self` is unbound in the static method; specified by `PeriodicVolumeInterfaceSets.LoadAsWrittenNewInterface` |
| `PeriodicVolumeInterfaceSets.LoadedNewInterface` | openpathsampling/high_level/interface_set.py:227-252 | `new_interface` on a loaded set, with the same factory dispatch as `GenericVolumeInterfaceSets.NewInterface` and an exception from the volume function passed on |
| `PeriodicVolumeInterfaceSets.LoadAsWrittenNewInterface` | openpathsampling/high_level/interface_set.py:324-337 | as written, `from_dict` restores every field and both period bounds, but `new_interface` on the result raises the arity TypeError on direction 0 and NameError otherwise, derived through the same dispatch as on a constructed set |
| `PeriodicVolumeInterfaceSets.BoundScopeIsCorrected` | openpathsampling/high_level/interface_set.py:332-334 | with `self` bound to the loaded object, the same steps give the state of the corrected `from_dict` and the same `new_interface` for every lambda |
| `PeriodicVolumeInterfaceSets.LoadAsWrittenLosesNewInterface` | openpathsampling/high_level/interface_set.py:324-337 | as written, a direction-±1 set answers `new_interface` before the dict round trip; after it the loaded set has the same fields and period bounds, and `new_interface` raises NameError |
| `PeriodicVolumeInterfaceSets.PeriodicFromDict` | openpathsampling/high_level/interface_set.py:324-337 | `from_dict` with the loaded period bounds in its volume function, the evident intent; specified by `PeriodicVolumeInterfaceSets.PeriodicRoundTrip` and `PeriodicVolumeInterfaceSets.BoundScopeIsCorrected` |
| `PeriodicVolumeInterfaceSets.PeriodicRoundTrip` | openpathsampling/high_level/interface_set.py:318-337 | with the corrected `from_dict`, `from_dict(to_dict(x))` restores every field and both period bounds, and agrees with `x` on `new_interface` |
| `PeriodicVolumeInterfaceSets.PeriodicGetItem` | openpathsampling/high_level/interface_set.py:78-83 | `s[key]` with the corrected `from_dict`; specified by `PeriodicVolumeInterfaceSets.PeriodicSliceSpec` |
| `PeriodicVolumeInterfaceSets.PeriodicSliceSpec` | openpathsampling/high_level/interface_set.py:318-322 | a slice keeps the period bounds (they travel in `to_dict`), the CV and the direction, and holds the sliced volumes, lambdas and bounds |
| `PeriodicVolumeInterfaceSets.PeriodicGetItemAsWritten` | openpathsampling/high_level/interface_set.py:78-83 | `s[key]` as written, a slice loaded by the `from_dict` of the source; specified by `PeriodicVolumeInterfaceSets.SliceAsWrittenLosesNewInterface` |
| `PeriodicVolumeInterfaceSets.SliceAsWrittenLosesNewInterface` | openpathsampling/high_level/interface_set.py:78-83 | as written, a slice holds the same fields as the corrected slice, but its `new_interface` raises: TypeError on direction 0, NameError otherwise (the loading of lines 324-337) |

## Left out

- The molecular-dynamics tutorial script `code/python/PySRMSTIS/src/production.py`: file reads, the external force field, integrator and platform, floating-point unit quantities and log output. None of it is logic of its own.
- The volume class hierarchy (`FullVolume`, `CVRangeVolume`, `CVRangeVolumePeriodic`) and the `&` algebra: these are opaque values and uninterpreted function parameters here.
- The storable-object base class and its storage (the `super(...).__init__()` calls). Only the dict-shaped record is modelled.
- The base `InterfaceSet` has no `to_dict`/`from_dict` of its own; it inherits them from the persistence layer, which is not part of this model. Its slicing is modelled as that layer's default: the record of constructor arguments (volumes, cv, lambdas, direction) passed back to the constructor.
- Slices with a step, and keys other than ints and slices, are not modelled.
- Floating-point CV values (NaN and rounding): CV values are exact reals.
- Arbitrary Python callables as volume functions, including ones that raise: volume functions here are total.
- A plain `GenericVolumeInterfaceSet` has no `from_dict` of its own, so slicing one directly is left out. Slicing is modelled for the two concrete subclasses.
- Calling `GenericVolumeInterfaceSet` with an `int` list against a `float` scalar, or other mixed numeric types: all CV values are one type.
- Aliasing of the caller's lists: the source stores the `volumes`, `minvals` and `maxvals` lists it is given (lines 22, 119-120), and with direction 1 or -1 and a list that needs no broadcasting, `lambdas` is that same `maxvals` or `minvals` list (lines 123, 219-220). A caller who later changes such a list changes `len`, iteration, `lambdas`, `minvals`/`maxvals` and the specialised factory, while `_lambda_dict` keeps the old pairs. Here every field is a value copied at construction, so the model only describes sets whose lists are not changed afterwards.
- Identity of volumes: the volume function and `&` are Dafny functions, so equal arguments give equal volumes, and `==` on volumes is value equality. Python builds a fresh object on each call (lines 124, 252) and the lookup table hashes volumes. `GenericVolumeInterfaceSets.ScalarMinSet` and `GenericVolumeInterfaceSets.ScalarMaxSet` (`new_interface(lambdas[i])` equals `volumes[i]`), and the merging of equal volumes into one key of `_lambda_dict`, hold in the program only when the volume classes compare and hash by value.
- `PyLists.Repeat`: states only the length of `s * k` in general; the contents are stated for the one-element lists the code repeats (`PyLists.RepeatSingleton`).

## Findings

| source | as written | input that shows it | evidently intended | confidence | as-written member | corrected member |
|---|---|---|---|---|---|---|
| openpathsampling/high_level/interface_set.py:332-334 | the volume function that the static `PeriodicVolumeInterfaceSet.from_dict` installs reads `self.period_min` and `self.period_max`, and `self` is not bound there | build a periodic set with `minvals=0`, `maxvals=[1, 2]` (direction 1), then call `new_interface(1.5)` on `from_dict(x.to_dict())`. The lambda body raises NameError, and so does `new_interface` on any slice, since slicing goes through `from_dict` | read `interface_set.period_min` and `interface_set.period_max`, the loaded bounds | high; not executed | `PeriodicVolumeInterfaceSets.PeriodicFromDictAsWritten`, `PeriodicVolumeInterfaceSets.LoadAsWrittenNewInterface`, `PeriodicVolumeInterfaceSets.LoadAsWrittenLosesNewInterface`, `PeriodicVolumeInterfaceSets.SliceAsWrittenLosesNewInterface` | `PeriodicVolumeInterfaceSets.PeriodicFromDict`, `PeriodicVolumeInterfaceSets.BoundScopeIsCorrected`, `PeriodicVolumeInterfaceSets.PeriodicRoundTrip` |
