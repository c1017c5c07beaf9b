/** Run-time `TypeID` to type-specialised code dispatch: the selector
    policies that decide which tags a call site admits, the `switch`-based
    `InvokeOnTypeID`, and the registrar's midpoint binary search over
    ordinals. A functor is modelled as a function of the chosen tag; a
    `LOG(FATAL)` is a `Fatal` result. */
module Dispatch {
  import opened TypeIds
  import opened TypeLists

  /** `TypeIDSelectorAll`, `TypeIDSelectorParameterized`,
      `TypeIDSelectorNonParameterized`, `TypeIDSelectorEqualsAny<candidates...>`. */
  datatype Selector =
    | SelectAll
    | SelectParameterized
    | SelectNonParameterized
    | SelectEqualsAny(candidates: seq<TypeID>)

  /** "Unexpected TypeID: <name>" from a selector, or
      "Unrecognized TypeID in InvokeOnTypeID()" from the switch. */
  datatype FatalError = UnexpectedTypeID(id: TypeID) | UnrecognizedTypeID

  datatype Dispatched<R> = Invoked(value: R) | Fatal(error: FatalError)

  /** The tags a selector lets through to the functor. */
  predicate Admits(sel: Selector, t: TypeID) {
    match sel
    case SelectAll => true
    case SelectParameterized => t in {kChar, kVarChar}
    case SelectNonParameterized => t !in {kChar, kVarChar}
    case SelectEqualsAny(candidates) => t in candidates
  }

  /** `TypeIDSelectorParameterizedHelper<require_non_parameterized>`: the
      functor runs when `kParameterized ^ require_non_parameterized`. */
  function ParameterizedHelper<R>(requireNonParameterized: bool, t: TypeID, f: TypeID -> R): Dispatched<R> {
    if Parameterized(RegisteredClass(t)) != requireNonParameterized then Invoked(f(t))
    else Fatal(UnexpectedTypeID(t))
  }

  /** `Selector::Implementation<integral_constant<TypeID, t>, FunctorT>::Invoke`:
      the functor on `t` when the selector admits `t`, a fatal error naming
      `t` otherwise. */
  function Implementation<R>(sel: Selector, t: TypeID, f: TypeID -> R): (r: Dispatched<R>)
    ensures Admits(sel, t) ==> r == Invoked(f(t))
    ensures !Admits(sel, t) ==> r == Fatal(UnexpectedTypeID(t))
  {
    match sel
    case SelectAll => Invoked(f(t))
    case SelectParameterized => ParameterizedHelper(false, t, f)
    case SelectNonParameterized => ParameterizedHelper(true, t, f)
    case SelectEqualsAny(candidates) =>
      if EqualsAny(t, candidates) then Invoked(f(t)) else Fatal(UnexpectedTypeID(t))
  }

  /** The `switch` form of `InvokeOnTypeID` over a raw tag value: one case per
      tag, and any other value is fatal. */
  function SwitchDispatch<R>(sel: Selector, typeId: int, f: TypeID -> R): (r: Dispatched<R>)
    ensures 0 <= typeId < NumTypeIDs ==> r == Implementation(sel, FromOrdinal(typeId), f)
    ensures !(0 <= typeId < NumTypeIDs) ==> r == Fatal(UnrecognizedTypeID)
  {
    if typeId == Ordinal(kInt) then Implementation(sel, kInt, f)
    else if typeId == Ordinal(kLong) then Implementation(sel, kLong, f)
    else if typeId == Ordinal(kFloat) then Implementation(sel, kFloat, f)
    else if typeId == Ordinal(kDouble) then Implementation(sel, kDouble, f)
    else if typeId == Ordinal(kDate) then Implementation(sel, kDate, f)
    else if typeId == Ordinal(kDatetime) then Implementation(sel, kDatetime, f)
    else if typeId == Ordinal(kDatetimeInterval) then Implementation(sel, kDatetimeInterval, f)
    else if typeId == Ordinal(kYearMonthInterval) then Implementation(sel, kYearMonthInterval, f)
    else if typeId == Ordinal(kChar) then Implementation(sel, kChar, f)
    else if typeId == Ordinal(kVarChar) then Implementation(sel, kVarChar, f)
    else if typeId == Ordinal(kNullType) then Implementation(sel, kNullType, f)
    else Fatal(UnrecognizedTypeID)
  }

  function Clamp(v: int, l: int, r: int): int
    requires l <= r
  {
    if v < l then l else if v > r then r else v
  }

  /** `internal::InvokeOnTypeIDInner<l, r>`: halve the ordinal range at
      `m = (l + r) >> 1` (a halving, as `l + r` is never negative) until one
      ordinal is left, then run the selector on that tag. The range
      `[l, r]` splits into the non-empty `[l, m]` and `[m + 1, r]`, so it
      strictly shrinks. The leaf reached is the value clamped into
      `[l, r]`: there is no failure branch. */
  function InvokeOnTypeIDInner<R>(l: int, r: int, sel: Selector, value: int, f: TypeID -> R)
    : (res: Dispatched<R>)
    requires 0 <= l <= r < NumTypeIDs
    ensures res == Implementation(sel, FromOrdinal(Clamp(value, l, r)), f)
    decreases r - l
  {
    if l == r then Implementation(sel, FromOrdinal(r), f)
    else
      var m := (l + r) / 2;
      if value <= m then InvokeOnTypeIDInner(l, m, sel, value, f)
      else InvokeOnTypeIDInner(m + 1, r, sel, value, f)
  }

  /** The number of `value <= m` comparisons the search makes. */
  function Comparisons(l: int, r: int, value: int): nat
    requires 0 <= l <= r
    decreases r - l
  {
    if l == r then 0
    else
      var m := (l + r) / 2;
      1 + (if value <= m then Comparisons(l, m, value) else Comparisons(m + 1, r, value))
  }

  /** `ceil(log2(n))` for `n >= 1`. */
  function CeilLog2(n: nat): nat
    decreases n
  {
    if n <= 1 then 0 else 1 + CeilLog2((n + 1) / 2)
  }

  lemma {:induction false} CeilLog2Monotone(a: nat, b: nat)
    requires a <= b
    ensures CeilLog2(a) <= CeilLog2(b)
    decreases b
  {
    if a > 1 {
      CeilLog2Monotone((a + 1) / 2, (b + 1) / 2);
    }
  }

  /** The search over `[l, r]` makes at most `ceil(log2(r - l + 1))` comparisons. */
  lemma {:induction false} SearchDepth(l: int, r: int, value: int)
    requires 0 <= l <= r
    ensures Comparisons(l, r, value) <= CeilLog2(r - l + 1)
    decreases r - l
  {
    if l < r {
      var n, m := r - l + 1, (l + r) / 2;
      assert m - l + 1 == (n + 1) / 2;
      assert r - m == n / 2;
      if value <= m {
        SearchDepth(l, m, value);
      } else {
        SearchDepth(m + 1, r, value);
        CeilLog2Monotone(n / 2, (n + 1) / 2);
      }
    }
  }

  /** The registrar's `InvokeOnTypeID`: search `[0, kNumTypeIDs - 1]`. An
      in-range ordinal reaches its own tag; an ordinal below the range lands
      on ordinal 0 and one above it on the last ordinal, never on a fatal
      "unrecognized" error. At most four comparisons are made. */
  function SearchDispatch<R>(sel: Selector, typeId: int, f: TypeID -> R): (r: Dispatched<R>)
    ensures 0 <= typeId < NumTypeIDs ==> r == Implementation(sel, FromOrdinal(typeId), f)
    ensures typeId < 0 ==> r == Implementation(sel, kInt, f)
    ensures typeId >= NumTypeIDs ==> r == Implementation(sel, kNullType, f)
    ensures r != Fatal(UnrecognizedTypeID)
  {
    InvokeOnTypeIDInner(0, NumTypeIDs - 1, sel, typeId, f)
  }

  lemma SearchDispatchDepth(typeId: int)
    ensures Comparisons(0, NumTypeIDs - 1, typeId) <= 4
  {
    SearchDepth(0, NumTypeIDs - 1, typeId);
    assert CeilLog2(11) == 4 by {
      assert CeilLog2(1) == 0;
      assert CeilLog2(2) == 1;
      assert CeilLog2(3) == 2;
      assert CeilLog2(6) == 3;
    }
  }

  /** Both dispatchers run the functor on exactly the given tag, under the
      same selector, for every valid tag. */
  lemma DispatchersAgree<R>(sel: Selector, t: TypeID, f: TypeID -> R)
    ensures SearchDispatch(sel, Ordinal(t), f) == SwitchDispatch(sel, Ordinal(t), f)
    ensures SwitchDispatch(sel, Ordinal(t), f) == (if Admits(sel, t) then Invoked(f(t)) else Fatal(UnexpectedTypeID(t)))
  {
    OrdinalRoundTrip(t);
  }

  /** Outside the ordinal range the switch is fatal while the search quietly
      picks a boundary tag. */
  lemma DispatchersDifferOutOfRange<R>(sel: Selector, typeId: int, f: TypeID -> R)
    requires !(0 <= typeId < NumTypeIDs)
    ensures SwitchDispatch(sel, typeId, f) == Fatal(UnrecognizedTypeID)
    ensures SearchDispatch(sel, typeId, f) == Implementation(sel, if typeId < 0 then kInt else kNullType, f)
  {
  }

  /** `TypeUtil::IsParameterized`: the `kParameterized` flag of the tag's
      class, read through the `switch` dispatcher. */
  function IsParameterized(t: TypeID): (r: bool)
    ensures r <==> t == kChar || t == kVarChar
    ensures r == Parameterized(RegisteredClass(t))
  {
    OrdinalRoundTrip(t);
    SwitchDispatch(SelectAll, Ordinal(t), (tid: TypeID) => Parameterized(RegisteredClass(tid))).value
  }
}
