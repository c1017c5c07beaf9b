/** What the four numeric types share (`NumericSuperType`): safe coercion
    looked up in a per-instance cache, general coercion from any numeric
    source, the native zero value, and a fixed native width. */
module NumericSuperType {
  import opened Wrappers
  import opened TypeIds
  import opened SafeCoercion

  /** `Type::SuperTypeID`. */
  datatype SuperTypeID = kNumeric | kAsciiString | kOther

  /** What a type sees of another type: `getTypeID()`, `isNullable()` and
      `getSuperTypeID()`. */
  datatype TypeView = TypeView(typeId: TypeID, nullable: bool, superTypeId: SuperTypeID)

  /** The native representations `int`, `std::int64_t`, `float`, `double`. */
  datatype CppType = CppInt | CppInt64 | CppFloat | CppDouble

  /** `sizeof(CppType)` on the platforms the system targets. */
  function SizeOf(c: CppType): nat {
    match c
    case CppInt => 4
    case CppInt64 => 8
    case CppFloat => 4
    case CppDouble => 8
  }

  /** The `CppType` argument of `NumericSuperType<TypeClass, type_id, CppType>`
      for each numeric tag. */
  function NativeType(t: TypeID): CppType
    requires IsNumeric(t)
  {
    match t
    case kInt => CppInt
    case kLong => CppInt64
    case kFloat => CppFloat
    case kDouble => CppDouble
  }

  /** The tag a `TypedValue` gets from the native type it is built from. */
  function NativeTag(c: CppType): TypeID {
    match c
    case CppInt => kInt
    case CppInt64 => kLong
    case CppFloat => kFloat
    case CppDouble => kDouble
  }

  predicate IsIntegral(c: CppType) {
    c == CppInt || c == CppInt64
  }

  /** A numeric type instance: the fields its constructor fills, and the
      contents of `safe_coerce_cache_`. */
  datatype NumericType = NumericType(
    typeId: TypeID,
    nullable: bool,
    superTypeId: SuperTypeID,
    minimumByteLength: nat,
    maximumByteLength: nat,
    safeCoerceCache: set<TypeID>)

  /** The protected constructor: super-type `kNumeric`, and both byte
      lengths `sizeof(CppType)`. Nothing in the class fills the cache, so
      its contents are a parameter. */
  function MakeNumericType(typeId: TypeID, nullable: bool, safeCoerceCache: set<TypeID>): (t: NumericType)
    requires IsNumeric(typeId)
    ensures t.typeId == typeId && t.nullable == nullable && t.safeCoerceCache == safeCoerceCache
  {
    var width := SizeOf(NativeType(typeId));
    NumericType(typeId, nullable, kNumeric, width, width, safeCoerceCache)
  }

  /** How this type presents itself to another type. */
  function View(t: NumericType): TypeView {
    TypeView(t.typeId, t.nullable, t.superTypeId)
  }

  /** Every numeric type is of super-type Numeric and fixed-width: four
      bytes for Int and Float, eight for Long and Double. */
  lemma NumericWidths(typeId: TypeID, nullable: bool, cache: set<TypeID>)
    requires IsNumeric(typeId)
    ensures var t := MakeNumericType(typeId, nullable, cache);
      t.superTypeId == kNumeric &&
      t.minimumByteLength == t.maximumByteLength &&
      t.maximumByteLength == (if typeId == kLong || typeId == kDouble then 8 else 4)
  {
  }

  /** `isSafelyCoercibleFrom`: the source tag is in `safe_coerce_cache_`.
      With a lattice-filled cache that is the safe-coercion relation between
      the two classes; with the cache as constructed it admits nothing. */
  function IsSafelyCoercibleFrom(t: NumericType, original: TypeView): (r: bool)
    ensures t.safeCoerceCache == LatticeCache(t.typeId) ==>
      (r <==> IsNumeric(original.typeId) &&
              NumericTypeSafeCoercibility(RegisteredClass(original.typeId), RegisteredClass(t.typeId)))
    ensures t.safeCoerceCache == {} ==> !r
  {
    original.typeId in t.safeCoerceCache
  }

  /** The cache a numeric type would need for `isSafelyCoercibleFrom` to
      follow the safe-coercion lattice: every numeric tag whose class is
      safely coercible to this type's class. */
  function LatticeCache(typeId: TypeID): (cache: set<TypeID>)
    ensures forall s :: s in cache <==> IsNumeric(s) && NumericTypeSafeCoercibility(RegisteredClass(s), RegisteredClass(typeId))
  {
    set s | s in NumericTypeIDs && NumericTypeSafeCoercibility(RegisteredClass(s), RegisteredClass(typeId))
  }

  /** With a cache filled from the lattice, safe coercibility is exactly
      the lattice relation between the two classes: reflexive, and wider
      targets only. */
  lemma SafeCoercionFollowsLattice(typeId: TypeID, nullable: bool, original: TypeView)
    requires IsNumeric(typeId)
    ensures var t := MakeNumericType(typeId, nullable, LatticeCache(typeId));
      IsSafelyCoercibleFrom(t, original) <==>
        IsNumeric(original.typeId) &&
        NumericTypeSafeCoercibility(RegisteredClass(original.typeId), RegisteredClass(typeId))
    ensures IsNumeric(original.typeId) && original.typeId == typeId ==>
      IsSafelyCoercibleFrom(MakeNumericType(typeId, nullable, LatticeCache(typeId)), original)
  {
    SafeCoercibilityReflexive(RegisteredClass(typeId));
  }

  /** As constructed, the cache is whatever it was given: with the empty
      cache that nothing in the class fills, no type is safely coercible
      to a numeric type, not even the type itself. */
  lemma EmptyCacheAdmitsNothing(typeId: TypeID, nullable: bool, original: TypeView)
    requires IsNumeric(typeId)
    ensures !IsSafelyCoercibleFrom(MakeNumericType(typeId, nullable, {}), original)
  {
  }

  /** `QUICKSTEP_NULL_COERCIBILITY_CHECK()`, whose body is not part of this
      model: given the target and the source type, `Some(v)` means the macro
      returns `v`, `None` that it falls through. */
  type NullCoercibilityCheck = (TypeView, TypeView) -> Option<bool>

  /** A view as the types of this model report themselves: the only class
      whose super-type is Numeric is `NumericSuperType`, whose instances are
      exactly the four numeric tags. */
  predicate ConsistentView(v: TypeView) {
    v.superTypeId == kNumeric <==> IsNumeric(v.typeId)
  }

  /** `isCoercibleFrom`: the null-coercibility check first, then any source
      of super-type Numeric is accepted, so for a consistent source exactly
      the numeric tags are. */
  function IsCoercibleFrom(t: NumericType, original: TypeView, nullCheck: NullCoercibilityCheck): (r: bool)
    ensures nullCheck(View(t), original).Some? ==> r == nullCheck(View(t), original).value
    ensures nullCheck(View(t), original).None? && ConsistentView(original) ==> (r <==> IsNumeric(original.typeId))
  {
    match nullCheck(View(t), original)
    case Some(verdict) => verdict
    case None => original.superTypeId == kNumeric
  }

  /** Coercion accepts more than safe coercion does: once the null check
      falls through, every safe source of a lattice-filled type is also a
      coercible one, and so is a lossy source, such as Double for Int. */
  lemma CoercionIsLossy(nullable: bool, nullCheck: NullCoercibilityCheck, original: TypeView)
    requires IsNumeric(original.typeId) && original.superTypeId == kNumeric
    requires nullCheck(View(MakeNumericType(kInt, nullable, LatticeCache(kInt))), original).None?
    ensures IsCoercibleFrom(MakeNumericType(kInt, nullable, LatticeCache(kInt)), original, nullCheck)
    ensures original.typeId == kDouble ==>
      !IsSafelyCoercibleFrom(MakeNumericType(kInt, nullable, LatticeCache(kInt)), original)
  {
    SafeCoercibilityCases(DoubleType, IntType);
  }

  /** For every numeric type with a lattice-filled cache, once the null
      check falls through: a safe source is a coercible one, coercion
      accepts exactly the numeric sources, and a source of another
      super-type is rejected. */
  lemma SafeCoercionImpliesCoercion(typeId: TypeID, nullable: bool, nullCheck: NullCoercibilityCheck, original: TypeView)
    requires IsNumeric(typeId) && ConsistentView(original)
    requires nullCheck(View(MakeNumericType(typeId, nullable, LatticeCache(typeId))), original).None?
    ensures var t := MakeNumericType(typeId, nullable, LatticeCache(typeId));
      IsSafelyCoercibleFrom(t, original) ==> IsCoercibleFrom(t, original, nullCheck)
    ensures var t := MakeNumericType(typeId, nullable, LatticeCache(typeId));
      IsCoercibleFrom(t, original, nullCheck) <==> IsNumeric(original.typeId)
    ensures original.superTypeId != kNumeric ==>
      !IsCoercibleFrom(MakeNumericType(typeId, nullable, LatticeCache(typeId)), original, nullCheck)
  {
  }

  /** The number a `TypedValue` holds: integral types hold integers, floating
      types reals. */
  datatype NativeNumber = Integral(i: int) | Floating(x: real)

  /** A `TypedValue` built from a native number, tagged by its native type. */
  datatype TypedValue = TypedValue(typeId: TypeID, number: NativeNumber)

  /** `TypedValue(static_cast<CppType>(v))`. */
  function FromNative(c: CppType, v: int): (r: TypedValue) {
    TypedValue(NativeTag(c), if IsIntegral(c) then Integral(v) else Floating(v as real))
  }

  /** `makeZeroValue`: the zero of the type's native representation, tagged
      with the type's own tag. */
  function MakeZeroValue(t: NumericType): (r: TypedValue)
    requires IsNumeric(t.typeId)
    ensures r.typeId == t.typeId
    ensures r.number == Integral(0) || r.number == Floating(0.0)
    ensures r.number.Integral? <==> (t.typeId == kInt || t.typeId == kLong)
  {
    FromNative(NativeType(t.typeId), 0)
  }
}
