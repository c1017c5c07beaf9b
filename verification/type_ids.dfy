/** The closed catalog of type tags (`TypeID`) and the type classes that the
    registration macros bind to them. */
module TypeIds {
  import opened Wrappers

  /** The eleven type tags, in ordinal order. */
  datatype TypeID =
    | kInt | kLong | kFloat | kDouble
    | kDate | kDatetime | kDatetimeInterval | kYearMonthInterval
    | kChar | kVarChar | kNullType

  /** `kNumTypeIDs`. */
  const NumTypeIDs: nat := 11

  /** `static_cast<int>(type_id)`: the dense ordinal of a tag. */
  function Ordinal(t: TypeID): (o: nat)
    ensures o < NumTypeIDs
  {
    match t
    case kInt => 0
    case kLong => 1
    case kFloat => 2
    case kDouble => 3
    case kDate => 4
    case kDatetime => 5
    case kDatetimeInterval => 6
    case kYearMonthInterval => 7
    case kChar => 8
    case kVarChar => 9
    case kNullType => 10
  }

  /** `static_cast<TypeID>(o)` for an in-range ordinal. */
  function FromOrdinal(o: int): (t: TypeID)
    requires 0 <= o < NumTypeIDs
    ensures Ordinal(t) == o
  {
    if o == 0 then kInt
    else if o == 1 then kLong
    else if o == 2 then kFloat
    else if o == 3 then kDouble
    else if o == 4 then kDate
    else if o == 5 then kDatetime
    else if o == 6 then kDatetimeInterval
    else if o == 7 then kYearMonthInterval
    else if o == 8 then kChar
    else if o == 9 then kVarChar
    else kNullType
  }

  /** Ordinals are dense and unique: the two conversions are inverse. */
  lemma OrdinalRoundTrip(t: TypeID)
    ensures FromOrdinal(Ordinal(t)) == t
  {
  }

  /** The C++ type classes. `BoolType` is only forward-declared (as an
      endpoint of a coercion edge) and has no `TypeID`. */
  datatype TypeClass =
    | BoolType | IntType | LongType | FloatType | DoubleType
    | DateType | DatetimeType | DatetimeIntervalType | YearMonthIntervalType
    | CharType | VarCharType | NullType

  /** `TypeClass<type_id>::type`, as bound by the `REGISTER_TYPE` lines. */
  function RegisteredClass(t: TypeID): TypeClass {
    match t
    case kInt => IntType
    case kLong => LongType
    case kFloat => FloatType
    case kDouble => DoubleType
    case kDate => DateType
    case kDatetime => DatetimeType
    case kDatetimeInterval => DatetimeIntervalType
    case kYearMonthInterval => YearMonthIntervalType
    case kChar => CharType
    case kVarChar => VarCharType
    case kNullType => NullType
  }

  /** `T::kStaticTypeID`; `BoolType` has none. */
  function StaticTypeID(c: TypeClass): Option<TypeID> {
    match c
    case BoolType => None
    case IntType => Some(kInt)
    case LongType => Some(kLong)
    case FloatType => Some(kFloat)
    case DoubleType => Some(kDouble)
    case DateType => Some(kDate)
    case DatetimeType => Some(kDatetime)
    case DatetimeIntervalType => Some(kDatetimeInterval)
    case YearMonthIntervalType => Some(kYearMonthInterval)
    case CharType => Some(kChar)
    case VarCharType => Some(kVarChar)
    case NullType => Some(kNullType)
  }

  /** Every tag is registered to exactly one class and no two tags share one. */
  lemma RegistrationIsOneToOne(t1: TypeID, t2: TypeID)
    ensures RegisteredClass(t1) == RegisteredClass(t2) ==> t1 == t2
    ensures StaticTypeID(RegisteredClass(t1)) == Some(t1)
    ensures RegisteredClass(t1) != BoolType
  {
  }

  /** `TypeClass<T::kStaticTypeID>::type` is `T` for each registered class. */
  lemma StaticTypeIDRoundTrip(c: TypeClass)
    ensures c != BoolType ==> StaticTypeID(c).Some? && RegisteredClass(StaticTypeID(c).value) == c
    ensures c == BoolType <==> StaticTypeID(c).None?
  {
  }

  /** `T::kParameterized`: only the string classes carry a length parameter. */
  predicate Parameterized(c: TypeClass) {
    c == CharType || c == VarCharType
  }

  /** The numeric tags handled by the arithmetic cross products. */
  predicate IsNumeric(t: TypeID) {
    t == kInt || t == kLong || t == kFloat || t == kDouble
  }

  /** The numeric tags as a type list, in declaration order. */
  const NumericTypeIDs: seq<TypeID> := [kInt, kLong, kFloat, kDouble]

  /** The interval tags used by `Multiply` and `Divide`. */
  const IntervalTypeIDs: seq<TypeID> := [kDatetimeInterval, kYearMonthInterval]
}
