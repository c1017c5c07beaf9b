# Quickstep type layer: type lists, coercion lattice, dispatch and operation tables

This project models part of the type and operation layer of the Quickstep
database engine in Dafny. Four parts are covered.

- **Type-list algebra and the coercion lattice.** The compile-time type-list
  algebra of `utility/TemplateUtil.hpp` is restated over sequences:
  `contains`, `append`, `map`, `flatmap`, `filter`, `filtermap`, `unique`,
  `subtract`, `EdgeMatcher`/`JoinPath` and the semi-naive
  `TransitiveClosure`. On top of it sits the numeric safe-coercion lattice
  (`NumericTypeSafeCoersions`, its closure, `NumericTypeSafeCoercibility`).
  Also modelled are the shared behaviour of the numeric types
  (`NumericSuperType`) and the least common safe target that unifies two
  numeric operand types.
- **TypeID dispatch.** The eleven `TypeID`s, their registered type classes,
  and the four selector policies are modelled. So are the two run-time
  dispatchers: the `switch` in `TypeUtil.hpp` and the midpoint binary search
  in `TypeRegistrar.hpp`.
- **Operation signature tables.** These are the functor packs of Add,
  Subtract, Multiply, Divide and Modulo, and of abs, sqrt, exp, log, ceil,
  floor and round. Each pack is a list of (operand types, result type)
  entries, looked up by first match. Every pack is proved equal to an
  independent reference table.
- **Substring.** The model covers signature and static-argument validation,
  the 1-based to 0-based start conversion, and the unsigned `size_t`
  maximum-length computation. It also covers the result type and the
  byte-copy kernel `computeSubstring`, over `seq<char>`, together with the
  single-value, column and value-accessor surfaces that apply it.

## Files and modules

| file | module | content |
|---|---|---|
| `wrappers.dfy` | `Wrappers` | `Option` and `Outcome` |
| `type_lists.dfy` | `TypeLists` | the `TypeList` operations |
| `transitive_closure.dfy` | `TransitiveClosure` | edges, `JoinPath`, the semi-naive closure and its correctness |
| `type_ids.dfy` | `TypeIds` | `TypeID`, ordinals, registered `TypeClass`es |
| `safe_coercion.dfy` | `SafeCoercion` | the lattice, its evaluated closure, the least common safe target |
| `numeric_super_type.dfy` | `NumericSuperType` | `isSafelyCoercibleFrom`, `isCoercibleFrom`, `makeZeroValue`, widths |
| `dispatch.dfy` | `Dispatch` | selectors, switch and binary-search dispatch |
| `arithmetic_operations.dfy` | `ArithmeticOperations` | the five arithmetic functor packs |
| `cmath_operations.dfy` | `CMathOperations` | the cmath functor pack |
| `substring_operation.dfy` | `SubstringOperation` | planning-time `SubstringOperation` |
| `substring_operator.dfy` | `SubstringOperator` | `SubstringUncheckedOperator` and its kernel |

## Model

| member | source | states |
|---|---|---|
| TypeLists.EqualsAny | utility/TemplateUtil.hpp:74-84 | true exactly when the checked element equals some list member (`contains`) |
| TypeLists.Append | utility/TemplateUtil.hpp:172-193 | the result is as long as both lists together: the first list, then the second, in order |
| TypeLists.MapInner | utility/TemplateUtil.hpp:262-272 | the accumulator is kept as a prefix, and after it comes `op` of each remaining element, in order |
| TypeLists.Map | utility/TemplateUtil.hpp:195-196 | length preserved; element `i` is `op(xs[i])` |
| TypeLists.FlatMapInner | utility/TemplateUtil.hpp:274-284 | the accumulator followed by the concatenation of the per-element lists, in order |
| TypeLists.FlatMap | utility/TemplateUtil.hpp:198-199 | equals the in-order concatenation of `op` over the list |
| TypeLists.FlatMapMembership | utility/TemplateUtil.hpp:274-284 | an element is produced iff one of the per-element lists holds it |
| TypeLists.FilterInner | utility/TemplateUtil.hpp:286-301 | the accumulator is kept; the appended part holds each satisfying element exactly as often as the input and no other, and is a subsequence of it |
| TypeLists.Filter | utility/TemplateUtil.hpp:201-202 | exactly the elements satisfying the predicate, with multiplicities, in original order |
| TypeLists.FilterMapInner | utility/TemplateUtil.hpp:303-320 | the appended part holds exactly the values `op` yields, and is no longer than the input |
| TypeLists.FilterMap | utility/TemplateUtil.hpp:204-205 | the result holds exactly the yielded values and is no longer than the input |
| TypeLists.FilterMapIsFlatMap | utility/TemplateUtil.hpp:303-320 | the loop pushes one value per yielding element, in input order: it equals `flatmap` over the zero-or-one lists `Yielded(op)` |
| TypeLists.FilterMapKeepsOrder | utility/TemplateUtil.hpp:204-205 | `filtermap` equals the in-order concatenation of the zero-or-one lists, so order and multiplicity are those of the input |
| TypeLists.UniqueInner | utility/TemplateUtil.hpp:322-337 | from a duplicate-free accumulator the result is duplicate-free and holds the accumulator plus every input element |
| TypeLists.UniqueInnerOrder | utility/TemplateUtil.hpp:322-337 | the appended elements are new and come in order of first occurrence in the input |
| TypeLists.Unique | utility/TemplateUtil.hpp:207-208 | no duplicates, the same element set, ordered by first occurrence |
| TypeLists.SubtractIsFilter | utility/TemplateUtil.hpp:339-356 | `subtract` is `filter` by "not contained in the subtrahend" |
| TypeLists.Subtract | utility/TemplateUtil.hpp:210-211 | exactly the elements not in the subtrahend, with multiplicities, in original order |
| TransitiveClosure.EdgeMatcher | utility/TemplateUtil.hpp:358-366 | two edges compose exactly when the first ends where the second starts, and the composite runs from the first's start to the second's end |
| TransitiveClosure.JoinPathLeftMembership | utility/TemplateUtil.hpp:370-376 | one left edge `(a,b)` joins to `(a,c)` for exactly the right edges `(b,c)` |
| TransitiveClosure.JoinPath | utility/TemplateUtil.hpp:358-378 | `(a,c)` is produced iff some left `(a,b)` and right `(b,c)` share `b`; nothing else is produced |
| TransitiveClosure.TransitiveClosureInner | utility/TemplateUtil.hpp:381-396 | the loop only appends: the accumulator stays a prefix of the result, and every pair of the work set ends up in it |
| TransitiveClosure.TransitiveClosureInitializer | utility/TemplateUtil.hpp:398-402 | the initializer yields exactly the reflexive pairs of the edge's two endpoints |
| TransitiveClosure.SemiNaiveStep | utility/TemplateUtil.hpp:390-396 | the output grows by the work set; the next work set is duplicate-free, disjoint from everything accumulated, and exactly the new joins |
| TransitiveClosure.MeasureDecreases | utility/TemplateUtil.hpp:381-396 | each round lowers the count of unaccumulated pairs over the known nodes, or the one-off overlap flag, so the loop terminates |
| TransitiveClosure.Seed | utility/TemplateUtil.hpp:398-408 | the first work set is the duplicate-free set of `(x,x)` for both endpoints of every edge |
| TransitiveClosure.InnerInvariant | utility/TemplateUtil.hpp:384-396 | the loop keeps every accumulated pair reachable and ends with an output closed under extension by an edge |
| TransitiveClosure.InnerNoDuplicates | utility/TemplateUtil.hpp:390-396 | the output never holds a pair twice |
| TransitiveClosure.ClosureFromSeed | utility/TemplateUtil.hpp:381-409 | the loop run from the seed ends at exactly the reachable pairs of the edge endpoints, each once |
| TransitiveClosure.TransitiveClosure | utility/TemplateUtil.hpp:404-409 | the closure holds `(a,b)` iff `a` is an edge endpoint and `b` is reachable from `a` in zero or more edges, with no duplicates |
| TransitiveClosure.ClosureContainsEdges | utility/TemplateUtil.hpp:404-409 | every declared edge is in the closure |
| TransitiveClosure.ClosureTransitiveReflexive | utility/TemplateUtil.hpp:404-409 | the closure is transitive, and reflexive on the edge endpoints |
| SafeCoercion.NodesOfCoersions | types/NumericTypeSafeCoercibility.hpp:37-43 | the declared edges touch exactly Bool, Int, Long, Float and Double |
| SafeCoercion.ReachImpliesEvaluated | types/NumericTypeSafeCoercibility.hpp:37-45 | every path along the declared edges ends at a pair of the fourteen-pair table |
| SafeCoercion.EvaluatedImpliesReach | types/NumericTypeSafeCoercibility.hpp:37-45 | every pair of the table is a path along the declared edges |
| SafeCoercion.ClosureEvaluation | types/NumericTypeSafeCoercibility.hpp:45 | the closure of the five edges has exactly the fourteen pairs of the table, each once |
| SafeCoercion.SafeCoercibilityIsClosureMembership | types/NumericTypeSafeCoercibility.hpp:48-53 | `NumericTypeSafeCoercibility`, looked up in the evaluated table, holds iff the pair is in the closure computed from the declared edges |
| SafeCoercion.SafeCoercibilityReflexive | types/NumericTypeSafeCoercibility.hpp:45-53 | each of Bool, Int, Long, Float, Double is safely coercible to itself, and no other class is |
| SafeCoercion.DerivedPairs | types/NumericTypeSafeCoercibility.hpp:37-45 | Int→Double, Bool→Long, Bool→Float and Bool→Double hold; Int→Double and Bool→Double are not declared edges, so they come from the closure |
| SafeCoercion.NoNarrowingPairs | types/NumericTypeSafeCoercibility.hpp:37-45 | Double→Float, Long→Int, Long→Float, Float→Long and Int→Bool do not hold |
| SafeCoercion.SafeCoercibilityCases | types/NumericTypeSafeCoercibility.hpp:48-53 | the relation, case by case, as an iff |
| SafeCoercion.SafeCoercibilityTransitive | types/NumericTypeSafeCoercibility.hpp:45-53 | the relation is transitive |
| SafeCoercion.SafeCoercibilityAntisymmetric | types/NumericTypeSafeCoercibility.hpp:45-53 | no two distinct classes coerce safely to each other |
| SafeCoercion.LeastCommonTargetUnique | types/NumericTypeSafeCoercibility.hpp:45-53 | two classes have at most one least common safe target |
| SafeCoercion.LeastCommonTargetExists | types/NumericTypeSafeCoercibility.hpp:37-45 | two numeric classes always have a least common safe target, the search finds it, and it is their join |
| SafeCoercion.NumericTypeUnifier | types/operations/binary_operations/ArithmeticBinaryOperations.hpp:95-98 | the unified type is numeric, is one of the operands or Double, and is at least as wide as both operands |
| SafeCoercion.NumericTypeUnifierIsLeast | types/operations/binary_operations/ArithmeticBinaryOperations.hpp:95-98 | the unified type's class is the least common safe target of the operand classes, e.g. Long with Float gives Double |
| SafeCoercion.NumericTypeUnifierSymmetric | types/operations/binary_operations/ArithmeticBinaryOperations.hpp:95-98 | unification ignores operand order and is idempotent |
| NumericSuperType.MakeNumericType | types/NumericSuperType.hpp:63-66 | the constructor keeps the tag, the nullability and the given cache |
| NumericSuperType.NumericWidths | types/NumericSuperType.hpp:43-66 | super-type Numeric; min width equals max width equals `sizeof(CppType)`, 4 or 8 |
| NumericSuperType.IsSafelyCoercibleFrom | types/NumericSuperType.hpp:48-51 | with a lattice-filled cache, true iff the source is numeric and its class is safely coercible to the target's class; with the cache as constructed, never |
| NumericSuperType.LatticeCache | types/NumericSuperType.hpp:48-69 | the cache holds exactly the numeric tags whose class is safely coercible to the type's class |
| NumericSuperType.SafeCoercionFollowsLattice | types/NumericSuperType.hpp:48-51 | with a cache filled from the lattice, safe coercibility is exactly the lattice relation, reflexive included |
| NumericSuperType.EmptyCacheAdmitsNothing | types/NumericSuperType.hpp:48-69 | with the cache as constructed (nothing fills it), nothing is safely coercible, not even the type itself |
| NumericSuperType.IsCoercibleFrom | types/NumericSuperType.hpp:53-56 | the null check's verdict when it gives one; otherwise, for a source that reports its super-type consistently, true iff the source is one of the four numeric tags |
| NumericSuperType.SafeCoercionImpliesCoercion | types/NumericSuperType.hpp:48-56 | for every numeric target with a lattice-filled cache, once the null check falls through: safe coercibility implies coercibility, coercion accepts exactly the numeric sources, and a non-Numeric super-type is rejected |
| NumericSuperType.CoercionIsLossy | types/NumericSuperType.hpp:53-56 | a numeric source is coercible even when it is not safely coercible (Double to Int) |
| NumericSuperType.MakeZeroValue | types/NumericSuperType.hpp:58-60 | the zero of the native type, with the type's tag; integral zero exactly for Int and Long |
| TypeIds.FromOrdinal | types/TypeRegistrar.hpp:69 | `static_cast<TypeID>` inverts the ordinal |
| TypeIds.OrdinalRoundTrip | types/TypeRegistrar.hpp:86-88 | ordinal then back is the identity |
| TypeIds.RegistrationIsOneToOne | types/TypeRegistrar.hpp:39-53 | each tag has one registered class, no two tags share one, and Bool has no tag |
| TypeIds.StaticTypeIDRoundTrip | types/TypeUtil.hpp:46-62 | `TypeClass<T::kStaticTypeID>::type` is `T` for every registered class |
| Dispatch.Implementation | types/TypeUtil.hpp:68-136 | a selector runs the functor on the tag when it admits the tag, and otherwise fails with "Unexpected TypeID" for that tag |
| Dispatch.SwitchDispatch | types/TypeUtil.hpp:138-163 | an in-range value runs its own tag's case; any other value is fatal "Unrecognized TypeID" |
| Dispatch.InvokeOnTypeIDInner | types/TypeRegistrar.hpp:64-79 | the search over `[l, r]` ends at the value clamped into the range, so an in-range value reaches its own leaf |
| Dispatch.SearchDepth | types/TypeRegistrar.hpp:73-78 | at most `ceil(log2(r - l + 1))` comparisons |
| Dispatch.SearchDispatch | types/TypeRegistrar.hpp:83-89 | in range: the value's own tag; below: Int; above: NullType; never "Unrecognized" |
| Dispatch.SearchDispatchDepth | types/TypeRegistrar.hpp:83-89 | at most four comparisons over the eleven tags |
| Dispatch.DispatchersAgree | types/TypeUtil.hpp:138-163 | for every tag, search and switch give the same result: the selector's verdict on that tag |
| Dispatch.DispatchersDifferOutOfRange | types/TypeRegistrar.hpp:64-89 | out of range the switch is fatal while the search picks Int or NullType |
| Dispatch.IsParameterized | types/TypeUtil.hpp:165-173 | true exactly for Char and VarChar: the `kParameterized` flag of the tag's class |
| ArithmeticOperations.FunctorNamesDistinct | types/operations/binary_operations/ArithmeticBinaryOperations.hpp:65-88 | the names are one character each and differ between operations |
| ArithmeticOperations.CrossProductRow | types/operations/binary_operations/ArithmeticBinaryOperations.hpp:95-98 | one entry per right type, with the generated result |
| ArithmeticOperations.CrossProductPack | types/operations/binary_operations/ArithmeticBinaryOperations.hpp:95-98 | `|lefts| * |rights|` entries, left types outermost |
| ArithmeticOperations.RowMembership | types/operations/binary_operations/ArithmeticBinaryOperations.hpp:95-98 | an entry is in a row iff it has the row's left type, a listed right type and the generated result |
| ArithmeticOperations.CrossProductMembership | types/operations/binary_operations/ArithmeticBinaryOperations.hpp:95-98 | an entry is in the cross product iff its operand types come from the two lists and its result is the generated one |
| ArithmeticOperations.NumericPackMembership | types/operations/binary_operations/ArithmeticBinaryOperations.hpp:93-98 | the numeric cross product holds exactly the sixteen numeric pairs, unified |
| ArithmeticOperations.IntervalPackMembership | types/operations/binary_operations/ArithmeticBinaryOperations.hpp:139-147 | interval by number keeps the left type; number by interval keeps the right type |
| ArithmeticOperations.AddTemporalMatchesReference | types/operations/binary_operations/ArithmeticBinaryOperations.hpp:99-110 | the eight temporal Add entries are exactly the reference's non-numeric Add answers |
| ArithmeticOperations.SubtractTemporalMatchesReference | types/operations/binary_operations/ArithmeticBinaryOperations.hpp:119-130 | the six temporal Subtract entries are exactly the reference's non-numeric Subtract answers |
| ArithmeticOperations.AddPackMatchesReference | types/operations/binary_operations/ArithmeticBinaryOperations.hpp:93-111 | Add's pack holds an entry iff the reference gives that result |
| ArithmeticOperations.SubtractPackMatchesReference | types/operations/binary_operations/ArithmeticBinaryOperations.hpp:113-131 | Subtract's pack holds an entry iff the reference gives that result |
| ArithmeticOperations.MultiplyPackMatchesReference | types/operations/binary_operations/ArithmeticBinaryOperations.hpp:133-148 | Multiply's pack holds an entry iff the reference gives that result |
| ArithmeticOperations.DividePackMatchesReference | types/operations/binary_operations/ArithmeticBinaryOperations.hpp:150-161 | Divide's pack holds an entry iff the reference gives that result |
| ArithmeticOperations.ModuloPackMatchesReference | types/operations/binary_operations/ArithmeticBinaryOperations.hpp:163-169 | Modulo's pack holds an entry iff the reference gives that result |
| ArithmeticOperations.PackMatchesReference | types/operations/binary_operations/ArithmeticBinaryOperations.hpp:171-177 | every pack of the five operations agrees with the reference in both directions |
| ArithmeticOperations.Pack | types/operations/binary_operations/ArithmeticBinaryOperations.hpp:93-177 | every pack starts with the sixteen-entry numeric cross product, and every later entry has a non-numeric operand |
| ArithmeticOperations.Extras | types/operations/binary_operations/ArithmeticBinaryOperations.hpp:99-169 | the entries each operation lists after its numeric cross product (the date, datetime and interval signatures, and the interval-by-number products) all have a non-numeric operand, so they never shadow a numeric pair |
| ArithmeticOperations.Lookup | types/operations/binary_operations/ArithmeticBinaryOperations.hpp:171-177 | a found result comes from an entry with those operand types; no result means no entry has them |
| ArithmeticOperations.LookupFollowsEntries | types/operations/binary_operations/ArithmeticBinaryOperations.hpp:171-177 | first-match lookup returns the result of the entries with that key, whatever their order, and nothing when there is none |
| ArithmeticOperations.LookupMatchesReference | types/operations/binary_operations/ArithmeticBinaryOperations.hpp:93-177 | looking up an operand pair gives exactly the reference's answer: defined on the stated domain, absent outside it |
| ArithmeticOperations.NumericPairsTotal | types/operations/binary_operations/ArithmeticBinaryOperations.hpp:93-168 | all five operations accept all sixteen numeric pairs, with the unified result |
| ArithmeticOperations.AddDateInterval | types/operations/binary_operations/ArithmeticBinaryOperations.hpp:99-101 | Date + YearMonthInterval and its mirror give Date |
| ArithmeticOperations.AddDatetimeInterval | types/operations/binary_operations/ArithmeticBinaryOperations.hpp:102-106 | Datetime with either interval kind, either side, gives Datetime |
| ArithmeticOperations.AddSameInterval | types/operations/binary_operations/ArithmeticBinaryOperations.hpp:107-110 | an interval plus the same kind gives that kind |
| ArithmeticOperations.AddAbsences | types/operations/binary_operations/ArithmeticBinaryOperations.hpp:99-110 | no Date + Date, Datetime + Datetime, or Date with DatetimeInterval |
| ArithmeticOperations.SubtractDateInterval | types/operations/binary_operations/ArithmeticBinaryOperations.hpp:120 | Date − YearMonthInterval gives Date |
| ArithmeticOperations.SubtractDatetimeInterval | types/operations/binary_operations/ArithmeticBinaryOperations.hpp:124-125 | Datetime minus either interval kind gives Datetime |
| ArithmeticOperations.SubtractDatetimes | types/operations/binary_operations/ArithmeticBinaryOperations.hpp:126 | Datetime − Datetime gives DatetimeInterval |
| ArithmeticOperations.SubtractSameInterval | types/operations/binary_operations/ArithmeticBinaryOperations.hpp:127-130 | same-interval differences stay that kind |
| ArithmeticOperations.SubtractNoIntervalMinusDate | types/operations/binary_operations/ArithmeticBinaryOperations.hpp:119-130 | no interval minus Date or Datetime |
| ArithmeticOperations.SubtractNoDateMinusDate | types/operations/binary_operations/ArithmeticBinaryOperations.hpp:120-122 | Date − Date is absent |
| ArithmeticOperations.MultiplyIntervalByNumber | types/operations/binary_operations/ArithmeticBinaryOperations.hpp:140-143 | interval × number keeps the interval type |
| ArithmeticOperations.MultiplyNumberByInterval | types/operations/binary_operations/ArithmeticBinaryOperations.hpp:144-147 | number × interval keeps the interval type |
| ArithmeticOperations.DivideIntervalByNumber | types/operations/binary_operations/ArithmeticBinaryOperations.hpp:157-160 | interval ÷ number keeps the interval type |
| ArithmeticOperations.DivideNoNumberByInterval | types/operations/binary_operations/ArithmeticBinaryOperations.hpp:150-161 | number ÷ interval has no entry |
| ArithmeticOperations.ModuloOnlyNumeric | types/operations/binary_operations/ArithmeticBinaryOperations.hpp:163-169 | Modulo is defined iff both operands are numeric |
| CMathOperations.FunctionNamesDistinct | types/operations/unary_operations/CMathUnaryOperations.hpp:63-103 | the seven names differ |
| CMathOperations.Lookup | types/operations/unary_operations/CMathUnaryOperations.hpp:63-103 | a found result comes from an entry with that key; no result means no entry has the key |
| CMathOperations.PackMatchesReference | types/operations/unary_operations/CMathUnaryOperations.hpp:63-103 | the pack holds an entry iff the reference gives that result |
| CMathOperations.KeysUnique | types/operations/unary_operations/CMathUnaryOperations.hpp:63-103 | each (function, argument type) key occurs once |
| CMathOperations.LookupFollowsEntries | types/operations/unary_operations/CMathUnaryOperations.hpp:63-103 | when the entries with a key are exactly those with one result, lookup returns that result, and nothing when there is none |
| CMathOperations.LookupMatchesReference | types/operations/unary_operations/CMathUnaryOperations.hpp:63-103 | lookup gives exactly the reference's answer |
| CMathOperations.AbsKeepsNumericType | types/operations/unary_operations/CMathUnaryOperations.hpp:64-72 | abs is defined exactly on Int, Long, Float, Double and keeps the type |
| CMathOperations.FloatingFunctions | types/operations/unary_operations/CMathUnaryOperations.hpp:73-102 | the other six are defined exactly on Float and Double; round gives Long, the rest keep the type |
| CMathOperations.NoIntegralEntries | types/operations/unary_operations/CMathUnaryOperations.hpp:73-102 | no function but abs takes Int or Long |
| SubstringOperation.ToSize | types/operations/unary_operations/SubstringOperation.hpp:127-134 | `static_cast<std::size_t>` gives a value below `2^64`, unchanged when in range, plus `2^64` when negative |
| SubstringOperation.GetSignatures | types/operations/unary_operations/SubstringOperation.hpp:70-75 | two signatures named Substring, one input, two Long static arguments |
| SubstringOperation.SignaturesCoverStringTypes | types/operations/unary_operations/SubstringOperation.hpp:70-75 | a signature exists for an input type iff it is Char or VarChar |
| SubstringOperation.CanApplyTo | types/operations/unary_operations/SubstringOperation.hpp:77-98 | accepts iff start > 0 and any length > 0; the start message iff start ≤ 0; the length message iff start is fine and length ≤ 0 |
| SubstringOperation.StartCheckedFirst | types/operations/unary_operations/SubstringOperation.hpp:84-95 | the two messages differ, and a bad start hides a bad length |
| SubstringOperation.ExtractStaticArguments | types/operations/unary_operations/SubstringOperation.hpp:119-135 | the start is `start - 1` and the length the given one modulo `2^64`; the length defaults to the largest `size_t` |
| SubstringOperation.AcceptedArgumentsExtractExactly | types/operations/unary_operations/SubstringOperation.hpp:119-135 | for accepted arguments nothing wraps: `start0 = start - 1` and the length is exact |
| SubstringOperation.RejectedStartWraps | types/operations/unary_operations/SubstringOperation.hpp:127-128 | a start ≤ 0 would wrap to a huge `size_t` |
| SubstringOperation.ComputeMaximumSubstringLength | types/operations/unary_operations/SubstringOperation.hpp:143-158 | the smaller of the requested length and `inputMax - start` computed in `size_t`: within the width the remaining width, past it the difference wrapped modulo `2^64` |
| SubstringOperation.MaximumLengthWrapsPastWidth | types/operations/unary_operations/SubstringOperation.hpp:157 | past the width, and without a length, the bound wraps to more than the width |
| SubstringOperation.MaximumLengthZeroAtWidth | types/operations/unary_operations/SubstringOperation.hpp:157 | a start at the width gives 0 |
| SubstringOperation.GetResultType | types/operations/unary_operations/SubstringOperation.hpp:100-112 | Char, the input's nullability; the width from the literals: `min(width - start0, requested)` inside the width, the requested length past it, or the wrapped difference without a length |
| SubstringOperation.ResultWidth | types/operations/unary_operations/SubstringOperation.hpp:100-112 | the result width from the arguments: the smaller bound inside the width, 0 at the width; beyond it the requested length, or, without one, a wrapped width above the declared width |
| SubstringOperator.MakeUncheckedOperator | types/operations/unary_operations/SubstringOperation.cpp:42-66 | NUL-terminated iff VarChar, nullable iff the input is, `start0 = start - 1`, length = the result width |
| SubstringOperator.Strlen | types/operations/unary_operations/SubstringOperation.cpp:72-73 | the index of the first NUL |
| SubstringOperator.Strnlen | types/operations/unary_operations/SubstringOperation.cpp:72-73 | the first NUL before the limit, else the limit; no NUL before it |
| SubstringOperator.ActualLength | types/operations/unary_operations/SubstringOperation.cpp:72-73 | a NUL-free prefix of the input that ends at the first NUL, or, for Char only, at the declared width, never past it |
| SubstringOperator.CharReadsStayWithinWidth | types/operations/unary_operations/SubstringOperation.cpp:72-73 | a Char value needs only its declared width of readable bytes |
| SubstringOperator.ComputeSubstring | types/operations/unary_operations/SubstringOperation.cpp:68-87 | never more than the buffer; one NUL when the start is at or past the end; else the `min(len - start0, length)` bytes from `start0`, followed by a NUL iff that is shorter than the buffer |
| SubstringOperator.Substring | types/operations/unary_operations/SubstringOperation.cpp:68-87 | the reference substring: nothing from a start at or past the end, otherwise `min(len - start, length)` characters from the start |
| SubstringOperator.ComputeSubstringIsSubstring | types/operations/unary_operations/SubstringOperation.cpp:68-87 | read back as `Char(length)`, the output is the substring of the actual string from `start0` |
| SubstringOperator.TerminatorFitsUnlessStartAtWidth | types/operations/unary_operations/SubstringOperation.cpp:75-97 | the buffer is 0 bytes iff `start0` equals the declared width |
| SubstringOperator.TerminatorOverflowAtWidth | types/operations/unary_operations/SubstringOperation.cpp:75-97 | Char(5) from position 6 on "hello" is accepted, yet the NUL does not fit |
| SubstringOperator.YieldsSubstring | types/operations/unary_operations/SubstringOperation.cpp:42-104 | a planned VarChar operation away from the width meets every precondition and yields the substring |
| SubstringOperator.SubstringFromStart | types/operations/unary_operations/SubstringOperation.cpp:68-87 | Substring("hello", 1, 3) is "hel" |
| SubstringOperator.SubstringPastEnd | types/operations/unary_operations/SubstringOperation.cpp:68-87 | Substring("hello", 4, 10) is "lo" |
| SubstringOperator.SubstringBeyondEnd | types/operations/unary_operations/SubstringOperation.cpp:75-78 | Substring("hello", 10, 2) is empty, not an error |
| SubstringOperator.ApplyToTypedValue | types/operations/unary_operations/SubstringOperation.cpp:89-104 | null iff the argument is null; otherwise an owned buffer of `substring_length_` bytes with the result tag |
| SubstringOperator.ApplyToRow | types/operations/unary_operations/SubstringOperation.cpp:106-160 | one output row: null iff the argument is null, otherwise at most the result width and reading back as the substring of the argument's actual string |
| SubstringOperator.SurfacesAgree | types/operations/unary_operations/SubstringOperation.cpp:89-131 | the column row and the single value agree: null for null, the same bytes otherwise |
| SubstringOperator.ApplyToColumnVector | types/operations/unary_operations/SubstringOperation.cpp:106-131 | one output per input row, in order, each null or the kernel's bytes |
| SubstringOperator.ApplyToValueAccessor | types/operations/unary_operations/SubstringOperation.cpp:133-160 | the same, driven by the accessor's `next()` |

## Edge cases kept as written

- **The maximum length wraps.** In `ComputeMaximumSubstringLength`
  (`SubstringOperation.hpp:157`) the subtraction `input_maximum_length -
  start_position` is done in `size_t`. A start past the declared width wraps
  instead of clamping to 0. `MaximumLengthWrapsPastWidth` and `ResultWidth`
  exhibit the wrap.
- **The terminator can overflow the buffer.** If `start0` equals the declared
  width, the planned result width is 0 and `applyToTypedValue` allocates 0
  bytes (`SubstringOperation.cpp:97`). The empty-result branch still writes
  `output[0]` (`SubstringOperation.cpp:75-77`). `ComputeSubstring` carries
  `TerminatorFits` as an explicit precondition. `TerminatorOverflowAtWidth`
  gives an accepted input that violates it.
- **Start position 4 on "hello".** Start positions are 1-based, so position 4
  is the second "l". Substring("hello", 4, 10) is therefore "lo". An "o" is
  what a 0-based reading would give, and the model follows the code.

## Left out

- Numeric results of the arithmetic and cmath functors (`apply`, the
  `...FunctorOverloads`, `std::abs`, `std::llround`, ...): they live in files
  that are not part of this model and are IEEE-754 or overflowing integer
  arithmetic. Only signatures and result types are modelled.
- `BinaryFunctorCrossProductPack` and `FunctorPack` are not part of this
  model. The cross product is modelled as left types outermost, and lookup as
  first match on the operand types. Neither choice changes any result: no
  key occurs twice.
- SafeCoercion.NumericTypeUnifier: its C++ definition is not part of this
  model. It is given in closed form. `NumericTypeUnifierIsLeast` ties it to
  the least common safe target in the closure.
- The closure is related to its fourteen-pair evaluation by a proof
  (`ClosureEvaluation`) and not by evaluating `TransitiveClosure` on the
  literal edge list.
- NumericSuperType.IsSafelyCoercibleFrom: `safe_coerce_cache_` is never filled
  by the class, so its contents are a constructor parameter. The
  lattice-filled cache is one choice (`LatticeCache`), and the empty cache is
  another.
- NumericSuperType.IsCoercibleFrom: once the null check falls through, the
  contract speaks of sources that report their super-type consistently
  (`ConsistentView`: Numeric exactly for the four numeric tags). The other
  type classes and their super-types are not part of this model.
- `QUICKSTEP_NULL_COERCIBILITY_CHECK()` is a parameter: its body is not part of
  this model.
- `TypeSynthesizer`, `TypeFactory`, `getStringLength` and `TypedValue`
  storage are not part of this model. The declared width is a field of
  `CharacterType`. `TypeFactory::GetType` is the `CharacterType` value it
  would return.
- `TypeID.hpp` is not part of this model. Ordinals are taken in the order of
  the registration and `switch` lines, Int = 0 to NullType = 10.
- `kParameterized` is taken as true for Char and VarChar only: the class
  headers are not part of this model.
- `LOG(FATAL)` is a `Fatal` result of dispatch. Each `DCHECK` is a
  precondition.
- The `int64` literal `INT64_MIN` gives `start - 1` below the 64-bit range.
  That case is modelled as a wrap modulo `2^64`.
- C++ metaprogramming mechanics (SFINAE, `IsTypeTrait`, `InvokeOnBools`,
  `CreateBoolInstantiatedInstance`, `StringLiteral`, `MakeSequence`) are left
  out. Template booleans are ordinary fields.
- Memory and storage (`malloc`, ownership, `NativeColumnVector` layout,
  `InvokeOnColumnVector`, the value-accessor adapters) are left out. A column
  or accessor is a sequence of optional byte strings, and an output row is
  the bytes the kernel writes.
- `applyToValueAccessorForJoin` is declared (`SubstringOperation.hpp:186-192`)
  but has no definition here, so it is left out. So are the `#ifdef` build
  switches.
- `DoubleType.hpp` (printing, parsing, coercion bodies) and the optimizer's
  `BinaryExpression.cpp` are outside the modelled core.
- The `getName`/`getShortName` strings of `SubstringOperation` are left out:
  they are the constant "Substring", which the signatures carry.
