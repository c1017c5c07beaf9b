/** The signature tables of the five arithmetic binary operations: which
    (left, right) operand types each functor pack accepts and which result
    type it produces. The numeric work the functors do is not modelled. */
module ArithmeticOperations {
  import opened Wrappers
  import opened TypeIds
  import opened SafeCoercion

  datatype ArithmeticOp = Add | Subtract | Multiply | Divide | Modulo

  /** `FunctorNameT::ToString()`: the `StringLiteral` each functor carries. */
  function FunctorName(op: ArithmeticOp): string {
    match op
    case Add => "+"
    case Subtract => "-"
    case Multiply => "*"
    case Divide => "/"
    case Modulo => "%"
  }

  /** Each functor name is one character and no two operations share one. */
  lemma FunctorNamesDistinct(op1: ArithmeticOp, op2: ArithmeticOp)
    ensures |FunctorName(op1)| == 1
    ensures FunctorName(op1) == FunctorName(op2) ==> op1 == op2
  {
  }

  /** One functor of a pack: `Functor<LeftT, RightT, ResultT>`. */
  datatype Signature = Signature(left: TypeID, right: TypeID, result: TypeID)

  /** The result generator of a cross-product pack: `NumericTypeUnifier`,
      `PairSelectorLeft` or `PairSelectorRight`. */
  datatype ResultPolicy = Unifier | SelectLeft | SelectRight

  /** `PairSelectorLeft<LeftT, RightT>::type`. */
  function PairSelectorLeft(left: TypeID, right: TypeID): TypeID {
    left
  }

  /** `PairSelectorRight<LeftT, RightT>::type`. */
  function PairSelectorRight(left: TypeID, right: TypeID): TypeID {
    right
  }

  function ResultType(policy: ResultPolicy, left: TypeID, right: TypeID): TypeID
    requires policy.Unifier? ==> IsNumeric(left) && IsNumeric(right)
  {
    match policy
    case Unifier => NumericTypeUnifier(left, right)
    case SelectLeft => PairSelectorLeft(left, right)
    case SelectRight => PairSelectorRight(left, right)
  }

  /** The unifier is only ever applied to numeric operand lists. */
  predicate Admissible(policy: ResultPolicy, lefts: seq<TypeID>, rights: seq<TypeID>) {
    policy.Unifier? ==> (forall l <- lefts :: IsNumeric(l)) && (forall r <- rights :: IsNumeric(r))
  }

  /** The functors of one left operand type, one per right operand type. */
  function CrossProductRow(left: TypeID, rights: seq<TypeID>, policy: ResultPolicy): (row: seq<Signature>)
    requires Admissible(policy, [left], rights)
    ensures |row| == |rights|
    ensures forall k :: 0 <= k < |rights| ==>
      row[k] == Signature(left, rights[k], ResultType(policy, left, rights[k]))
    decreases |rights|
  {
    if |rights| == 0 then []
    else
      [Signature(left, rights[0], ResultType(policy, left, rights[0]))] + CrossProductRow(left, rights[1..], policy)
  }

  /** `BinaryFunctorCrossProductPack<LeftTypes, RightTypes, Functor, ResultGenerator>`:
      one functor per (left, right) pair, left types outermost, each with the
      result type the generator picks for that pair. */
  function CrossProductPack(lefts: seq<TypeID>, rights: seq<TypeID>, policy: ResultPolicy): (pack: seq<Signature>)
    requires Admissible(policy, lefts, rights)
    ensures |pack| == |lefts| * |rights|
    ensures |lefts| > 0 ==> pack[..|rights|] == CrossProductRow(lefts[0], rights, policy)
    decreases |lefts|
  {
    if |lefts| == 0 then []
    else CrossProductRow(lefts[0], rights, policy) + CrossProductPack(lefts[1..], rights, policy)
  }

  /** A signature is in a row exactly when it has the row's left type, one
      of the right types, and the generated result. */
  lemma RowMembership(left: TypeID, rights: seq<TypeID>, policy: ResultPolicy, s: Signature)
    requires Admissible(policy, [left], rights)
    ensures s in CrossProductRow(left, rights, policy) <==>
      s.left == left && s.right in rights && s.result == ResultType(policy, s.left, s.right)
  {
    var row := CrossProductRow(left, rights, policy);
    if s in row {
      var k :| 0 <= k < |row| && row[k] == s;
    }
    if s.left == left && s.right in rights && s.result == ResultType(policy, s.left, s.right) {
      var k :| 0 <= k < |rights| && rights[k] == s.right;
      assert row[k] == s;
    }
  }

  /** The pack holds exactly the signatures whose operand types come from
      the two lists and whose result is the generated one: every pair is
      present, and nothing else is. */
  lemma {:induction false} CrossProductMembership(lefts: seq<TypeID>, rights: seq<TypeID>, policy: ResultPolicy, s: Signature)
    requires Admissible(policy, lefts, rights)
    ensures s in CrossProductPack(lefts, rights, policy) <==>
      s.left in lefts && s.right in rights && s.result == ResultType(policy, s.left, s.right)
    decreases |lefts|
  {
    if |lefts| > 0 {
      RowMembership(lefts[0], rights, policy, s);
      CrossProductMembership(lefts[1..], rights, policy, s);
      assert lefts == [lefts[0]] + lefts[1..];
    }
  }

  /** The right operand types of the temporal and interval rules. */
  predicate IsInterval(t: TypeID) {
    t == kDatetimeInterval || t == kYearMonthInterval
  }

  /** The numeric cross product every operation starts with: all sixteen
      pairs of numeric types, unified. */
  function NumericPack(): seq<Signature> {
    CrossProductPack(NumericTypeIDs, NumericTypeIDs, Unifier)
  }

  /** Interval times or divided by a number: the interval type. */
  function IntervalByNumericPack(): seq<Signature> {
    CrossProductPack(IntervalTypeIDs, NumericTypeIDs, SelectLeft)
  }

  /** A number times an interval: the interval type. */
  function NumericByIntervalPack(): seq<Signature> {
    CrossProductPack(NumericTypeIDs, IntervalTypeIDs, SelectRight)
  }

  /** The date, datetime and interval functors of `AddFunctor`. */
  const AddTemporal: seq<Signature> := [
    Signature(kDate, kYearMonthInterval, kDate),
    Signature(kYearMonthInterval, kDate, kDate),
    Signature(kDatetime, kDatetimeInterval, kDatetime),
    Signature(kDatetime, kYearMonthInterval, kDatetime),
    Signature(kDatetimeInterval, kDatetime, kDatetime),
    Signature(kYearMonthInterval, kDatetime, kDatetime),
    Signature(kDatetimeInterval, kDatetimeInterval, kDatetimeInterval),
    Signature(kYearMonthInterval, kYearMonthInterval, kYearMonthInterval)
  ]

  /** The date, datetime and interval functors of `SubtractFunctor`. */
  const SubtractTemporal: seq<Signature> := [
    Signature(kDate, kYearMonthInterval, kDate),
    Signature(kDatetime, kDatetimeInterval, kDatetime),
    Signature(kDatetime, kYearMonthInterval, kDatetime),
    Signature(kDatetime, kDatetime, kDatetimeInterval),
    Signature(kDatetimeInterval, kDatetimeInterval, kDatetimeInterval),
    Signature(kYearMonthInterval, kYearMonthInterval, kYearMonthInterval)
  ]

  /** The functor pack of each operation, in declaration order: the numeric
      cross product first, then entries that all have a non-numeric
      operand, so no numeric pair has a second entry. */
  function Pack(op: ArithmeticOp): (p: seq<Signature>)
    ensures 16 <= |p| && p[..16] == NumericPack()
    ensures forall i :: 16 <= i < |p| ==> !(IsNumeric(p[i].left) && IsNumeric(p[i].right))
  {
    var extras := Extras(op);
    AppendedLayout(NumericPack(), extras);
    NumericPack() + extras
  }

  /** The entries each operation registers after the numeric cross product. */
  function Extras(op: ArithmeticOp): (extras: seq<Signature>)
    ensures forall s :: s in extras ==> !(IsNumeric(s.left) && IsNumeric(s.right))
  {
    var extras := match op
      case Add => AddTemporal
      case Subtract => SubtractTemporal
      case Multiply => IntervalByNumericPack() + NumericByIntervalPack()
      case Divide => IntervalByNumericPack()
      case Modulo => [];
    forall s | s in extras ensures !(IsNumeric(s.left) && IsNumeric(s.right)) {
      ExtraEntryNonNumeric(s);
    }
    extras
  }

  /** Appending entries with a non-numeric operand keeps the prefix and puts
      no numeric pair past it. */
  lemma AppendedLayout(prefix: seq<Signature>, extras: seq<Signature>)
    requires forall s :: s in extras ==> !(IsNumeric(s.left) && IsNumeric(s.right))
    ensures (prefix + extras)[..|prefix|] == prefix
    ensures forall i :: |prefix| <= i < |prefix + extras| ==>
      !(IsNumeric((prefix + extras)[i].left) && IsNumeric((prefix + extras)[i].right))
  {
    forall i | |prefix| <= i < |prefix + extras|
      ensures !(IsNumeric((prefix + extras)[i].left) && IsNumeric((prefix + extras)[i].right))
    {
      assert (prefix + extras)[i] == extras[i - |prefix|];
    }
  }

  /** Every entry outside the numeric cross products has a non-numeric operand. */
  lemma ExtraEntryNonNumeric(s: Signature)
    requires s in AddTemporal || s in SubtractTemporal || s in IntervalByNumericPack() || s in NumericByIntervalPack()
    ensures !(IsNumeric(s.left) && IsNumeric(s.right))
  {
    IntervalPackMembership(s);
  }

  /** The functor a (left, right) operand pair selects from a pack: the
      result type of the first entry with those operand types, if any. */
  function Lookup(pack: seq<Signature>, left: TypeID, right: TypeID): (r: Option<TypeID>)
    ensures r.Some? ==> Signature(left, right, r.value) in pack
    ensures r.None? ==> forall s :: s in pack ==> !(s.left == left && s.right == right)
    decreases |pack|
  {
    if |pack| == 0 then None
    else if pack[0].left == left && pack[0].right == right then Some(pack[0].result)
    else Lookup(pack[1..], left, right)
  }

  /** Lookup follows a pack's contents: when the entries with operand types
      `(left, right)` are exactly those whose result is `e`'s value, the
      lookup returns `e`, whatever the order of the entries. */
  lemma {:induction false} LookupFollowsEntries(pack: seq<Signature>, left: TypeID, right: TypeID, e: Option<TypeID>)
    requires forall v :: Signature(left, right, v) in pack <==> e == Some(v)
    ensures Lookup(pack, left, right) == e
    decreases |pack|
  {
    if |pack| == 0 {
    } else if pack[0].left == left && pack[0].right == right {
      assert Signature(left, right, pack[0].result) == pack[0];
    } else {
      forall v ensures Signature(left, right, v) in pack[1..] <==> e == Some(v) {
        assert pack == [pack[0]] + pack[1..];
      }
      LookupFollowsEntries(pack[1..], left, right, e);
    }
  }

  /** Reference description of the five operations, independent of how the
      packs are assembled: numeric pairs unify; an interval combines with
      the same interval kind; Date and Datetime move by intervals; Datetime
      minus Datetime is a DatetimeInterval; intervals scale by numbers. */
  function Expected(op: ArithmeticOp, left: TypeID, right: TypeID): Option<TypeID> {
    if IsNumeric(left) && IsNumeric(right) then Some(NumericTypeUnifier(left, right))
    else match op
      case Add =>
        if IsInterval(left) && right == left then Some(left)
        else if (left == kDate && right == kYearMonthInterval) || (left == kYearMonthInterval && right == kDate) then Some(kDate)
        else if (left == kDatetime && IsInterval(right)) || (IsInterval(left) && right == kDatetime) then Some(kDatetime)
        else None
      case Subtract =>
        if IsInterval(left) && right == left then Some(left)
        else if left == kDate && right == kYearMonthInterval then Some(kDate)
        else if left == kDatetime && IsInterval(right) then Some(kDatetime)
        else if left == kDatetime && right == kDatetime then Some(kDatetimeInterval)
        else None
      case Multiply =>
        if IsInterval(left) && IsNumeric(right) then Some(left)
        else if IsNumeric(left) && IsInterval(right) then Some(right)
        else None
      case Divide =>
        if IsInterval(left) && IsNumeric(right) then Some(left)
        else None
      case Modulo =>
        None
  }

  lemma NumericPackMembership(s: Signature)
    ensures s in NumericPack() <==>
      IsNumeric(s.left) && IsNumeric(s.right) && s.result == NumericTypeUnifier(s.left, s.right)
  {
    CrossProductMembership(NumericTypeIDs, NumericTypeIDs, Unifier, s);
    NumericTypeIDsAreNumeric(s.left);
    NumericTypeIDsAreNumeric(s.right);
  }

  lemma NumericTypeIDsAreNumeric(t: TypeID)
    ensures t in NumericTypeIDs <==> IsNumeric(t)
    ensures t in IntervalTypeIDs <==> IsInterval(t)
  {
  }

  lemma IntervalPackMembership(s: Signature)
    ensures s in IntervalByNumericPack() <==> IsInterval(s.left) && IsNumeric(s.right) && s.result == s.left
    ensures s in NumericByIntervalPack() <==> IsNumeric(s.left) && IsInterval(s.right) && s.result == s.right
  {
    CrossProductMembership(IntervalTypeIDs, NumericTypeIDs, SelectLeft, s);
    CrossProductMembership(NumericTypeIDs, IntervalTypeIDs, SelectRight, s);
    NumericTypeIDsAreNumeric(s.left);
    NumericTypeIDsAreNumeric(s.right);
  }

  /** The date, datetime and interval rules of Add are exactly the
      reference's answers on non-numeric operand pairs. */
  lemma AddTemporalMatchesReference(s: Signature)
    ensures s in AddTemporal <==>
      !(IsNumeric(s.left) && IsNumeric(s.right)) && Expected(Add, s.left, s.right) == Some(s.result)
  {
  }

  /** The same for Subtract. */
  lemma SubtractTemporalMatchesReference(s: Signature)
    ensures s in SubtractTemporal <==>
      !(IsNumeric(s.left) && IsNumeric(s.right)) && Expected(Subtract, s.left, s.right) == Some(s.result)
  {
  }

  lemma AddPackMatchesReference(s: Signature)
    ensures s in Pack(Add) <==> Expected(Add, s.left, s.right) == Some(s.result)
  {
    assert s in Pack(Add) <==> s in NumericPack() || s in AddTemporal;
    NumericPackMembership(s);
    AddTemporalMatchesReference(s);
  }

  lemma SubtractPackMatchesReference(s: Signature)
    ensures s in Pack(Subtract) <==> Expected(Subtract, s.left, s.right) == Some(s.result)
  {
    assert s in Pack(Subtract) <==> s in NumericPack() || s in SubtractTemporal;
    NumericPackMembership(s);
    SubtractTemporalMatchesReference(s);
  }

  /** Multiply's reference answers, case by case. */
  lemma MultiplyReferenceCases(s: Signature)
    ensures Expected(Multiply, s.left, s.right) == Some(s.result) <==>
      (IsNumeric(s.left) && IsNumeric(s.right) && s.result == NumericTypeUnifier(s.left, s.right)) ||
      (IsInterval(s.left) && IsNumeric(s.right) && s.result == s.left) ||
      (IsNumeric(s.left) && IsInterval(s.right) && s.result == s.right)
  {
  }

  /** Divide's reference answers, case by case. */
  lemma DivideReferenceCases(s: Signature)
    ensures Expected(Divide, s.left, s.right) == Some(s.result) <==>
      (IsNumeric(s.left) && IsNumeric(s.right) && s.result == NumericTypeUnifier(s.left, s.right)) ||
      (IsInterval(s.left) && IsNumeric(s.right) && s.result == s.left)
  {
  }

  lemma MultiplyPackMatchesReference(s: Signature)
    ensures s in Pack(Multiply) <==> Expected(Multiply, s.left, s.right) == Some(s.result)
  {
    var p1, p2, p3 := NumericPack(), IntervalByNumericPack(), NumericByIntervalPack();
    assert Extras(Multiply) == p2 + p3;
    assert s in p1 + (p2 + p3) <==> s in p1 || s in p2 || s in p3;
    NumericPackMembership(s);
    IntervalPackMembership(s);
    MultiplyReferenceCases(s);
  }

  lemma DividePackMatchesReference(s: Signature)
    ensures s in Pack(Divide) <==> Expected(Divide, s.left, s.right) == Some(s.result)
  {
    var p1, p2 := NumericPack(), IntervalByNumericPack();
    assert Extras(Divide) == p2;
    assert s in p1 + p2 <==> s in p1 || s in p2;
    NumericPackMembership(s);
    IntervalPackMembership(s);
    DivideReferenceCases(s);
  }

  lemma ModuloPackMatchesReference(s: Signature)
    ensures s in Pack(Modulo) <==> Expected(Modulo, s.left, s.right) == Some(s.result)
  {
    NumericPackMembership(s);
  }

  /** Every entry of every pack agrees with the reference, and every pair
      the reference accepts has its entry. */
  lemma PackMatchesReference(op: ArithmeticOp, s: Signature)
    ensures s in Pack(op) <==> Expected(op, s.left, s.right) == Some(s.result)
  {
    match op
    case Add => AddPackMatchesReference(s);
    case Subtract => SubtractPackMatchesReference(s);
    case Multiply => MultiplyPackMatchesReference(s);
    case Divide => DividePackMatchesReference(s);
    case Modulo => ModuloPackMatchesReference(s);
  }

  /** Looking an operand pair up in a pack gives the reference's answer:
      defined exactly on the stated domain, with the stated result type. */
  lemma LookupMatchesReference(op: ArithmeticOp, left: TypeID, right: TypeID)
    ensures Lookup(Pack(op), left, right) == Expected(op, left, right)
  {
    forall v ensures Signature(left, right, v) in Pack(op) <==> Expected(op, left, right) == Some(v) {
      PackMatchesReference(op, Signature(left, right, v));
    }
    LookupFollowsEntries(Pack(op), left, right, Expected(op, left, right));
  }

  /** The reference's answers for Add on the date, datetime and interval
      pairs the rule lemmas below are about. */
  lemma AddReference(left: TypeID, right: TypeID)
    ensures (left == kDate && right == kYearMonthInterval) || (left == kYearMonthInterval && right == kDate) ==>
      Expected(Add, left, right) == Some(kDate)
    ensures (left == kDatetime && IsInterval(right)) || (IsInterval(left) && right == kDatetime) ==>
      Expected(Add, left, right) == Some(kDatetime)
    ensures IsInterval(left) && right == left ==>
      Expected(Add, left, right) == Some(left)
    ensures ((left == kDate || left == kDatetime) && right == left) ||
            (left == kDate && right == kDatetimeInterval) || (left == kDatetimeInterval && right == kDate) ==>
      Expected(Add, left, right) == None
  {
  }

  /** The same for Subtract. */
  lemma SubtractReference(left: TypeID, right: TypeID)
    ensures IsInterval(left) && right == left ==>
      Expected(Subtract, left, right) == Some(left)
    ensures left == kDate && right == kYearMonthInterval ==> Expected(Subtract, left, right) == Some(kDate)
    ensures left == kDatetime && IsInterval(right) ==> Expected(Subtract, left, right) == Some(kDatetime)
    ensures left == kDatetime && right == kDatetime ==> Expected(Subtract, left, right) == Some(kDatetimeInterval)
    ensures (IsInterval(left) && (right == kDate || right == kDatetime)) || (left == kDate && right == kDate) ==>
      Expected(Subtract, left, right) == None
  {
  }

  /** The same for Multiply, Divide and Modulo. */
  lemma ScalingReference(left: TypeID, right: TypeID)
    ensures IsInterval(left) && IsNumeric(right) ==>
      Expected(Multiply, left, right) == Some(left) && Expected(Divide, left, right) == Some(left)
    ensures IsNumeric(left) && IsInterval(right) ==>
      Expected(Multiply, left, right) == Some(right) && Expected(Divide, left, right) == None
    ensures Expected(Modulo, left, right).Some? <==> IsNumeric(left) && IsNumeric(right)
  {
  }

  /** All five operations accept all sixteen numeric pairs, with the unified
      result type. */
  lemma NumericPairsTotal(op: ArithmeticOp, left: TypeID, right: TypeID)
    requires IsNumeric(left) && IsNumeric(right)
    ensures Lookup(Pack(op), left, right) == Some(NumericTypeUnifier(left, right))
  {
    LookupMatchesReference(op, left, right);
  }

  /** Add: Date with YearMonthInterval, either way round, is Date. */
  lemma AddDateInterval(left: TypeID, right: TypeID)
    requires (left == kDate && right == kYearMonthInterval) || (left == kYearMonthInterval && right == kDate)
    ensures Lookup(Pack(Add), left, right) == Some(kDate)
  {
    LookupMatchesReference(Add, left, right);
    AddReference(left, right);
  }

  /** Add: Datetime with either interval kind, either way round, is Datetime. */
  lemma AddDatetimeInterval(left: TypeID, right: TypeID)
    requires (left == kDatetime && IsInterval(right)) || (IsInterval(left) && right == kDatetime)
    ensures Lookup(Pack(Add), left, right) == Some(kDatetime)
  {
    LookupMatchesReference(Add, left, right);
    AddReference(left, right);
  }

  /** Add: an interval plus the same interval kind stays that kind. */
  lemma AddSameInterval(t: TypeID)
    requires IsInterval(t)
    ensures Lookup(Pack(Add), t, t) == Some(t)
  {
    LookupMatchesReference(Add, t, t);
    AddReference(t, t);
  }

  /** Add: a Date or Datetime never adds to itself, and Date takes no
      DatetimeInterval on either side. */
  lemma AddAbsences(left: TypeID, right: TypeID)
    requires ((left == kDate || left == kDatetime) && right == left) ||
             (left == kDate && right == kDatetimeInterval) || (left == kDatetimeInterval && right == kDate)
    ensures Lookup(Pack(Add), left, right) == None
  {
    LookupMatchesReference(Add, left, right);
    AddReference(left, right);
  }

  /** Subtract: Date minus YearMonthInterval is Date. */
  lemma SubtractDateInterval()
    ensures Lookup(Pack(Subtract), kDate, kYearMonthInterval) == Some(kDate)
  {
    LookupMatchesReference(Subtract, kDate, kYearMonthInterval);
    SubtractReference(kDate, kYearMonthInterval);
  }

  /** Subtract: Datetime minus either interval kind is Datetime. */
  lemma SubtractDatetimeInterval(right: TypeID)
    requires IsInterval(right)
    ensures Lookup(Pack(Subtract), kDatetime, right) == Some(kDatetime)
  {
    LookupMatchesReference(Subtract, kDatetime, right);
    SubtractReference(kDatetime, right);
  }

  /** Subtract: Datetime minus Datetime is a DatetimeInterval. */
  lemma SubtractDatetimes()
    ensures Lookup(Pack(Subtract), kDatetime, kDatetime) == Some(kDatetimeInterval)
  {
    LookupMatchesReference(Subtract, kDatetime, kDatetime);
    SubtractReference(kDatetime, kDatetime);
  }

  /** Subtract: an interval minus the same interval kind stays that kind. */
  lemma SubtractSameInterval(t: TypeID)
    requires IsInterval(t)
    ensures Lookup(Pack(Subtract), t, t) == Some(t)
  {
    LookupMatchesReference(Subtract, t, t);
    SubtractReference(t, t);
  }

  /** Subtract is not symmetric: nothing subtracts a Date or Datetime from
      an interval. */
  lemma SubtractNoIntervalMinusDate(left: TypeID, right: TypeID)
    requires IsInterval(left) && (right == kDate || right == kDatetime)
    ensures Lookup(Pack(Subtract), left, right) == None
  {
    LookupMatchesReference(Subtract, left, right);
    SubtractReference(left, right);
  }

  /** Date minus Date is left unimplemented. */
  lemma SubtractNoDateMinusDate()
    ensures Lookup(Pack(Subtract), kDate, kDate) == None
  {
    LookupMatchesReference(Subtract, kDate, kDate);
    SubtractReference(kDate, kDate);
  }

  /** Multiply scales an interval by a number and keeps the interval type
      (`PairSelectorLeft`). */
  lemma MultiplyIntervalByNumber(left: TypeID, right: TypeID)
    requires IsInterval(left) && IsNumeric(right)
    ensures Lookup(Pack(Multiply), left, right) == Some(left)
  {
    LookupMatchesReference(Multiply, left, right);
    ScalingReference(left, right);
  }

  /** Multiply scales an interval by a number on the left too and keeps the
      interval type (`PairSelectorRight`). */
  lemma MultiplyNumberByInterval(left: TypeID, right: TypeID)
    requires IsNumeric(left) && IsInterval(right)
    ensures Lookup(Pack(Multiply), left, right) == Some(right)
  {
    LookupMatchesReference(Multiply, left, right);
    ScalingReference(left, right);
  }

  /** Divide accepts an interval divided by a number, with the interval
      type. */
  lemma DivideIntervalByNumber(left: TypeID, right: TypeID)
    requires IsInterval(left) && IsNumeric(right)
    ensures Lookup(Pack(Divide), left, right) == Some(left)
  {
    LookupMatchesReference(Divide, left, right);
    ScalingReference(left, right);
  }

  /** Divide never divides a number by an interval. */
  lemma DivideNoNumberByInterval(left: TypeID, right: TypeID)
    requires IsNumeric(left) && IsInterval(right)
    ensures Lookup(Pack(Divide), left, right) == None
  {
    LookupMatchesReference(Divide, left, right);
    ScalingReference(left, right);
  }

  /** Modulo has only the numeric cross product. */
  lemma ModuloOnlyNumeric(left: TypeID, right: TypeID)
    ensures Lookup(Pack(Modulo), left, right).Some? <==> IsNumeric(left) && IsNumeric(right)
  {
    LookupMatchesReference(Modulo, left, right);
    ScalingReference(left, right);
  }
}
