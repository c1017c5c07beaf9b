/** The numeric safe-coercion lattice: five declared direct edges and their
    semi-naive transitive closure (`NumericTypeSafeCoersions`,
    `NumericTypeSafeCoersionClosure`, `NumericTypeSafeCoercibility`), and
    the least common safe target that unifies two numeric operand types. */
module SafeCoercion {
  import opened Wrappers
  import opened TypeIds
  import opened TypeLists
  import opened TransitiveClosure

  /** `NumericTypeSafeCoersions`: only the direct, minimal promotions. */
  const NumericTypeSafeCoersions: seq<Edge<TypeClass>> := [
    Edge(BoolType, IntType),
    Edge(IntType, FloatType),
    Edge(IntType, LongType),
    Edge(FloatType, DoubleType),
    Edge(LongType, DoubleType)
  ]

  /** `NumericTypeSafeCoersionClosure`. */
  function NumericTypeSafeCoersionClosure(): seq<Edge<TypeClass>> {
    TransitiveClosure.TransitiveClosure(NumericTypeSafeCoersions)
  }

  /** The closure evaluated: the five reflexive pairs followed by the nine
      widening pairs. `ClosureEvaluation` shows it has exactly the members
      of `NumericTypeSafeCoersionClosure()`. */
  const EvaluatedClosure: seq<Edge<TypeClass>> := [
    Edge(BoolType, BoolType), Edge(IntType, IntType), Edge(LongType, LongType),
    Edge(FloatType, FloatType), Edge(DoubleType, DoubleType),
    Edge(BoolType, IntType), Edge(BoolType, LongType), Edge(BoolType, FloatType),
    Edge(BoolType, DoubleType), Edge(IntType, LongType), Edge(IntType, FloatType),
    Edge(IntType, DoubleType), Edge(LongType, DoubleType), Edge(FloatType, DoubleType)
  ]

  /** `NumericTypeSafeCoercibility<Left, Right>::value`: the closure contains
      the pair `TypeList<Left, Right>` (`EqualsAny` is list membership by
      its contract). Membership is looked up in the evaluated closure;
      `SafeCoercibilityIsClosureMembership` shows that is the same as
      membership in the closure computed from the five declared edges. */
  predicate NumericTypeSafeCoercibility(left: TypeClass, right: TypeClass) {
    Edge(left, right) in EvaluatedClosure
  }

  /** The five classes of the coercion graph, `BoolType` included. */
  predicate IsNumericClass(c: TypeClass) {
    c.BoolType? || c.IntType? || c.LongType? || c.FloatType? || c.DoubleType?
  }

  /** The same classes as a list, for the unifier's search. */
  const NumericClasses: seq<TypeClass> := [BoolType, IntType, LongType, FloatType, DoubleType]

  lemma NodesOfCoersions()
    ensures Nodes(NumericTypeSafeCoersions) == set c | IsNumericClass(c)
  {
    var e := NumericTypeSafeCoersions;
    assert e[0].src == BoolType && e[0].dst == IntType && e[2].dst == LongType;
    assert e[1].dst == FloatType && e[3].dst == DoubleType;
  }

  /** Every path from a numeric class along the declared edges ends at a
      pair of the evaluated closure. */
  lemma {:induction false} ReachImpliesEvaluated(a: TypeClass, b: TypeClass, n: nat)
    requires IsNumericClass(a)
    requires ReachIn(NumericTypeSafeCoersions, a, b, n)
    ensures Edge(a, b) in EvaluatedClosure
    decreases n
  {
    if n > 0 {
      var e := NumericTypeSafeCoersions;
      var j :| 0 <= j < |e| && e[j].dst == b && ReachIn(e, a, e[j].src, n - 1);
      ReachImpliesEvaluated(a, e[j].src, n - 1);
      EvaluatedClosed(a, j);
    }
  }

  /** The evaluated table is closed under one more declared edge. */
  lemma EvaluatedClosed(a: TypeClass, j: int)
    requires 0 <= j < |NumericTypeSafeCoersions|
    requires Edge(a, NumericTypeSafeCoersions[j].src) in EvaluatedClosure
    ensures Edge(a, NumericTypeSafeCoersions[j].dst) in EvaluatedClosure
  {
    assert j == 0 || j == 1 || j == 2 || j == 3 || j == 4;
  }

  /** Every pair of the evaluated closure is a path along the declared edges. */
  lemma EvaluatedImpliesReach(a: TypeClass, b: TypeClass)
    requires Edge(a, b) in EvaluatedClosure
    ensures IsNumericClass(a) && Reachable(NumericTypeSafeCoersions, a, b)
  {
    var e := NumericTypeSafeCoersions;
    if a == b {
      assert ReachIn(e, a, b, 0);
    } else if a == BoolType {
      ReachFromBool(b);
    } else if a == IntType {
      ReachFromInt(b);
    } else if a == LongType {
      ReachStep(e, a, 4, 0);
    } else {
      assert a == FloatType && b == DoubleType;
      ReachStep(e, a, 3, 0);
    }
  }

  /** The widening pairs out of `BoolType` are paths. */
  lemma ReachFromBool(b: TypeClass)
    requires b == IntType || b == LongType || b == FloatType || b == DoubleType
    ensures Reachable(NumericTypeSafeCoersions, BoolType, b)
  {
    var e := NumericTypeSafeCoersions;
    ReachStep(e, BoolType, 0, 0);
    if b == FloatType {
      ReachStep(e, BoolType, 1, 1);
    } else if b != IntType {
      ReachStep(e, BoolType, 2, 1);
      if b == DoubleType {
        ReachStep(e, BoolType, 4, 2);
      }
    }
  }

  /** The widening pairs out of `IntType` are paths. */
  lemma ReachFromInt(b: TypeClass)
    requires b == LongType || b == FloatType || b == DoubleType
    ensures Reachable(NumericTypeSafeCoersions, IntType, b)
  {
    var e := NumericTypeSafeCoersions;
    if b == FloatType {
      ReachStep(e, IntType, 1, 0);
    } else {
      ReachStep(e, IntType, 2, 0);
      if b == DoubleType {
        ReachStep(e, IntType, 4, 1);
      }
    }
  }

  /** The semi-naive closure of the five declared edges has exactly the
      fourteen pairs of the evaluated table, each once. */
  lemma ClosureEvaluation()
    ensures NoDuplicates(NumericTypeSafeCoersionClosure())
    ensures forall e :: e in NumericTypeSafeCoersionClosure() <==> e in EvaluatedClosure
  {
    var e := NumericTypeSafeCoersions;
    assert NumericTypeSafeCoersionClosure() == TransitiveClosure.TransitiveClosure(e);
    NodesOfCoersions();
    forall p ensures p in NumericTypeSafeCoersionClosure() <==> p in EvaluatedClosure {
      if p in EvaluatedClosure {
        EvaluatedImpliesReach(p.src, p.dst);
      }
      if Edge(p.src, p.dst) in NumericTypeSafeCoersionClosure() {
        var n: nat :| ReachIn(e, p.src, p.dst, n);
        ReachImpliesEvaluated(p.src, p.dst, n);
      }
    }
  }

  /** Safe coercibility, looked up in the evaluated table, is membership in
      `NumericTypeSafeCoersionClosure` itself. */
  lemma SafeCoercibilityIsClosureMembership(left: TypeClass, right: TypeClass)
    ensures NumericTypeSafeCoercibility(left, right) <==> Edge(left, right) in NumericTypeSafeCoersionClosure()
  {
    ClosureEvaluation();
  }

  /** Every numeric class, `Bool` included, is safely coercible to itself,
      and no other class is. */
  lemma SafeCoercibilityReflexive(c: TypeClass)
    ensures NumericTypeSafeCoercibility(c, c) <==> IsNumericClass(c)
  {
  }

  /** Pairs derived by the closure although not declared as edges. */
  lemma DerivedPairs()
    ensures NumericTypeSafeCoercibility(IntType, DoubleType)
    ensures NumericTypeSafeCoercibility(BoolType, LongType)
    ensures NumericTypeSafeCoercibility(BoolType, FloatType)
    ensures NumericTypeSafeCoercibility(BoolType, DoubleType)
    ensures Edge(IntType, DoubleType) !in NumericTypeSafeCoersions
    ensures Edge(BoolType, DoubleType) !in NumericTypeSafeCoersions
  {
  }

  /** No narrowing or sideways pair is derived. */
  lemma NoNarrowingPairs()
    ensures !NumericTypeSafeCoercibility(DoubleType, FloatType)
    ensures !NumericTypeSafeCoercibility(LongType, IntType)
    ensures !NumericTypeSafeCoercibility(LongType, FloatType)
    ensures !NumericTypeSafeCoercibility(FloatType, LongType)
    ensures !NumericTypeSafeCoercibility(IntType, BoolType)
  {
  }

  /** The shape of the relation: reflexive on the numeric classes, `Bool`
      below every numeric class, `Int` below `Long`, `Float` and `Double`,
      and `Long` and `Float` below `Double` only. */
  lemma SafeCoercibilityCases(a: TypeClass, b: TypeClass)
    ensures NumericTypeSafeCoercibility(a, b) <==>
      (a == b && IsNumericClass(a)) ||
      (a == BoolType && IsNumericClass(b)) ||
      (a == IntType && (b == LongType || b == FloatType || b == DoubleType)) ||
      ((a == LongType || a == FloatType) && b == DoubleType)
  {
  }

  /** Safe coercibility is transitive, as a closure must be. */
  lemma SafeCoercibilityTransitive(a: TypeClass, b: TypeClass, c: TypeClass)
    requires NumericTypeSafeCoercibility(a, b) && NumericTypeSafeCoercibility(b, c)
    ensures NumericTypeSafeCoercibility(a, c)
  {
    SafeCoercibilityCases(a, b);
    SafeCoercibilityCases(b, c);
    SafeCoercibilityCases(a, c);
  }

  /** Safe coercibility is antisymmetric: no two distinct classes are safely
      coercible to each other. */
  lemma SafeCoercibilityAntisymmetric(a: TypeClass, b: TypeClass)
    requires NumericTypeSafeCoercibility(a, b) && NumericTypeSafeCoercibility(b, a)
    ensures a == b
  {
    SafeCoercibilityCases(a, b);
    SafeCoercibilityCases(b, a);
  }

  // ---------------------------------------------------------------------------
  // Least common safe target (`NumericTypeUnifier`).

  predicate IsCommonTarget(x: TypeClass, y: TypeClass, t: TypeClass) {
    NumericTypeSafeCoercibility(x, t) && NumericTypeSafeCoercibility(y, t)
  }

  /** `t` is a common target below every other common target. */
  predicate IsLeastCommonTarget(x: TypeClass, y: TypeClass, t: TypeClass) {
    IsCommonTarget(x, y, t) &&
    forall c <- NumericClasses :: IsCommonTarget(x, y, c) ==> NumericTypeSafeCoercibility(t, c)
  }

  /** The first candidate that is a least common target. */
  function LeastCommonTargetIn(x: TypeClass, y: TypeClass, candidates: seq<TypeClass>): (r: Option<TypeClass>)
    ensures r.Some? ==> r.value in candidates && IsLeastCommonTarget(x, y, r.value)
    ensures r.None? ==> forall c :: c in candidates ==> !IsLeastCommonTarget(x, y, c)
    decreases |candidates|
  {
    if |candidates| == 0 then None
    else if IsLeastCommonTarget(x, y, candidates[0]) then Some(candidates[0])
    else LeastCommonTargetIn(x, y, candidates[1..])
  }

  /** The join of two numeric classes: the wider one when they are
      comparable, `Double` otherwise. */
  function WideningJoin(x: TypeClass, y: TypeClass): TypeClass {
    if NumericTypeSafeCoercibility(x, y) then y
    else if NumericTypeSafeCoercibility(y, x) then x
    else DoubleType
  }

  lemma WideningJoinIsLeast(x: TypeClass, y: TypeClass)
    requires IsNumericClass(x) && IsNumericClass(y)
    ensures IsLeastCommonTarget(x, y, WideningJoin(x, y))
  {
    var t := WideningJoin(x, y);
    forall c <- NumericClasses ensures IsCommonTarget(x, y, c) ==> NumericTypeSafeCoercibility(t, c) {
      if IsCommonTarget(x, y, c) {
        SafeCoercibilityCases(x, y);
        SafeCoercibilityCases(y, x);
        SafeCoercibilityCases(x, c);
        SafeCoercibilityCases(y, c);
      }
    }
  }

  /** A pair of classes has at most one least common safe target. */
  lemma LeastCommonTargetUnique(x: TypeClass, y: TypeClass, t: TypeClass, t': TypeClass)
    requires IsLeastCommonTarget(x, y, t) && IsLeastCommonTarget(x, y, t')
    ensures t == t'
  {
    SafeCoercibilityCases(x, t);
    SafeCoercibilityCases(x, t');
    assert t in NumericClasses && t' in NumericClasses;
    SafeCoercibilityAntisymmetric(t, t');
  }

  /** Every pair of numeric classes has exactly one least common safe
      target, their join, and the search finds it. */
  lemma LeastCommonTargetExists(x: TypeClass, y: TypeClass)
    requires IsNumericClass(x) && IsNumericClass(y)
    ensures LeastCommonTargetIn(x, y, NumericClasses) == Some(WideningJoin(x, y))
    ensures forall t :: IsLeastCommonTarget(x, y, t) ==> t == WideningJoin(x, y)
  {
    var j := WideningJoin(x, y);
    WideningJoinIsLeast(x, y);
    forall t | IsLeastCommonTarget(x, y, t) ensures t == j {
      LeastCommonTargetUnique(x, y, t, j);
    }
    assert j in NumericClasses;
  }

  /** `NumericTypeUnifier<Left, Right>::type` for two numeric tags, in the
      closed form of numeric promotion: the operand type with the higher
      ordinal (Int with Long is Long, Int with Float is Float, Float with
      Double is Double), except that Long with Float, neither of which
      holds the other, is Double. `NumericTypeUnifierIsLeast` shows this is
      the least common safe target. */
  function NumericTypeUnifier(left: TypeID, right: TypeID): (t: TypeID)
    requires IsNumeric(left) && IsNumeric(right)
    ensures IsNumeric(t)
    ensures t == left || t == right || t == kDouble
    ensures Ordinal(left) <= Ordinal(t) && Ordinal(right) <= Ordinal(t)
  {
    if (left == kLong && right == kFloat) || (left == kFloat && right == kLong) then kDouble
    else if Ordinal(left) >= Ordinal(right) then left
    else right
  }

  /** The unified type is the join of the two operand classes in the
      safe-coercion lattice: their least common safe target, which always
      exists and is the one the search over the numeric classes finds. */
  lemma NumericTypeUnifierIsLeast(left: TypeID, right: TypeID)
    requires IsNumeric(left) && IsNumeric(right)
    ensures RegisteredClass(NumericTypeUnifier(left, right)) == WideningJoin(RegisteredClass(left), RegisteredClass(right))
    ensures IsLeastCommonTarget(RegisteredClass(left), RegisteredClass(right), RegisteredClass(NumericTypeUnifier(left, right)))
    ensures LeastCommonTargetIn(RegisteredClass(left), RegisteredClass(right), NumericClasses)
      == Some(RegisteredClass(NumericTypeUnifier(left, right)))
  {
    var x, y := RegisteredClass(left), RegisteredClass(right);
    SafeCoercibilityCases(x, y);
    SafeCoercibilityCases(y, x);
    LeastCommonTargetExists(x, y);
  }

  /** Unification does not depend on operand order, and a type unifies
      with itself to itself. */
  lemma NumericTypeUnifierSymmetric(left: TypeID, right: TypeID)
    requires IsNumeric(left) && IsNumeric(right)
    ensures NumericTypeUnifier(left, right) == NumericTypeUnifier(right, left)
    ensures NumericTypeUnifier(left, left) == left
  {
  }
}
