/** The signature table of the `<cmath>` unary operations: which argument
    types each of abs, sqrt, exp, log, ceil, floor and round accepts and
    which result type it produces. The numeric work is not modelled. */
module CMathOperations {
  import opened Wrappers
  import opened TypeIds

  /** The seven `<cmath>` functions the pack wraps. */
  datatype CMathFunction = Abs | Sqrt | Exp | Log | Ceil | Floor | Round

  /** The `StringLiteral` name each functor carries. */
  function FunctionName(f: CMathFunction): string {
    match f
    case Abs => "abs"
    case Sqrt => "sqrt"
    case Exp => "exp"
    case Log => "log"
    case Ceil => "ceil"
    case Floor => "floor"
    case Round => "round"
  }

  /** No two functions share a name. */
  lemma FunctionNamesDistinct(f1: CMathFunction, f2: CMathFunction)
    ensures FunctionName(f1) == FunctionName(f2) ==> f1 == f2
  {
  }

  /** One functor of the pack: `CMathUnaryFunctor<ArgumentT, ResultT, f, Name>`. */
  datatype UnarySignature = UnarySignature(name: CMathFunction, argument: TypeID, result: TypeID)

  /** `CMathUnaryFunctorPack`, in declaration order. */
  const CMathUnaryFunctorPack: seq<UnarySignature> := [
    UnarySignature(Abs, kInt, kInt),
    UnarySignature(Abs, kLong, kLong),
    UnarySignature(Abs, kFloat, kFloat),
    UnarySignature(Abs, kDouble, kDouble),
    UnarySignature(Sqrt, kFloat, kFloat),
    UnarySignature(Sqrt, kDouble, kDouble),
    UnarySignature(Exp, kFloat, kFloat),
    UnarySignature(Exp, kDouble, kDouble),
    UnarySignature(Log, kFloat, kFloat),
    UnarySignature(Log, kDouble, kDouble),
    UnarySignature(Ceil, kFloat, kFloat),
    UnarySignature(Ceil, kDouble, kDouble),
    UnarySignature(Floor, kFloat, kFloat),
    UnarySignature(Floor, kDouble, kDouble),
    UnarySignature(Round, kFloat, kLong),
    UnarySignature(Round, kDouble, kLong)
  ]

  predicate IsFloating(t: TypeID) {
    t == kFloat || t == kDouble
  }

  /** The functor a (function, argument type) pair selects from a pack: the
      result type of the first entry with that key, if any. */
  function Lookup(pack: seq<UnarySignature>, f: CMathFunction, argument: TypeID): (r: Option<TypeID>)
    ensures r.Some? ==> UnarySignature(f, argument, r.value) in pack
    ensures r.None? ==> forall u :: u in pack ==> !(u.name == f && u.argument == argument)
    decreases |pack|
  {
    if |pack| == 0 then None
    else if pack[0].name == f && pack[0].argument == argument then Some(pack[0].result)
    else Lookup(pack[1..], f, argument)
  }

  /** Reference description of the table, independent of its listing: abs
      keeps any numeric type; round takes a floating type to Long; the other
      five keep a floating type. */
  function Expected(f: CMathFunction, argument: TypeID): Option<TypeID> {
    match f
    case Abs => if IsNumeric(argument) then Some(argument) else None
    case Round => if IsFloating(argument) then Some(kLong) else None
    case _ => if IsFloating(argument) then Some(argument) else None
  }

  /** Every entry of the pack agrees with the reference, and every pair the
      reference accepts has its entry. */
  lemma PackMatchesReference(u: UnarySignature)
    ensures u in CMathUnaryFunctorPack <==> Expected(u.name, u.argument) == Some(u.result)
  {
  }

  /** Each (function, argument type) key appears exactly once in the pack. */
  lemma KeysUnique(i: int, j: int)
    requires 0 <= i < j < |CMathUnaryFunctorPack|
    ensures CMathUnaryFunctorPack[i].name != CMathUnaryFunctorPack[j].name ||
            CMathUnaryFunctorPack[i].argument != CMathUnaryFunctorPack[j].argument
  {
  }

  /** Lookup in any pack follows the pack's contents: when the entries
      with a given key are exactly those whose result is `e`'s value, the
      lookup returns `e`. */
  lemma LookupFollowsEntries(pack: seq<UnarySignature>, f: CMathFunction, argument: TypeID, e: Option<TypeID>)
    requires forall v :: UnarySignature(f, argument, v) in pack <==> e == Some(v)
    ensures Lookup(pack, f, argument) == e
  {
    var r := Lookup(pack, f, argument);
    if e.Some? {
      assert UnarySignature(f, argument, e.value) in pack;
    }
  }

  /** Looking a pair up gives the reference's answer: defined exactly on the
      stated domain, with the stated result type. */
  lemma LookupMatchesReference(f: CMathFunction, argument: TypeID)
    ensures Lookup(CMathUnaryFunctorPack, f, argument) == Expected(f, argument)
  {
    forall v ensures UnarySignature(f, argument, v) in CMathUnaryFunctorPack <==> Expected(f, argument) == Some(v) {
      PackMatchesReference(UnarySignature(f, argument, v));
    }
    LookupFollowsEntries(CMathUnaryFunctorPack, f, argument, Expected(f, argument));
  }

  /** The reference's answers for the functions other than abs. */
  lemma FloatingReference(f: CMathFunction, argument: TypeID)
    requires f != Abs
    ensures Expected(f, argument).Some? <==> IsFloating(argument)
    ensures IsFloating(argument) ==> Expected(f, argument) == Some(if f == Round then kLong else argument)
    ensures argument == kInt || argument == kLong ==> Expected(f, argument) == None
  {
  }

  /** abs accepts Int, Long, Float and Double and returns the same type. */
  lemma AbsKeepsNumericType(argument: TypeID)
    ensures Lookup(CMathUnaryFunctorPack, Abs, argument) == if IsNumeric(argument) then Some(argument) else None
  {
    LookupMatchesReference(Abs, argument);
  }

  /** sqrt, exp, log, ceil and floor accept exactly Float and Double and
      return the same type; round accepts the same two and returns Long. */
  lemma FloatingFunctions(f: CMathFunction, argument: TypeID)
    requires f != Abs
    ensures Lookup(CMathUnaryFunctorPack, f, argument).Some? <==> IsFloating(argument)
    ensures IsFloating(argument) ==>
      Lookup(CMathUnaryFunctorPack, f, argument) == Some(if f == Round then kLong else argument)
  {
    LookupMatchesReference(f, argument);
    FloatingReference(f, argument);
  }

  /** No function but abs has an Int or Long entry. */
  lemma NoIntegralEntries(f: CMathFunction, argument: TypeID)
    requires f != Abs && (argument == kInt || argument == kLong)
    ensures Lookup(CMathUnaryFunctorPack, f, argument) == None
  {
    LookupMatchesReference(f, argument);
    FloatingReference(f, argument);
  }
}
