/** The `Substring` unary operation on character strings, as far as it is
    decided when a query is planned: its signatures, the validation of its
    static arguments (a 1-based start position and an optional length), the
    conversion of those arguments to unsigned `size_t` values, and the
    result type `Char(n)` whose width `n` bounds every result. */
module SubstringOperation {
  import opened Wrappers
  import opened TypeIds

  /** `std::size_t` is 64 bits wide: its values are `[0, SizeLimit)` and
      every conversion or subtraction wraps modulo `SizeLimit`. */
  const SizeLimit: int := 0x1_0000_0000_0000_0000

  /** `std::numeric_limits<std::size_t>::max()`. */
  const SizeMax: int := SizeLimit - 1

  predicate IsSize(x: int) {
    0 <= x < SizeLimit
  }

  /** `static_cast<std::size_t>(x)` for a two's-complement integer, and the
      result of unsigned arithmetic: the value modulo `SizeLimit`. */
  function ToSize(x: int): (r: nat)
    ensures IsSize(r)
    ensures IsSize(x) ==> r == x
    ensures -SizeLimit <= x < 0 ==> r == x + SizeLimit
  {
    x % SizeLimit
  }

  predicate IsInt64(x: int) {
    -0x8000_0000_0000_0000 <= x < 0x8000_0000_0000_0000
  }

  /** `std::min` on sizes. */
  function Min(a: nat, b: nat): nat {
    if a <= b then a else b
  }

  /** A character type as the operation sees it: `Char` or `VarChar`, the
      declared width `getStringLength()` (which the two classes provide
      outside this model) and nullability. */
  datatype CharacterType = CharacterType(typeId: TypeID, stringLength: nat, nullable: bool)

  predicate IsStringType(t: CharacterType) {
    (t.typeId == kChar || t.typeId == kVarChar) && IsSize(t.stringLength)
  }

  /** A static argument: a literal `TypedValue` with its type tag. */
  datatype StaticArgument = StaticArgument(typeId: TypeID, literal: int)

  /** What the `DCHECK`s of `canApplyTo` and `ExtractStaticArguments` ask of
      the static arguments: one or two `Long` literals. */
  predicate WellFormedArguments(args: seq<StaticArgument>) {
    1 <= |args| <= 2 && forall a <- args :: a.typeId == kLong && IsInt64(a.literal)
  }

  /** `OperationSignature`: a name, the argument types and the static
      argument types. */
  datatype OperationSignature = OperationSignature(name: string, argumentTypes: seq<TypeID>, staticArgumentTypes: seq<TypeID>)

  /** `getSignatures`: one `Char` or `VarChar` argument with up to two
      `Long` static arguments. */
  function GetSignatures(): (sigs: seq<OperationSignature>)
    ensures |sigs| == 2
    ensures forall sig <- sigs ::
      sig.name == "Substring" && sig.staticArgumentTypes == [kLong, kLong] && |sig.argumentTypes| == 1
  {
    [ OperationSignature("Substring", [kChar], [kLong, kLong]),
      OperationSignature("Substring", [kVarChar], [kLong, kLong]) ]
  }

  /** The signatures accept exactly the two character types. */
  lemma SignaturesCoverStringTypes(t: TypeID)
    ensures (exists sig <- GetSignatures() :: sig.argumentTypes == [t]) <==> t == kChar || t == kVarChar
  {
    var sigs := GetSignatures();
    if t == kChar {
      assert sigs[0].argumentTypes == [t];
    } else if t == kVarChar {
      assert sigs[1].argumentTypes == [t];
    }
  }

  const StartPositionMessage: string := "The start position must be greater than 0"
  const SubstringLengthMessage: string := "The substring length must be greater than 0"

  /** The static arguments `canApplyTo` accepts: a positive start and, when
      a length is given, a positive length. */
  predicate ValidArguments(args: seq<StaticArgument>)
    requires 1 <= |args|
  {
    args[0].literal > 0 && (|args| == 1 || args[1].literal > 0)
  }

  /** `canApplyTo`: the start position is checked first, the length (when
      present) second; `Fail` carries the message written to `*message`. */
  function CanApplyTo(t: CharacterType, args: seq<StaticArgument>): (r: Outcome<string>)
    requires IsStringType(t) && WellFormedArguments(args)
    ensures r.Pass? <==> ValidArguments(args)
    ensures r == Fail(StartPositionMessage) <==> args[0].literal <= 0
    ensures r == Fail(SubstringLengthMessage) <==> args[0].literal > 0 && |args| == 2 && args[1].literal <= 0
  {
    if args[0].literal <= 0 then Fail(StartPositionMessage)
    else if |args| == 2 && args[1].literal <= 0 then Fail(SubstringLengthMessage)
    else Pass
  }

  /** The two diagnostics are different, and a bad start hides a bad length. */
  lemma StartCheckedFirst(t: CharacterType, args: seq<StaticArgument>)
    requires IsStringType(t) && WellFormedArguments(args)
    ensures StartPositionMessage != SubstringLengthMessage
    ensures args[0].literal <= 0 && |args| == 2 && args[1].literal <= 0 ==>
      CanApplyTo(t, args) == Fail(StartPositionMessage)
  {
    assert StartPositionMessage[5] != SubstringLengthMessage[5];
  }

  /** The two `size_t` values `ExtractStaticArguments` writes out. */
  datatype Extracted = Extracted(startPosition: nat, substringLength: nat)

  /** `ExtractStaticArguments`: the 1-based start becomes the 0-based
      `start - 1`, and the length defaults to the largest `size_t`; both go
      through `static_cast<std::size_t>`. */
  function ExtractStaticArguments(args: seq<StaticArgument>): (e: Extracted)
    requires WellFormedArguments(args)
    ensures IsSize(e.startPosition) && IsSize(e.substringLength)
    ensures (e.startPosition + 1) % SizeLimit == args[0].literal % SizeLimit
    ensures |args| == 1 ==> e.substringLength == SizeMax
    ensures |args| == 2 ==> e.substringLength % SizeLimit == args[1].literal % SizeLimit
  {
    Extracted(
      ToSize(args[0].literal - 1),
      if |args| < 2 then SizeMax else ToSize(args[1].literal))
  }

  /** On arguments `canApplyTo` accepts nothing wraps: the start position is
      `start - 1`, and the length is the given one or `SizeMax`. */
  lemma AcceptedArgumentsExtractExactly(t: CharacterType, args: seq<StaticArgument>)
    requires IsStringType(t) && WellFormedArguments(args) && CanApplyTo(t, args).Pass?
    ensures ExtractStaticArguments(args).startPosition == args[0].literal - 1
    ensures ExtractStaticArguments(args).substringLength == if |args| == 2 then args[1].literal else SizeMax
    ensures ExtractStaticArguments(args).substringLength >= 1
  {
    assert args[0] in args;
    assert |args| == 2 ==> args[1] in args;
  }

  /** A start position of 0 or below, which `canApplyTo` rejects, would
      wrap to a start position at the far end of `size_t`. */
  lemma RejectedStartWraps(args: seq<StaticArgument>)
    requires WellFormedArguments(args) && args[0].literal <= 0
    ensures ExtractStaticArguments(args).startPosition == args[0].literal - 1 + SizeLimit
    ensures ExtractStaticArguments(args).startPosition >= SizeLimit / 2 - 1
  {
    assert args[0] in args;
  }

  /** `ComputeMaximumSubstringLength`: `min(inputMax - start, length)` with
      the subtraction done in `size_t`, so a start past the declared width
      wraps instead of clamping to zero. */
  function ComputeMaximumSubstringLength(t: CharacterType, startPosition: nat, substringLength: nat): (n: nat)
    requires IsStringType(t) && IsSize(startPosition) && IsSize(substringLength)
    ensures IsSize(n) && n <= substringLength
    ensures startPosition <= t.stringLength ==>
      n <= t.stringLength - startPosition &&
      (n == t.stringLength - startPosition || n == substringLength)
    ensures startPosition > t.stringLength ==>
      n <= SizeLimit - (startPosition - t.stringLength) &&
      (n == substringLength || n == SizeLimit - (startPosition - t.stringLength))
  {
    var inputMaximumLength := t.stringLength;
    var difference := ToSize(inputMaximumLength - startPosition);
    if difference <= substringLength then difference else substringLength
  }

  /** Past the declared width the unsigned subtraction wraps: without a
      length argument the bound is at least `SizeLimit / 2`, far above the
      declared width, where a clamped subtraction would have given 0. */
  lemma MaximumLengthWrapsPastWidth(t: CharacterType, startPosition: nat)
    requires IsStringType(t) && IsSize(startPosition)
    requires t.stringLength < startPosition < SizeLimit / 2
    ensures ComputeMaximumSubstringLength(t, startPosition, SizeMax) == SizeLimit - (startPosition - t.stringLength)
    ensures ComputeMaximumSubstringLength(t, startPosition, SizeMax) > t.stringLength
  {
  }

  /** A start exactly at the declared width gives a maximum of zero. */
  lemma MaximumLengthZeroAtWidth(t: CharacterType, substringLength: nat)
    requires IsStringType(t) && IsSize(substringLength)
    ensures ComputeMaximumSubstringLength(t, t.stringLength, substringLength) == 0
  {
  }

  /** `getResultType`: `Char` of the computed maximum width, nullable when
      the input is. In terms of the static arguments, the width is the
      smaller of what is left after the 0-based start and the requested
      length; past the declared width it is the requested length, or,
      without one, the wrapped difference. */
  function GetResultType(t: CharacterType, args: seq<StaticArgument>): (r: CharacterType)
    requires IsStringType(t) && WellFormedArguments(args) && CanApplyTo(t, args).Pass?
    ensures r.typeId == kChar && r.nullable == t.nullable
    ensures r.stringLength <= ExtractStaticArguments(args).substringLength
    ensures var start0 := args[0].literal - 1;
      var requested := if |args| == 2 then args[1].literal else SizeMax;
      r.stringLength ==
        if start0 <= t.stringLength then Min(t.stringLength - start0, requested)
        else if |args| == 2 then requested
        else SizeLimit - (start0 - t.stringLength)
  {
    AcceptedArgumentsExtractExactly(t, args);
    assert args[0] in args;
    assert |args| == 2 ==> args[1] in args;
    var e := ExtractStaticArguments(args);
    CharacterType(kChar, ComputeMaximumSubstringLength(t, e.startPosition, e.substringLength), t.nullable)
  }

  /** The result width in terms of the static arguments themselves: with
      the start inside the declared width it is the smaller of what is left
      after the start and the requested length; a start one past the end
      gives width 0; beyond that it is the requested length, or, without
      one, a wrapped width larger than the input could ever hold. */
  lemma ResultWidth(t: CharacterType, args: seq<StaticArgument>)
    requires IsStringType(t) && WellFormedArguments(args) && CanApplyTo(t, args).Pass?
    ensures var w := GetResultType(t, args).stringLength;
      var start0 := args[0].literal - 1;
      var requested := if |args| == 2 then args[1].literal else SizeMax;
      (start0 <= t.stringLength ==>
        w <= requested && w <= t.stringLength - start0 && (w == requested || w == t.stringLength - start0)) &&
      (start0 == t.stringLength ==> w == 0) &&
      (start0 > t.stringLength ==>
        w == (if |args| == 2 then requested else SizeLimit - (start0 - t.stringLength))) &&
      (start0 > t.stringLength && |args| == 1 ==> w > t.stringLength)
  {
    AcceptedArgumentsExtractExactly(t, args);
    var e := ExtractStaticArguments(args);
    if e.startPosition > t.stringLength && |args| == 1 {
      assert args[0] in args;
      MaximumLengthWrapsPastWidth(t, e.startPosition);
    }
  }
}
