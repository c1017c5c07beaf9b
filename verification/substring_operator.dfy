/** The per-row side of `Substring`: the unchecked operator built from a
    planned operation, the byte-copy kernel `computeSubstring`, and the three
    surfaces that apply it (one value, a column, a value accessor). A string
    value is the sequence of bytes its pointer can reach; what the kernel
    writes is the sequence of bytes it stores from `output[0]` on. */
module SubstringOperator {
  import opened Wrappers
  import opened TypeIds
  import opened SubstringOperation

  /** `SubstringUncheckedOperator<null_terminated, input_nullable>` with its
      four constructor arguments. */
  datatype UncheckedOperator = UncheckedOperator(
    nullTerminated: bool,
    inputNullable: bool,
    startPosition: nat,
    substringLength: nat,
    maximumInputLength: nat,
    resultType: CharacterType)

  /** `makeUncheckedUnaryOperator`: the template flags come from the input
      type (VarChar values are NUL-terminated), the lengths from the static
      arguments and the declared width. */
  function MakeUncheckedOperator(t: CharacterType, args: seq<StaticArgument>): (op: UncheckedOperator)
    requires IsStringType(t) && WellFormedArguments(args) && CanApplyTo(t, args).Pass?
    ensures op.nullTerminated <==> t.typeId == kVarChar
    ensures op.inputNullable == t.nullable
    ensures op.maximumInputLength == t.stringLength
    ensures op.startPosition == args[0].literal - 1
    ensures op.resultType == GetResultType(t, args)
    ensures op.substringLength == op.resultType.stringLength
  {
    AcceptedArgumentsExtractExactly(t, args);
    var e := ExtractStaticArguments(args);
    UncheckedOperator(
      t.typeId == kVarChar,
      t.nullable,
      e.startPosition,
      ComputeMaximumSubstringLength(t, e.startPosition, e.substringLength),
      t.stringLength,
      GetResultType(t, args))
  }

  /** `strlen`: the index of the first NUL byte. */
  function Strlen(input: seq<char>): (n: nat)
    requires '\0' in input
    ensures n < |input| && input[n] == '\0'
    ensures '\0' !in input[..n]
  {
    if input[0] == '\0' then 0
    else
      var n := 1 + Strlen(input[1..]);
      assert input[..n] == [input[0]] + input[1..][..n - 1];
      n
  }

  /** `strnlen(input, limit)`: the index of the first NUL byte among the
      first `limit` bytes, or `limit` if there is none. It reads no byte at
      or after `limit`, nor past a NUL. */
  function Strnlen(input: seq<char>, limit: nat): (n: nat)
    requires limit <= |input| || '\0' in input
    ensures n <= limit && n <= |input|
    ensures '\0' !in input[..n]
    ensures n < limit ==> n < |input| && input[n] == '\0'
    decreases limit
  {
    if limit == 0 || input[0] == '\0' then 0
    else
      var n := 1 + Strnlen(input[1..], limit - 1);
      assert input[..n] == [input[0]] + input[1..][..n - 1];
      n
  }

  /** The bytes the length computation of `computeSubstring` may read. */
  predicate Readable(op: UncheckedOperator, input: seq<char>) {
    if op.nullTerminated then '\0' in input
    else op.maximumInputLength <= |input| || '\0' in input
  }

  /** The length `computeSubstring` works with: `strlen` for VarChar,
      `strnlen` capped at the declared width for Char. It ends at the first
      NUL, or, for Char only, at the declared width. */
  function ActualLength(op: UncheckedOperator, input: seq<char>): (n: nat)
    requires Readable(op, input)
    ensures n <= |input| && '\0' !in input[..n]
    ensures !op.nullTerminated ==> n <= op.maximumInputLength
    ensures (n < |input| && input[n] == '\0') || (!op.nullTerminated && n == op.maximumInputLength)
  {
    if op.nullTerminated then Strlen(input) else Strnlen(input, op.maximumInputLength)
  }

  /** What `computeSubstring` needs so that every byte it writes lies in the
      `substring_length_`-byte output buffer: when the start is at or past
      the end, the single NUL it writes needs a buffer of at least one byte. */
  predicate TerminatorFits(op: UncheckedOperator, input: seq<char>)
    requires Readable(op, input)
  {
    op.startPosition >= ActualLength(op, input) ==> op.substringLength > 0
  }

  /** `computeSubstring`: an empty string (one NUL) when the start is at or
      past the end; otherwise `min(len - start, substring_length_)` bytes
      copied from `input[start..]`, followed by a NUL only when that is
      shorter than the buffer. */
  function ComputeSubstring(op: UncheckedOperator, input: seq<char>): (output: seq<char>)
    requires Readable(op, input) && TerminatorFits(op, input)
    ensures |output| <= op.substringLength
    ensures op.startPosition >= ActualLength(op, input) ==> output == ['\0']
    ensures op.startPosition < ActualLength(op, input) ==>
      var m := Min(ActualLength(op, input) - op.startPosition, op.substringLength);
      m <= |output| && output[..m] == input[op.startPosition..op.startPosition + m] &&
      (|output| > m <==> m < op.substringLength) &&
      (|output| > m ==> |output| == m + 1 && output[m] == '\0')
  {
    var stringLength := ActualLength(op, input);
    if op.startPosition >= stringLength then
      ['\0']
    else
      var actualSubstringLength := Min(stringLength - op.startPosition, op.substringLength);
      var copied := input[op.startPosition..op.startPosition + actualSubstringLength];
      if actualSubstringLength < op.substringLength then copied + ['\0'] else copied
  }

  /** How a `Char(width)` value is read back: its bytes up to the first NUL,
      or all `width` of them. */
  function DecodeChar(buffer: seq<char>, width: nat): seq<char>
    requires width <= |buffer| || '\0' in buffer
  {
    buffer[..Strnlen(buffer, width)]
  }

  /** The substring the operation is meant to produce: at most `length`
      characters of `s` from 0-based position `start`, and nothing when
      `start` is at or past the end. */
  function Substring(s: seq<char>, start: nat, length: nat): (r: seq<char>)
    ensures |r| <= length
    ensures start >= |s| ==> r == []
    ensures start < |s| ==> |r| == Min(|s| - start, length) && forall k :: 0 <= k < |r| ==> r[k] == s[start + k]
  {
    if start >= |s| then [] else s[start..start + Min(|s| - start, length)]
  }

  /** Read back as a `Char(substring_length_)` value, the kernel's output is
      the substring of the actual string: the kernel and the reference agree
      on every input it accepts. */
  lemma {:induction false} ComputeSubstringIsSubstring(op: UncheckedOperator, input: seq<char>)
    requires Readable(op, input) && TerminatorFits(op, input)
    ensures var output := ComputeSubstring(op, input);
      (op.substringLength <= |output| || '\0' in output) &&
      DecodeChar(output, op.substringLength) ==
        Substring(input[..ActualLength(op, input)], op.startPosition, op.substringLength)
  {
    var output := ComputeSubstring(op, input);
    var len := ActualLength(op, input);
    var s := input[..len];
    if op.startPosition >= len {
      assert output == ['\0'];
      assert Strnlen(output, op.substringLength) == 0;
    } else {
      var m := Min(len - op.startPosition, op.substringLength);
      var copied := input[op.startPosition..op.startPosition + m];
      assert copied == s[op.startPosition..op.startPosition + m];
      assert '\0' !in copied by {
        forall k | 0 <= k < m ensures copied[k] != '\0' {
          assert copied[k] == input[..len][op.startPosition + k];
        }
      }
      if m < op.substringLength {
        assert output == copied + ['\0'];
        StrnlenStopsAtFirstNul(copied, op.substringLength);
      } else {
        assert output == copied;
        StrnlenWithoutNul(copied, op.substringLength);
      }
    }
  }

  /** `strnlen` over NUL-free bytes followed by a NUL stops at the NUL. */
  lemma {:induction false} StrnlenStopsAtFirstNul(copied: seq<char>, limit: nat)
    requires '\0' !in copied && |copied| < limit
    ensures Strnlen(copied + ['\0'], limit) == |copied|
    decreases |copied|
  {
    var buffer := copied + ['\0'];
    if |copied| > 0 {
      assert buffer[1..] == copied[1..] + ['\0'];
      assert copied[0] in copied;
      StrnlenStopsAtFirstNul(copied[1..], limit - 1);
    }
  }

  /** `strnlen` over exactly `limit` NUL-free bytes reads all of them. */
  lemma {:induction false} StrnlenWithoutNul(copied: seq<char>, limit: nat)
    requires '\0' !in copied && |copied| == limit
    ensures Strnlen(copied, limit) == limit
    decreases limit
  {
    if limit > 0 {
      assert copied[0] in copied;
      assert forall k :: 0 <= k < |copied[1..]| ==> copied[1..][k] == copied[k + 1];
      StrnlenWithoutNul(copied[1..], limit - 1);
    }
  }

  /** Char reads never go past the declared width, so a Char value without
      a NUL only needs its declared width of readable bytes. */
  lemma CharReadsStayWithinWidth(op: UncheckedOperator, input: seq<char>)
    requires !op.nullTerminated && op.maximumInputLength <= |input|
    ensures Readable(op, input)
    ensures ActualLength(op, input) <= op.maximumInputLength
  {
  }

  /** For an operator built from accepted arguments, the buffer has room
      for the terminator whenever the start position is not exactly the
      declared width: at that one start the maximum length is 0. */
  lemma TerminatorFitsUnlessStartAtWidth(t: CharacterType, args: seq<StaticArgument>)
    requires IsStringType(t) && WellFormedArguments(args) && CanApplyTo(t, args).Pass?
    ensures var op := MakeUncheckedOperator(t, args);
      op.substringLength == 0 <==> op.startPosition == op.maximumInputLength
  {
    ResultWidth(t, args);
    AcceptedArgumentsExtractExactly(t, args);
    var op := MakeUncheckedOperator(t, args);
    var e := ExtractStaticArguments(args);
    if op.startPosition > op.maximumInputLength {
      assert ComputeMaximumSubstringLength(t, e.startPosition, e.substringLength) > 0;
    }
  }

  /** The edge case the code leaves open: `Substring` of a `Char(5)` column
      from position 6 is accepted and planned with a 0-byte result, and the
      kernel would then write its NUL past the end of the buffer. */
  lemma TerminatorOverflowAtWidth()
    ensures var t := CharacterType(kChar, 5, false);
      var args := [StaticArgument(kLong, 6)];
      IsStringType(t) && WellFormedArguments(args) && CanApplyTo(t, args).Pass? &&
      var op := MakeUncheckedOperator(t, args);
      Readable(op, "hello") && !TerminatorFits(op, "hello")
  {
    var t := CharacterType(kChar, 5, false);
    var args := [StaticArgument(kLong, 6)];
    assert WellFormedArguments(args);
    TerminatorFitsUnlessStartAtWidth(t, args);
    var op := MakeUncheckedOperator(t, args);
    assert ActualLength(op, "hello") <= 5;
  }

  /** Planning `Substring(t, args)` and running its kernel on `input`
      stays within every precondition and reads back as `expected`. */
  predicate SubstringYields(t: CharacterType, args: seq<StaticArgument>, input: seq<char>, expected: seq<char>) {
    IsStringType(t) && WellFormedArguments(args) && CanApplyTo(t, args).Pass? &&
    var op := MakeUncheckedOperator(t, args);
    Readable(op, input) && TerminatorFits(op, input) &&
    var output := ComputeSubstring(op, input);
    (op.substringLength <= |output| || '\0' in output) &&
    DecodeChar(output, op.substringLength) == expected
  }

  /** A planned operation over a VarChar value yields the reference
      substring of the value, from the 0-based start, of the planned width. */
  lemma YieldsSubstring(t: CharacterType, args: seq<StaticArgument>, input: seq<char>, expected: seq<char>)
    requires IsStringType(t) && WellFormedArguments(args) && CanApplyTo(t, args).Pass?
    requires t.typeId == kVarChar && '\0' in input
    requires args[0].literal - 1 != t.stringLength
    requires expected == Substring(input[..Strlen(input)], args[0].literal - 1, GetResultType(t, args).stringLength)
    ensures SubstringYields(t, args, input, expected)
  {
    TerminatorFitsUnlessStartAtWidth(t, args);
    ComputeSubstringIsSubstring(MakeUncheckedOperator(t, args), input);
  }

  /** "hello" as the VarChar(5) value the examples below use. */
  lemma HelloLength()
    ensures '\0' in "hello\0" && Strlen("hello\0") == 5
  {
    var input := "hello\0";
    assert input[5] == '\0';
    assert '\0' !in input[..5];
  }

  /** Substring("hello", 1, 3) is "hel". */
  lemma SubstringFromStart()
    ensures SubstringYields(CharacterType(kVarChar, 5, false), [StaticArgument(kLong, 1), StaticArgument(kLong, 3)], "hello\0", "hel")
  {
    var t, args := CharacterType(kVarChar, 5, false), [StaticArgument(kLong, 1), StaticArgument(kLong, 3)];
    assert WellFormedArguments(args);
    HelloLength();
    assert GetResultType(t, args).stringLength == 3 by { ResultWidth(t, args); }
    assert "hello\0"[..5][0..3] == "hel";
    assert Substring("hello\0"[..5], 0, 3) == "hel";
    YieldsSubstring(t, args, "hello\0", "hel");
  }

  /** Substring("hello", 4, 10) is "lo": position 4 is the second "l", and
      the length stops at the end of the value. */
  lemma SubstringPastEnd()
    ensures SubstringYields(CharacterType(kVarChar, 5, false), [StaticArgument(kLong, 4), StaticArgument(kLong, 10)], "hello\0", "lo")
  {
    var t, args := CharacterType(kVarChar, 5, false), [StaticArgument(kLong, 4), StaticArgument(kLong, 10)];
    assert WellFormedArguments(args);
    HelloLength();
    assert GetResultType(t, args).stringLength == 2 by { ResultWidth(t, args); }
    assert "hello\0"[..5][3..5] == "lo";
    assert Substring("hello\0"[..5], 3, 2) == "lo";
    YieldsSubstring(t, args, "hello\0", "lo");
  }

  /** Substring("hello", 10, 2) is empty, not an error. */
  lemma SubstringBeyondEnd()
    ensures SubstringYields(CharacterType(kVarChar, 5, false), [StaticArgument(kLong, 10), StaticArgument(kLong, 2)], "hello\0", "")
  {
    var t, args := CharacterType(kVarChar, 5, false), [StaticArgument(kLong, 10), StaticArgument(kLong, 2)];
    assert WellFormedArguments(args);
    HelloLength();
    YieldsSubstring(t, args, "hello\0", "");
  }

  /** A result `TypedValue`: null of the result type, or an owned buffer of
      `size` bytes whose first bytes are `bytes`. */
  datatype StringValue = NullValue(typeId: TypeID) | OwnedValue(typeId: TypeID, bytes: seq<char>, size: nat)

  /** What a surface needs of one argument: a null only for a nullable
      operator, and otherwise bytes the kernel may read and write. */
  predicate AdmissibleArgument(op: UncheckedOperator, argument: Option<seq<char>>) {
    match argument
    case None => op.inputNullable
    case Some(input) => Readable(op, input) && TerminatorFits(op, input)
  }

  /** `applyToTypedValue`: a null argument to a nullable operator is null of
      the result type without computing; anything else gets a fresh
      `substring_length_`-byte buffer filled by the kernel. */
  function ApplyToTypedValue(op: UncheckedOperator, argument: Option<seq<char>>): (r: StringValue)
    requires AdmissibleArgument(op, argument)
    ensures r.typeId == op.resultType.typeId
    ensures r.NullValue? <==> argument.None?
    ensures r.OwnedValue? ==> r.size == op.substringLength && |r.bytes| <= r.size
  {
    if op.inputNullable && argument.None? then NullValue(op.resultType.typeId)
    else OwnedValue(op.resultType.typeId, ComputeSubstring(op, argument.value), op.substringLength)
  }

  /** One output row of a column vector: `appendNullValue()`, or the bytes
      the kernel wrote through `getPtrForDirectWrite()`. */
  datatype Cell = NullCell | WrittenCell(bytes: seq<char>)

  /** One row of `applyToColumnVector` and `applyToValueAccessor`: null for
      a null argument, otherwise a row of at most the result width that
      reads back as the substring of the argument's actual string. */
  function ApplyToRow(op: UncheckedOperator, argument: Option<seq<char>>): (r: Cell)
    requires AdmissibleArgument(op, argument)
    ensures r.NullCell? <==> argument.None?
    ensures r.WrittenCell? ==>
      |r.bytes| <= op.substringLength &&
      (op.substringLength <= |r.bytes| || '\0' in r.bytes) &&
      DecodeChar(r.bytes, op.substringLength) ==
        Substring(argument.value[..ActualLength(op, argument.value)], op.startPosition, op.substringLength)
  {
    if op.inputNullable && argument.None? then NullCell
    else
      ComputeSubstringIsSubstring(op, argument.value);
      WrittenCell(ComputeSubstring(op, argument.value))
  }

  /** The column and the single-value surfaces agree on every argument:
      null for null, and the same kernel bytes otherwise. */
  lemma SurfacesAgree(op: UncheckedOperator, argument: Option<seq<char>>)
    requires AdmissibleArgument(op, argument)
    ensures ApplyToRow(op, argument).NullCell? <==> ApplyToTypedValue(op, argument).NullValue?
    ensures ApplyToRow(op, argument).WrittenCell? ==>
      ApplyToRow(op, argument).bytes == ApplyToTypedValue(op, argument).bytes
  {
  }

  /** `applyToColumnVector`: one output row per input row, in order. */
  method ApplyToColumnVector(op: UncheckedOperator, column: seq<Option<seq<char>>>) returns (result: seq<Cell>)
    requires forall i :: 0 <= i < |column| ==> AdmissibleArgument(op, column[i])
    ensures |result| == |column|
    ensures forall i :: 0 <= i < |column| ==> result[i] == ApplyToRow(op, column[i])
  {
    result := [];
    var position := 0;
    while position < |column|
      invariant 0 <= position <= |column|
      invariant |result| == position
      invariant forall i :: 0 <= i < position ==> result[i] == ApplyToRow(op, column[i])
    {
      var input := column[position];
      if op.inputNullable && input.None? {
        result := result + [NullCell];
      } else {
        result := result + [WrittenCell(ComputeSubstring(op, input.value))];
      }
      position := position + 1;
    }
  }

  /** `applyToValueAccessor`: the same row loop driven by the accessor's
      `next()`, which hands out the rows that remain one at a time. */
  method ApplyToValueAccessor(op: UncheckedOperator, accessor: seq<Option<seq<char>>>) returns (result: seq<Cell>)
    requires forall i :: 0 <= i < |accessor| ==> AdmissibleArgument(op, accessor[i])
    ensures |result| == |accessor|
    ensures forall i :: 0 <= i < |accessor| ==> result[i] == ApplyToRow(op, accessor[i])
  {
    result := [];
    var remaining := accessor;
    while remaining != []
      invariant |result| + |remaining| == |accessor|
      invariant remaining == accessor[|result|..]
      invariant forall i :: 0 <= i < |result| ==> result[i] == ApplyToRow(op, accessor[i])
      decreases |remaining|
    {
      var input := remaining[0];
      remaining := remaining[1..];
      if op.inputNullable && input.None? {
        result := result + [NullCell];
      } else {
        result := result + [WrittenCell(ComputeSubstring(op, input.value))];
      }
    }
  }
}
