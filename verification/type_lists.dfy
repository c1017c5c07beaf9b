/** The compile-time type-list algebra of the utility layer (`TypeList`,
    `EqualsAny`, `map`, `flatmap`, `filter`, `filtermap`, `unique`,
    `subtract`), restated over ordinary sequences. Each `...Inner` function
    keeps the source's accumulator (`Out`) and remainder (`Rest`) shape: it
    peels the head of the remainder and pushes results onto the back of the
    accumulator until the remainder is empty. */
module TypeLists {
  import opened Wrappers

  /** No element occurs twice. */
  predicate NoDuplicates<T(==,!new)>(xs: seq<T>) {
    forall i, j :: 0 <= i < j < |xs| ==> xs[i] != xs[j]
  }

  /** `s` can be obtained from `t` by deleting elements (order is kept). */
  ghost predicate IsSubsequence<T>(s: seq<T>, t: seq<T>)
    decreases |t|
  {
    |s| == 0 ||
    (|t| > 0 && ((s[0] == t[0] && IsSubsequence(s[1..], t[1..])) || IsSubsequence(s, t[1..])))
  }

  /** Index of the first occurrence of `x` in `xs`. */
  function FirstIndex<T(==,!new)>(xs: seq<T>, x: T): (i: nat)
    requires x in xs
    ensures i < |xs| && xs[i] == x && x !in xs[..i]
  {
    if xs[0] == x then 0 else 1 + FirstIndex(xs[1..], x)
  }

  /** `EqualsAny<check, cases...>`: a left-to-right `Disjunction` of
      `std::is_same<check, case>`; `TypeList::contains` is this predicate. */
  function EqualsAny<T(==,!new)>(check: T, cases: seq<T>): (r: bool)
    ensures r <==> check in cases
  {
    if |cases| == 0 then false
    else if cases[0] == check then true
    else EqualsAny(check, cases[1..])
  }

  /** `TypeList<Ts...>::append<TypeList<Tail...>>` is `TypeList<Ts..., Tail...>`. */
  function Append<T>(xs: seq<T>, ys: seq<T>): (r: seq<T>)
    ensures |r| == |xs| + |ys|
    ensures forall i :: 0 <= i < |xs| ==> r[i] == xs[i]
    ensures forall j :: 0 <= j < |ys| ==> r[|xs| + j] == ys[j]
  {
    xs + ys
  }

  /** `MapInner<Out, Rest, Op>`: push `Op<head>::type` and continue. */
  function MapInner<T, U>(out: seq<U>, rest: seq<T>, op: T -> U): (r: seq<U>)
    ensures |r| == |out| + |rest|
    ensures r[..|out|] == out
    ensures forall i :: 0 <= i < |rest| ==> r[|out| + i] == op(rest[i])
    decreases |rest|
  {
    if |rest| == 0 then out
    else MapInner(out + [op(rest[0])], rest[1..], op)
  }

  /** `TypeList::map<Op>`. */
  function Map<T, U>(xs: seq<T>, op: T -> U): (r: seq<U>)
    ensures |r| == |xs|
    ensures forall i :: 0 <= i < |xs| ==> r[i] == op(xs[i])
  {
    MapInner([], xs, op)
  }

  /** Concatenation of a list of lists, head first: the independent reference
      for `flatmap`. */
  function Concat<U>(xss: seq<seq<U>>): seq<U>
    decreases |xss|
  {
    if |xss| == 0 then [] else xss[0] + Concat(xss[1..])
  }

  lemma {:induction false} ConcatMembership<U>(xss: seq<seq<U>>, y: U)
    ensures y in Concat(xss) <==> exists i :: 0 <= i < |xss| && y in xss[i]
    decreases |xss|
  {
    if |xss| > 0 {
      ConcatMembership(xss[1..], y);
      if y in Concat(xss[1..]) {
        var i :| 0 <= i < |xss[1..]| && y in xss[1..][i];
        assert y in xss[i + 1];
      }
      if exists i :: 0 <= i < |xss| && y in xss[i] {
        var i :| 0 <= i < |xss| && y in xss[i];
        if i > 0 {
          assert y in xss[1..][i - 1];
        }
      }
    }
  }

  /** `FlatMapInner<Out, Rest, Op>`: append the list `Op<head>::type` and continue. */
  function FlatMapInner<T, U>(out: seq<U>, rest: seq<T>, op: T -> seq<U>): (r: seq<U>)
    ensures r == out + Concat(Map(rest, op))
    decreases |rest|
  {
    if |rest| == 0 then out
    else
      var r := FlatMapInner(out + op(rest[0]), rest[1..], op);
      assert Map(rest, op) == [op(rest[0])] + Map(rest[1..], op);
      r
  }

  /** `TypeList::flatmap<Op>`. */
  function FlatMap<T, U>(xs: seq<T>, op: T -> seq<U>): (r: seq<U>)
    ensures r == Concat(Map(xs, op))
  {
    FlatMapInner([], xs, op)
  }

  /** Something is produced by `flatmap` exactly when one of the per-element
      lists holds it. */
  lemma FlatMapMembership<T, U>(xs: seq<T>, op: T -> seq<U>, y: U)
    ensures y in FlatMap(xs, op) <==> exists i :: 0 <= i < |xs| && y in op(xs[i])
  {
    var m := Map(xs, op);
    ConcatMembership(m, y);
    if exists i :: 0 <= i < |m| && y in m[i] {
      var i :| 0 <= i < |m| && y in m[i];
      assert y in op(xs[i]);
    }
  }

  /** `FilterInner<Out, Rest, Op>`: push the head when `Op<head>::value` holds. */
  function FilterInner<T(==,!new)>(out: seq<T>, rest: seq<T>, p: T -> bool): (r: seq<T>)
    ensures |out| <= |r| && r[..|out|] == out
    ensures forall y :: multiset(r[|out|..])[y] == if p(y) then multiset(rest)[y] else 0
    ensures IsSubsequence(r[|out|..], rest)
    decreases |rest|
  {
    if |rest| == 0 then out
    else
      var h := rest[0];
      assert rest == [h] + rest[1..];
      if p(h) then
        var r := FilterInner(out + [h], rest[1..], p);
        PushedHead(out, h, r, rest);
        r
      else
        var r := FilterInner(out, rest[1..], p);
        assert IsSubsequence(r[|out|..], rest[1..]);
        r
  }

  /** When `r` extends `out + [h]` and its part after that is a
      subsequence of `rest`'s tail, its part after `out` starts with `h` and
      is a subsequence of `rest`. */
  lemma PushedHead<T>(out: seq<T>, h: T, r: seq<T>, rest: seq<T>)
    requires |rest| > 0 && rest[0] == h
    requires |out| + 1 <= |r| && r[..|out| + 1] == out + [h]
    requires IsSubsequence(r[|out| + 1..], rest[1..])
    ensures r[|out|..] == [h] + r[|out| + 1..]
    ensures multiset(r[|out|..]) == multiset{h} + multiset(r[|out| + 1..])
    ensures IsSubsequence(r[|out|..], rest)
  {
    assert r[|out|] == (out + [h])[|out|];
    assert r[|out|..] == [h] + r[|out| + 1..];
    assert r[|out|..][1..] == r[|out| + 1..];
  }

  /** `TypeList::filter<Op>`: exactly the elements satisfying `p`, each as
      often as in `xs`, in their original order. */
  function Filter<T(==,!new)>(xs: seq<T>, p: T -> bool): (r: seq<T>)
    ensures forall y :: multiset(r)[y] == if p(y) then multiset(xs)[y] else 0
    ensures forall y :: y in r <==> y in xs && p(y)
    ensures IsSubsequence(r, xs)
  {
    var r := FilterInner([], xs, p);
    assert r[0..] == r;
    forall y ensures y in r <==> y in xs && p(y) {
      assert y in r <==> multiset(r)[y] > 0;
      assert y in xs <==> multiset(xs)[y] > 0;
    }
    r
  }

  /** `FilterMapInner<Out, Rest, Op>`: push `Op<head>::type` when `Op<head>`
      is a type trait (here: when `op` yields `Some`), skip the head otherwise. */
  function FilterMapInner<T, U(!new)>(out: seq<U>, rest: seq<T>, op: T -> Option<U>): (r: seq<U>)
    ensures |out| <= |r| <= |out| + |rest| && r[..|out|] == out
    ensures forall y :: y in r[|out|..] <==> exists i :: 0 <= i < |rest| && op(rest[i]) == Some(y)
    decreases |rest|
  {
    if |rest| == 0 then out
    else
      var r := match op(rest[0])
        case Some(y) => FilterMapInner(out + [y], rest[1..], op)
        case None => FilterMapInner(out, rest[1..], op);
      assert forall i :: 1 <= i < |rest| ==> rest[i] == rest[1..][i - 1];
      if op(rest[0]).Some? then
        assert r[|out|..] == [op(rest[0]).value] + r[|out| + 1..];
        r
      else
        r
  }

  /** A partial type function as a list-valued one: the one type it yields,
      or nothing. */
  function Yielded<T, U>(op: T -> Option<U>): T -> seq<U> {
    x => match op(x) case Some(y) => [y] case None => []
  }

  /** `FilterMapInner` is `FlatMapInner` over the zero-or-one lists of
      `Yielded(op)`: one value pushed per yielding element, in input order. */
  lemma {:induction false} FilterMapIsFlatMap<T, U(!new)>(out: seq<U>, rest: seq<T>, op: T -> Option<U>)
    ensures FilterMapInner(out, rest, op) == FlatMapInner(out, rest, Yielded(op))
    decreases |rest|
  {
    if |rest| > 0 {
      FilterMapIsFlatMap(out + Yielded(op)(rest[0]), rest[1..], op);
    }
  }

  /** `TypeList::filtermap<Op>`. */
  function FilterMap<T, U(!new)>(xs: seq<T>, op: T -> Option<U>): (r: seq<U>)
    ensures |r| <= |xs|
    ensures forall y :: y in r <==> exists i :: 0 <= i < |xs| && op(xs[i]) == Some(y)
  {
    var r := FilterMapInner([], xs, op);
    assert r[0..] == r;
    r
  }

  /** `filtermap` yields one value per yielding element, in input order:
      it is `flatmap` over the zero-or-one lists of `Yielded(op)`. */
  lemma FilterMapKeepsOrder<T, U(!new)>(xs: seq<T>, op: T -> Option<U>)
    ensures FilterMap(xs, op) == FlatMap(xs, Yielded(op))
  {
    FilterMapIsFlatMap([], xs, op);
  }

  /** `UniqueInner<Out, Rest>`: push the head unless `Out::contains` it.
      Started from a duplicate-free accumulator (the source always starts
      from the empty list), the part appended is every element of `rest`
      missing from `out`, exactly once. */
  function UniqueInner<T(==,!new)>(out: seq<T>, rest: seq<T>): (r: seq<T>)
    requires NoDuplicates(out)
    ensures |out| <= |r| && r[..|out|] == out
    ensures NoDuplicates(r)
    ensures forall y :: y in r <==> y in out || y in rest
    decreases |rest|
  {
    if |rest| == 0 then out
    else
      var h := rest[0];
      assert forall y :: y in rest <==> y == h || y in rest[1..];
      if EqualsAny(h, out) then
        UniqueInner(out, rest[1..])
      else
        UniqueInner(out + [h], rest[1..])
  }

  /** What `r` appends to `out` comes from `rest`, is new to `out`, and is
      ordered by first occurrence in `rest`. */
  predicate AppendedInOrder<T(==,!new)>(out: seq<T>, rest: seq<T>, r: seq<T>) {
    (forall i :: |out| <= i < |r| ==> r[i] in rest && r[i] !in out) &&
    (forall i, j :: |out| <= i < j < |r| ==> FirstIndex(rest, r[i]) < FirstIndex(rest, r[j]))
  }

  /** The appended part of `UniqueInner` is new to the accumulator and
      ordered by first occurrence in `rest`. */
  lemma {:induction false} UniqueInnerOrder<T(!new)>(out: seq<T>, rest: seq<T>)
    requires NoDuplicates(out)
    ensures AppendedInOrder(out, rest, UniqueInner(out, rest))
    decreases |rest|
  {
    var r := UniqueInner(out, rest);
    if |rest| > 0 {
      var h := rest[0];
      var tail := rest[1..];
      if h in out {
        UniqueInnerOrder(out, tail);
        assert r == UniqueInner(out, tail);
        OrderAfterSkip(out, rest, r);
      } else {
        var out' := out + [h];
        UniqueInnerOrder(out', tail);
        assert r == UniqueInner(out', tail);
        assert r[|out|] == h;
        OrderAfterPush(out, rest, r);
      }
    }
  }

  /** The inductive step of `UniqueInnerOrder` when the head is skipped:
      the appended part avoids `out`, so it avoids the head, and tail order
      is `rest` order. */
  lemma OrderAfterSkip<T(!new)>(out: seq<T>, rest: seq<T>, r: seq<T>)
    requires |rest| > 0 && rest[0] in out
    requires AppendedInOrder(out, rest[1..], r)
    ensures AppendedInOrder(out, rest, r)
  {
    var h, tail := rest[0], rest[1..];
    forall i | |out| <= i < |r| ensures r[i] in rest && r[i] != h {
      assert r[i] in tail;
    }
    forall i, j | |out| <= i < j < |r| ensures FirstIndex(rest, r[i]) < FirstIndex(rest, r[j]) {
      assert FirstIndex(rest, r[i]) == 1 + FirstIndex(tail, r[i]);
      assert FirstIndex(rest, r[j]) == 1 + FirstIndex(tail, r[j]);
    }
  }

  /** The inductive step of `UniqueInnerOrder` when the head is pushed: `r`
      holds `h` at `|out|` followed by new elements of the tail in tail
      order, so the whole appended part is in `rest` order. */
  lemma OrderAfterPush<T(!new)>(out: seq<T>, rest: seq<T>, r: seq<T>)
    requires |rest| > 0 && rest[0] !in out
    requires |out| < |r| && r[|out|] == rest[0]
    requires AppendedInOrder(out + [rest[0]], rest[1..], r)
    ensures AppendedInOrder(out, rest, r)
  {
    var h, tail, out' := rest[0], rest[1..], out + [rest[0]];
    forall i | |out| < i < |r| ensures r[i] in tail && r[i] != h && r[i] !in out {
      assert r[i] !in out';
    }
    forall i, j | |out| <= i < j < |r| ensures FirstIndex(rest, r[i]) < FirstIndex(rest, r[j]) {
      assert r[j] in tail && r[j] != h;
      assert FirstIndex(rest, r[j]) == 1 + FirstIndex(tail, r[j]);
      if i > |out| {
        assert r[i] in tail && r[i] != h;
        assert FirstIndex(rest, r[i]) == 1 + FirstIndex(tail, r[i]);
      }
    }
  }

  /** `TypeList::unique<>`: the first occurrence of each element of `xs`,
      once, in the order of first occurrence. */
  function Unique<T(==,!new)>(xs: seq<T>): (r: seq<T>)
    ensures NoDuplicates(r)
    ensures forall y :: y in r <==> y in xs
    ensures forall i, j :: 0 <= i < j < |r| ==> FirstIndex(xs, r[i]) < FirstIndex(xs, r[j])
  {
    var empty: seq<T> := [];
    UniqueInnerOrder(empty, xs);
    UniqueInner(empty, xs)
  }

  /** The predicate "not contained in `subtrahend`" that `subtract` filters by. */
  function NotIn<T(==,!new)>(subtrahend: seq<T>): T -> bool {
    x => !EqualsAny(x, subtrahend)
  }

  /** `SubtractInner<Out, Rest, Subtrahend>`: push the head unless
      `Subtrahend::contains` it. */
  function SubtractInner<T(==,!new)>(out: seq<T>, rest: seq<T>, subtrahend: seq<T>): (r: seq<T>)
    decreases |rest|
  {
    if |rest| == 0 then out
    else if EqualsAny(rest[0], subtrahend) then SubtractInner(out, rest[1..], subtrahend)
    else SubtractInner(out + [rest[0]], rest[1..], subtrahend)
  }

  /** `subtract` is `filter` by the complement of `contains`. */
  lemma {:induction false} SubtractIsFilter<T(!new)>(out: seq<T>, rest: seq<T>, subtrahend: seq<T>)
    ensures SubtractInner(out, rest, subtrahend) == FilterInner(out, rest, NotIn(subtrahend))
    decreases |rest|
  {
    if |rest| > 0 {
      if EqualsAny(rest[0], subtrahend) {
        SubtractIsFilter(out, rest[1..], subtrahend);
      } else {
        SubtractIsFilter(out + [rest[0]], rest[1..], subtrahend);
      }
    }
  }

  /** `TypeList::subtract<Subtrahend>`: the elements of `xs` not contained in
      `subtrahend`, each as often as in `xs`, in their original order. */
  function Subtract<T(==,!new)>(xs: seq<T>, subtrahend: seq<T>): (r: seq<T>)
    ensures forall y :: y in r <==> y in xs && y !in subtrahend
    ensures forall y :: multiset(r)[y] == if y in subtrahend then 0 else multiset(xs)[y]
    ensures IsSubsequence(r, xs)
  {
    SubtractIsFilter([], xs, subtrahend);
    var r := SubtractInner([], xs, subtrahend);
    assert forall y :: NotIn(subtrahend)(y) <==> y !in subtrahend;
    r
  }
}
