/** Edge joining and the semi-naive transitive closure of the utility layer
    (`EdgeMatcher`, `JoinPath`, `TransitiveClosureInner`,
    `TransitiveClosureInitializer`, `TransitiveClosure`). An edge is the
    two-element type list `TypeList<From, To>`. */
module TransitiveClosure {
  import opened Wrappers
  import opened TypeLists

  /** `TypeList<From, To>`: `From` can be promoted to `To`. */
  datatype Edge<T> = Edge(src: T, dst: T)

  /** `EdgeMatcher<LeftEdge, RightEdge>`: has a nested `type` (the composed
      edge) exactly when the left edge ends where the right edge starts. */
  function EdgeMatcher<T(==)>(left: Edge<T>, right: Edge<T>): (r: Option<Edge<T>>)
    ensures r.Some? <==> left.dst == right.src
    ensures r.Some? ==> r.value.src == left.src && r.value.dst == right.dst
  {
    if left.dst == right.src then Some(Edge(left.src, right.dst)) else None
  }

  /** `JoinPath::JoinPathLeftHelper<LeftEdge>`: filter-map the right edges
      through `EdgeMatcher<LeftEdge, _>`. */
  function JoinPathLeftHelper<T(==,!new)>(rights: seq<Edge<T>>): Edge<T> -> seq<Edge<T>> {
    left => FilterMap(rights, right => EdgeMatcher(left, right))
  }

  lemma JoinPathLeftMembership<T(!new)>(rights: seq<Edge<T>>, left: Edge<T>, e: Edge<T>)
    ensures e in JoinPathLeftHelper(rights)(left) <==>
      exists j :: 0 <= j < |rights| && left.dst == rights[j].src && e == Edge(left.src, rights[j].dst)
  {
    assert JoinPathLeftHelper(rights)(left) == FilterMap(rights, right => EdgeMatcher(left, right));
  }

  /** `JoinPath<LeftEdges, RightEdges>`: every composition of a left edge
      `(a, b)` with a right edge `(b, c)`, and nothing else. */
  function JoinPath<T(==,!new)>(lefts: seq<Edge<T>>, rights: seq<Edge<T>>): (r: seq<Edge<T>>)
    ensures forall e :: e in r <==>
      exists i, j :: 0 <= i < |lefts| && 0 <= j < |rights| &&
        lefts[i].dst == rights[j].src && e == Edge(lefts[i].src, rights[j].dst)
  {
    var r := FlatMap(lefts, JoinPathLeftHelper(rights));
    forall e ensures e in r <==>
      exists i, j :: 0 <= i < |lefts| && 0 <= j < |rights| &&
        lefts[i].dst == rights[j].src && e == Edge(lefts[i].src, rights[j].dst)
    {
      FlatMapMembership(lefts, JoinPathLeftHelper(rights), e);
      if e in r {
        var i :| 0 <= i < |lefts| && e in JoinPathLeftHelper(rights)(lefts[i]);
        JoinPathLeftMembership(rights, lefts[i], e);
      }
      if e !in r {
        forall i, j | 0 <= i < |lefts| && 0 <= j < |rights| && lefts[i].dst == rights[j].src
          ensures e != Edge(lefts[i].src, rights[j].dst)
        {
          JoinPathLeftMembership(rights, lefts[i], e);
        }
      }
    }
    r
  }

  // ---------------------------------------------------------------------------
  // Graph vocabulary (ghost): nodes, reachability, the closure relation.

  ghost function Nodes<T>(edges: seq<Edge<T>>): set<T> {
    (set e | e in edges :: e.src) + (set e | e in edges :: e.dst)
  }

  /** `c` is reached from `a` by a path of exactly `n` edges. */
  ghost predicate ReachIn<T>(edges: seq<Edge<T>>, a: T, c: T, n: nat)
    decreases n
  {
    if n == 0 then a == c
    else exists j :: 0 <= j < |edges| && edges[j].dst == c && ReachIn(edges, a, edges[j].src, n - 1)
  }

  /** `c` is reached from `a` by zero or more edges. */
  ghost predicate Reachable<T>(edges: seq<Edge<T>>, a: T, c: T) {
    exists n: nat :: ReachIn(edges, a, c, n)
  }

  /** The reflexive-transitive closure restricted to nodes that occur in an edge. */
  ghost predicate InClosure<T>(edges: seq<Edge<T>>, e: Edge<T>) {
    e.src in Nodes(edges) && Reachable(edges, e.src, e.dst)
  }

  lemma ReachStep<T>(edges: seq<Edge<T>>, a: T, j: int, n: nat)
    requires 0 <= j < |edges| && ReachIn(edges, a, edges[j].src, n)
    ensures ReachIn(edges, a, edges[j].dst, n + 1)
  {
  }

  /** Paths compose: reachability is transitive. */
  lemma {:induction false} ReachConcat<T>(edges: seq<Edge<T>>, a: T, b: T, c: T, n: nat, m: nat)
    requires ReachIn(edges, a, b, n) && ReachIn(edges, b, c, m)
    ensures ReachIn(edges, a, c, n + m)
    decreases m
  {
    if m > 0 {
      var j :| 0 <= j < |edges| && edges[j].dst == c && ReachIn(edges, b, edges[j].src, m - 1);
      ReachConcat(edges, a, b, edges[j].src, n, m - 1);
      ReachStep(edges, a, j, n + m - 1);
    }
  }

  // ---------------------------------------------------------------------------
  // Termination measure of the semi-naive loop.

  ghost function Elems<T>(s: seq<Edge<T>>): set<Edge<T>> {
    set e | e in s
  }

  ghost function AllPairs<T>(u: set<T>): set<Edge<T>> {
    set a, b | a in u && b in u :: Edge(a, b)
  }

  ghost function Universe<T>(out: seq<Edge<T>>, work: seq<Edge<T>>, edges: seq<Edge<T>>): set<T> {
    Nodes(out) + Nodes(work) + Nodes(edges)
  }

  /** Pairs over the known nodes that are not yet accumulated. */
  ghost function Measure<T>(out: seq<Edge<T>>, work: seq<Edge<T>>, edges: seq<Edge<T>>): int {
    |AllPairs(Universe(out, work, edges))| - |Elems(out)|
  }

  /** 1 when a non-empty work set adds nothing new (possible only for a first
      work set that overlaps the accumulator), else 0. */
  ghost function Pending<T>(out: seq<Edge<T>>, work: seq<Edge<T>>): int {
    if |work| > 0 && forall e :: e in work ==> e in out then 1 else 0
  }

  lemma SubsetCard<U>(a: set<U>, b: set<U>)
    requires a <= b
    ensures |a| <= |b|
  {
    assert b == a + (b - a);
  }

  lemma ProperSubsetCard<U>(a: set<U>, b: set<U>, x: U)
    requires a <= b && x in b && x !in a
    ensures |a| < |b|
  {
    assert b == a + (b - a);
    assert x in b - a;
  }

  lemma ElemsWithinPairs<T>(out: seq<Edge<T>>, work: seq<Edge<T>>, edges: seq<Edge<T>>)
    ensures Elems(out) <= AllPairs(Universe(out, work, edges))
  {
    forall e | e in Elems(out) ensures e in AllPairs(Universe(out, work, edges)) {
      assert e.src in Nodes(out) && e.dst in Nodes(out);
      assert e == Edge(e.src, e.dst);
    }
  }

  // ---------------------------------------------------------------------------
  // The loop.

  /** One round of `TransitiveClosureInner`: the work set is appended to the
      output, and the next work set is the join of the work set with the
      edges, minus everything accumulated, deduplicated. */
  function SemiNaiveStep<T(==,!new)>(out: seq<Edge<T>>, work: seq<Edge<T>>, edges: seq<Edge<T>>)
    : (r: (seq<Edge<T>>, seq<Edge<T>>))
    ensures r.0 == out + work
    ensures NoDuplicates(r.1)
    ensures forall e :: e in r.1 ==> e !in r.0
    ensures forall e :: e in r.1 <==> e in JoinPath(work, edges) && e !in r.0
  {
    var accumulated := Append(out, work);
    assert accumulated == out + work;
    (accumulated, Unique(Subtract(JoinPath(work, edges), accumulated)))
  }

  lemma StepStaysInUniverse<T(!new)>(out: seq<Edge<T>>, work: seq<Edge<T>>, edges: seq<Edge<T>>)
    ensures var (out', work') := SemiNaiveStep(out, work, edges);
      Universe(out', work', edges) <= Universe(out, work, edges)
  {
    var (out', work') := SemiNaiveStep(out, work, edges);
    forall x | x in Nodes(work') ensures x in Nodes(work) + Nodes(edges) {
      var e :| e in work' && (x == e.src || x == e.dst);
      assert e in JoinPath(work, edges);
      var i, j :| 0 <= i < |work| && 0 <= j < |edges| && work[i].dst == edges[j].src &&
        e == Edge(work[i].src, edges[j].dst);
      assert work[i] in work && edges[j] in edges;
    }
    forall x | x in Nodes(out') ensures x in Nodes(out) + Nodes(work) {
      var e :| e in out' && (x == e.src || x == e.dst);
      assert e in out || e in work;
    }
  }

  lemma AllPairsMonotone<T>(u': set<T>, u: set<T>)
    requires u' <= u
    ensures |AllPairs(u')| <= |AllPairs(u)|
  {
    assert AllPairs(u') <= AllPairs(u);
    SubsetCard(AllPairs(u'), AllPairs(u));
  }

  lemma MeasureDecreases<T(!new)>(out: seq<Edge<T>>, work: seq<Edge<T>>, edges: seq<Edge<T>>)
    requires |work| > 0
    ensures var (out', work') := SemiNaiveStep(out, work, edges);
      0 <= Measure(out', work', edges) <= Measure(out, work, edges) &&
      0 <= Pending(out', work') <= Pending(out, work) &&
      (Measure(out', work', edges) < Measure(out, work, edges) || Pending(out', work') < Pending(out, work))
  {
    var (out', work') := SemiNaiveStep(out, work, edges);
    var u, u' := Universe(out, work, edges), Universe(out', work', edges);
    StepStaysInUniverse(out, work, edges);
    AllPairsMonotone(u', u);
    assert Elems(out) <= Elems(out');
    SubsetCard(Elems(out), Elems(out'));
    ElemsWithinPairs(out', work', edges);
    SubsetCard(Elems(out'), AllPairs(u'));
    assert Pending(out', work') == 0;
    if exists e :: e in work && e !in out {
      var e :| e in work && e !in out;
      ProperSubsetCard(Elems(out), Elems(out'), e);
    }
  }

  /** `TransitiveClosureInner<Out, WorkSet, Edges>`: stop when the work set is
      empty, otherwise take one semi-naive step. It terminates because every
      round either accumulates a pair over the finitely many known nodes
      that was not accumulated before, or (only possible when the first work
      set overlaps the accumulator) leaves a work set disjoint from it. */
  function TransitiveClosureInner<T(==,!new)>(out: seq<Edge<T>>, work: seq<Edge<T>>, edges: seq<Edge<T>>)
    : (r: seq<Edge<T>>)
    ensures |out| <= |r| && r[..|out|] == out
    ensures forall e :: e in work ==> e in r
    decreases Measure(out, work, edges), Pending(out, work)
  {
    if |work| == 0 then out
    else
      MeasureDecreases(out, work, edges);
      var (out', work') := SemiNaiveStep(out, work, edges);
      var r := TransitiveClosureInner(out', work', edges);
      assert r[..|out|] == r[..|out'|][..|out|];
      assert forall e :: e in work ==> e in r[..|out'|];
      r
  }

  /** `TransitiveClosureInitializer<Edge>`: the reflexive pairs of both endpoints. */
  function TransitiveClosureInitializer<T(==,!new)>(e: Edge<T>): (r: seq<Edge<T>>)
    ensures forall d :: d in r <==> d.src == d.dst && (d.src == e.src || d.src == e.dst)
  {
    [Edge(e.src, e.src), Edge(e.dst, e.dst)]
  }

  /** The first work set: `Edges::flatmap<TransitiveClosureInitializer>::unique<>`. */
  function Seed<T(==,!new)>(edges: seq<Edge<T>>): (r: seq<Edge<T>>)
    ensures NoDuplicates(r)
    ensures forall e :: e in r <==> e.src == e.dst && e.src in Nodes(edges)
  {
    var flat := FlatMap(edges, TransitiveClosureInitializer);
    forall e ensures e in flat <==> e.src == e.dst && e.src in Nodes(edges) {
      FlatMapMembership(edges, TransitiveClosureInitializer, e);
      if e.src == e.dst && e.src in Nodes(edges) {
        var d :| d in edges && (e.src == d.src || e.src == d.dst);
        var i :| 0 <= i < |edges| && edges[i] == d;
        assert e in TransitiveClosureInitializer(edges[i]);
      }
    }
    Unique(flat)
  }

  /** `TransitiveClosure<Edges>`: it holds `(a, b)` exactly when `a` is an
      endpoint of some edge and `b` is reachable from `a` in zero or more
      edges, and it holds no pair twice. */
  function TransitiveClosure<T(==,!new)>(edges: seq<Edge<T>>): (r: seq<Edge<T>>)
    ensures NoDuplicates(r)
    ensures forall a, b :: Edge(a, b) in r <==> a in Nodes(edges) && Reachable(edges, a, b)
  {
    var seed := Seed(edges);
    var r := TransitiveClosureInner([], seed, edges);
    ClosureFromSeed(edges);
    r
  }

  // ---------------------------------------------------------------------------
  // Correctness.

  ghost predicate Sound<T>(edges: seq<Edge<T>>, s: seq<Edge<T>>) {
    forall e :: e in s ==> InClosure(edges, e)
  }

  /** Extending any pair of `s` by one edge lands in `t`. */
  ghost predicate JoinClosed<T>(edges: seq<Edge<T>>, s: seq<Edge<T>>, t: seq<Edge<T>>) {
    forall e, j :: e in s && 0 <= j < |edges| && edges[j].src == e.dst ==> Edge(e.src, edges[j].dst) in t
  }

  /** The loop keeps every accumulated pair inside the closure, and on exit
      the output is closed under extension by an edge. */
  lemma {:induction false} InnerInvariant<T(!new)>(out: seq<Edge<T>>, work: seq<Edge<T>>, edges: seq<Edge<T>>)
    requires Sound(edges, out) && Sound(edges, work)
    requires JoinClosed(edges, out, out + work)
    ensures Sound(edges, TransitiveClosureInner(out, work, edges))
    ensures JoinClosed(edges, TransitiveClosureInner(out, work, edges), TransitiveClosureInner(out, work, edges))
    ensures forall e :: e in out || e in work ==> e in TransitiveClosureInner(out, work, edges)
    decreases Measure(out, work, edges), Pending(out, work)
  {
    if |work| == 0 {
      assert out + work == out;
    } else {
      MeasureDecreases(out, work, edges);
      var (out', work') := SemiNaiveStep(out, work, edges);
      assert TransitiveClosureInner(out, work, edges) == TransitiveClosureInner(out', work', edges);
      forall e | e in work' ensures InClosure(edges, e) {
        assert e in JoinPath(work, edges);
        var i, j :| 0 <= i < |work| && 0 <= j < |edges| && work[i].dst == edges[j].src &&
          e == Edge(work[i].src, edges[j].dst);
        assert work[i] in work;
        var n: nat :| ReachIn(edges, work[i].src, work[i].dst, n);
        ReachStep(edges, work[i].src, j, n);
      }
      forall e, j | e in out' && 0 <= j < |edges| && edges[j].src == e.dst
        ensures Edge(e.src, edges[j].dst) in out' + work'
      {
        if e !in out {
          assert e in work;
          var i :| 0 <= i < |work| && work[i] == e;
          assert Edge(e.src, edges[j].dst) in JoinPath(work, edges);
        }
      }
      InnerInvariant(out', work', edges);
    }
  }

  /** Every round appends a work set disjoint from the output, so the output
      never holds a pair twice. */
  lemma {:induction false} InnerNoDuplicates<T(!new)>(out: seq<Edge<T>>, work: seq<Edge<T>>, edges: seq<Edge<T>>)
    requires NoDuplicates(out) && NoDuplicates(work)
    requires forall e :: e in work ==> e !in out
    ensures NoDuplicates(TransitiveClosureInner(out, work, edges))
    decreases Measure(out, work, edges), Pending(out, work)
  {
    if |work| > 0 {
      MeasureDecreases(out, work, edges);
      var (out', work') := SemiNaiveStep(out, work, edges);
      assert TransitiveClosureInner(out, work, edges) == TransitiveClosureInner(out', work', edges);
      forall i, j | 0 <= i < j < |out'| ensures out'[i] != out'[j] {
        if i < |out| && j >= |out| {
          assert out'[j] == work[j - |out|];
          assert out'[i] in out;
        }
      }
      InnerNoDuplicates(out', work', edges);
    }
  }

  lemma {:induction false} ClosedContainsPaths<T>(edges: seq<Edge<T>>, r: seq<Edge<T>>, a: T, b: T, n: nat)
    requires Edge(a, a) in r && JoinClosed(edges, r, r)
    requires ReachIn(edges, a, b, n)
    ensures Edge(a, b) in r
    decreases n
  {
    if n > 0 {
      var j :| 0 <= j < |edges| && edges[j].dst == b && ReachIn(edges, a, edges[j].src, n - 1);
      ClosedContainsPaths(edges, r, a, edges[j].src, n - 1);
    }
  }

  /** The loop run from the seed ends at exactly the reachable pairs of the
      edge endpoints, each once. */
  lemma ClosureFromSeed<T(!new)>(edges: seq<Edge<T>>)
    ensures NoDuplicates(TransitiveClosureInner([], Seed(edges), edges))
    ensures forall a, b :: Edge(a, b) in TransitiveClosureInner([], Seed(edges), edges) <==>
      a in Nodes(edges) && Reachable(edges, a, b)
  {
    var seed := Seed(edges);
    var r := TransitiveClosureInner([], seed, edges);
    forall e | e in seed ensures InClosure(edges, e) {
      assert ReachIn(edges, e.src, e.dst, 0);
    }
    assert [] + seed == seed;
    InnerInvariant([], seed, edges);
    InnerNoDuplicates([], seed, edges);
    forall a, b | a in Nodes(edges) && Reachable(edges, a, b) ensures Edge(a, b) in r {
      var n: nat :| ReachIn(edges, a, b, n);
      assert Edge(a, a) in seed;
      ClosedContainsPaths(edges, r, a, b, n);
    }
    forall a, b | Edge(a, b) in r ensures a in Nodes(edges) && Reachable(edges, a, b) {
      assert InClosure(edges, Edge(a, b));
    }
  }

  /** Every declared edge is in the closure. */
  lemma ClosureContainsEdges<T(!new)>(edges: seq<Edge<T>>)
    ensures forall j :: 0 <= j < |edges| ==> edges[j] in TransitiveClosure(edges)
  {
    forall j | 0 <= j < |edges| ensures edges[j] in TransitiveClosure(edges) {
      var e := edges[j];
      assert e.src in Nodes(edges);
      ReachStep(edges, e.src, j, 0);
      assert Edge(e.src, e.dst) == e;
    }
  }

  /** The closure is transitive and reflexive on the nodes of the edges. */
  lemma ClosureTransitiveReflexive<T(!new)>(edges: seq<Edge<T>>)
    ensures forall a, b, c ::
      Edge(a, b) in TransitiveClosure(edges) && Edge(b, c) in TransitiveClosure(edges) ==>
        Edge(a, c) in TransitiveClosure(edges)
    ensures forall a :: a in Nodes(edges) ==> Edge(a, a) in TransitiveClosure(edges)
  {
    var r := TransitiveClosure(edges);
    forall a, b, c | Edge(a, b) in r && Edge(b, c) in r ensures Edge(a, c) in r {
      var n: nat :| ReachIn(edges, a, b, n);
      var m: nat :| ReachIn(edges, b, c, m);
      ReachConcat(edges, a, b, c, n, m);
    }
    forall a | a in Nodes(edges) ensures Edge(a, a) in r {
      assert ReachIn(edges, a, a, 0);
    }
  }
}
