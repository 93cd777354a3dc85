/// The relation view shown once every slot is filled (drawRelationLines): one
/// counter edge per ally/enemy pair, the normaliser of the edge widths and
/// the arrows that are drawn.
module RelationView {
  import opened Resolver

  /** One entry of the delta list: ally slot i against enemy slot j. */
  datatype Edge = Edge(i: nat, j: nat, delta: real)

  /** One arrow: from the ally slot to the enemy slot when the ally side is
      favoured, the other way otherwise; weight is `|delta| / maxDelta`. */
  datatype Arrow = Arrow(fromAlly: bool, i: nat, j: nat, weight: real)

  function Abs(x: real): real {
    if x < 0.0 then -x else x
  }

  /** The edge delta exactly as script.js:336 computes it: when only the
      backward score is nonzero it doubles that score without negating it. */
  function EdgeDeltaAsWritten(fwd: real, bwd: real): real {
    if fwd != 0.0 && bwd == 0.0 then fwd * 2.0
    else if fwd == 0.0 && bwd != 0.0 then bwd * 2.0
    else fwd - bwd
  }

  /** The edge delta with the one-sided backward case negated, so that its sign
      always says which side holds the advantage. */
  function EdgeDelta(fwd: real, bwd: real): real {
    if fwd != 0.0 && bwd == 0.0 then fwd * 2.0
    else if fwd == 0.0 && bwd != 0.0 then -bwd * 2.0
    else fwd - bwd
  }

  /** The corrected delta favours the ally exactly when the ally's score
      exceeds the enemy's, favours the enemy exactly when it falls short,
      and is 0 only for equal scores. */
  lemma EdgeDeltaSign(fwd: real, bwd: real)
    ensures EdgeDelta(fwd, bwd) > 0.0 <==> fwd > bwd
    ensures EdgeDelta(fwd, bwd) < 0.0 <==> fwd < bwd
  {
  }

  /** The input that shows the defect: a table storing 0 for ally-vs-enemy
      and 3 for enemy-vs-ally. The enemy holds the advantage (fwd < bwd), yet
      the delta as written is +6 and the arrow is drawn from the ally; the
      corrected delta is -6. */
  lemma AsWrittenMisorients()
    ensures var t: Table := map["a" := map["e" := 0.0], "e" := map["a" := 3.0]];
      var fwd, bwd := Counter(t, "a", "e"), Counter(t, "e", "a");
      && fwd == 0.0 && bwd == 3.0 && fwd < bwd
      && EdgeDeltaAsWritten(fwd, bwd) == 6.0
      && EdgeDelta(fwd, bwd) == -6.0
  {
    var t: Table := map["a" := map["e" := 0.0], "e" := map["a" := 3.0]];
    assert Stored(t, "a", "e");
  }

  /** When the table stores at most one direction of the pair, the lookup
      already gives fwd = -bwd, the one-sided cases cannot arise, and both
      versions give twice the ally's counter score. */
  lemma AgreeWhenOneDirectional(t: Table, a: HeroId, e: HeroId)
    requires !(Stored(t, a, e) && Stored(t, e, a))
    ensures var fwd, bwd := Counter(t, a, e), Counter(t, e, a);
      EdgeDeltaAsWritten(fwd, bwd) == EdgeDelta(fwd, bwd) == 2.0 * fwd
  {
    CounterAntisymmetric(t, a, e);
  }

  // ---------------------------------------------------------------------------
  // The edges

  /** The pair (i, j) has both slots filled and a nonzero score in some
      direction. */
  predicate Linked(t: Table, ally: seq<Slot>, enemy: seq<Slot>, i: nat, j: nat) {
    && i < |ally| && j < |enemy| && ally[i].Some? && enemy[j].Some?
    && !(Counter(t, ally[i].value, enemy[j].value) == 0.0 && Counter(t, enemy[j].value, ally[i].value) == 0.0)
  }

  /** The delta of a linked pair: ally-vs-enemy forward, enemy-vs-ally
      backward. */
  function PairDelta(t: Table, ally: seq<Slot>, enemy: seq<Slot>, i: nat, j: nat): real
    requires Linked(t, ally, enemy, i, j)
  {
    EdgeDelta(Counter(t, ally[i].value, enemy[j].value), Counter(t, enemy[j].value, ally[i].value))
  }

  /** The edge records a linked pair with its delta. */
  predicate EdgeFor(t: Table, ally: seq<Slot>, enemy: seq<Slot>, e: Edge) {
    Linked(t, ally, enemy, e.i, e.j) && e.delta == PairDelta(t, ally, enemy, e.i, e.j)
  }

  /** (i, j) comes before (i', j') in row-major order. */
  predicate PairBefore(i: nat, j: nat, i': nat, j': nat) {
    i < i' || (i == i' && j < j')
  }

  ghost predicate Covered(edges: seq<Edge>, i: nat, j: nat) {
    exists k :: 0 <= k < |edges| && edges[k].i == i && edges[k].j == j
  }

  predicate RowMajor(edges: seq<Edge>) {
    forall k, l :: 0 <= k < l < |edges| ==> PairBefore(edges[k].i, edges[k].j, edges[l].i, edges[l].j)
  }

  /** The double loop of drawRelationLines that collects `deltas`: exactly one
      edge per linked pair of the first n slots, in row-major order. */
  method RelationDeltas(t: Table, ally: seq<Slot>, enemy: seq<Slot>, n: nat) returns (edges: seq<Edge>)
    requires n <= |ally| && n <= |enemy|
    ensures forall k :: 0 <= k < |edges| ==> edges[k].i < n && edges[k].j < n && EdgeFor(t, ally, enemy, edges[k])
    ensures forall i, j :: 0 <= i < n && 0 <= j < n && Linked(t, ally, enemy, i, j) ==> Covered(edges, i, j)
    ensures RowMajor(edges)
  {
    edges := [];
    for i := 0 to n
      invariant forall k :: 0 <= k < |edges| ==> edges[k].i < i && edges[k].j < n && EdgeFor(t, ally, enemy, edges[k])
      invariant forall i', j' :: 0 <= i' < i && 0 <= j' < n && Linked(t, ally, enemy, i', j') ==> Covered(edges, i', j')
      invariant RowMajor(edges)
    {
      for j := 0 to n
        invariant forall k :: 0 <= k < |edges| ==> PairBefore(edges[k].i, edges[k].j, i, j) && edges[k].j < n && EdgeFor(t, ally, enemy, edges[k])
        invariant forall i', j' :: 0 <= i' < n && 0 <= j' < n && PairBefore(i', j', i, j) && Linked(t, ally, enemy, i', j') ==> Covered(edges, i', j')
        invariant RowMajor(edges)
      {
        if ally[i].None? || enemy[j].None? {
          continue;
        }
        var fwd := Counter(t, ally[i].value, enemy[j].value);
        var bwd := Counter(t, enemy[j].value, ally[i].value);
        if fwd == 0.0 && bwd == 0.0 {
          continue;
        }
        var old_edges := edges;
        edges := edges + [Edge(i, j, EdgeDelta(fwd, bwd))];
        assert forall i', j' :: Covered(old_edges, i', j') ==> Covered(edges, i', j') by {
          forall i', j' | Covered(old_edges, i', j') ensures Covered(edges, i', j') {
            var k :| 0 <= k < |old_edges| && old_edges[k].i == i' && old_edges[k].j == j';
            assert edges[k] == old_edges[k];
          }
        }
        assert edges[|edges| - 1] == Edge(i, j, EdgeDelta(fwd, bwd));
      }
    }
  }

  /** The normaliser of the arrow widths: the largest delta magnitude, or 1
      when that is smaller. */
  function MaxMagnitude(edges: seq<Edge>): (m: real)
    ensures m >= 1.0
    ensures forall k :: 0 <= k < |edges| ==> Abs(edges[k].delta) <= m
    ensures m == 1.0 || exists k :: 0 <= k < |edges| && Abs(edges[k].delta) == m
  {
    if edges == [] then 1.0
    else
      var rest := MaxMagnitude(edges[1..]);
      var here := Abs(edges[0].delta);
      assert forall k :: 1 <= k < |edges| ==> edges[k] == edges[1..][k - 1];
      if here > rest then here else rest
  }

  /** The arrow drawn for an edge under normaliser m. */
  function ArrowOf(e: Edge, m: real): Arrow
    requires m > 0.0
  {
    Arrow(e.delta > 0.0, e.i, e.j, Abs(e.delta) / m)
  }

  /** The smallest magnitude that is still drawn. */
  const MinDrawn: real := 0.1

  lemma WeightInRange(x: real, m: real)
    requires 0.0 < x <= m
    ensures 0.0 < x / m <= 1.0
  {
    assert x / m * m == x;
  }

  /** The arrows run in row-major order of their slot pairs, so no pair has
      two arrows. */
  predicate ArrowsRowMajor(arrows: seq<Arrow>) {
    forall k, l :: 0 <= k < l < |arrows| ==> PairBefore(arrows[k].i, arrows[k].j, arrows[l].i, arrows[l].j)
  }

  /** No edge is longer than the normaliser m. */
  predicate Bounded(edges: seq<Edge>, m: real) {
    forall k :: 0 <= k < |edges| ==> Abs(edges[k].delta) <= m
  }

  /** The forEach of drawRelationLines: one arrow per edge whose magnitude is
      at least 0.1, in edge order; every weight lies in (0, 1]. */
  function Arrows(edges: seq<Edge>, m: real): (r: seq<Arrow>)
    requires m >= 1.0 && Bounded(edges, m)
    ensures |r| <= |edges|
    ensures forall a :: a in r ==> 0.0 < a.weight <= 1.0
    ensures forall a :: a in r ==> exists e :: e in edges && Abs(e.delta) >= MinDrawn && a == ArrowOf(e, m)
    ensures forall e :: e in edges && Abs(e.delta) >= MinDrawn ==> ArrowOf(e, m) in r
  {
    if edges == [] then []
    else
      var e := edges[0];
      assert forall k :: 1 <= k < |edges| ==> edges[k] == edges[1..][k - 1];
      var rest := Arrows(edges[1..], m);
      assert forall x :: x in edges <==> x == e || x in edges[1..];
      if Abs(e.delta) < MinDrawn then rest
      else
        WeightInRange(Abs(e.delta), m);
        [ArrowOf(e, m)] + rest
  }

  /** Every arrow of a later edge comes after the pair of an earlier edge. */
  lemma ArrowsAfter(e: Edge, tail: seq<Edge>, m: real)
    requires m >= 1.0 && Bounded(tail, m)
    requires forall k :: 0 <= k < |tail| ==> PairBefore(e.i, e.j, tail[k].i, tail[k].j)
    ensures forall a :: a in Arrows(tail, m) ==> PairBefore(e.i, e.j, a.i, a.j)
  {
    forall a | a in Arrows(tail, m) ensures PairBefore(e.i, e.j, a.i, a.j) {
      var e' :| e' in tail && Abs(e'.delta) >= MinDrawn && a == ArrowOf(e', m);
      var k :| 0 <= k < |tail| && tail[k] == e';
    }
  }

  lemma ArrowsRowMajorCons(x: Arrow, rest: seq<Arrow>)
    requires ArrowsRowMajor(rest)
    requires forall a :: a in rest ==> PairBefore(x.i, x.j, a.i, a.j)
    ensures ArrowsRowMajor([x] + rest)
  {
    var r := [x] + rest;
    forall k, l | 0 <= k < l < |r| ensures PairBefore(r[k].i, r[k].j, r[l].i, r[l].j) {
      assert r[l] == rest[l - 1] && r[l] in rest;
      if k > 0 { assert r[k] == rest[k - 1]; }
    }
  }

  /** Edges in row-major order give arrows in row-major order. */
  lemma {:induction false} ArrowsInOrder(edges: seq<Edge>, m: real)
    requires m >= 1.0 && Bounded(edges, m) && RowMajor(edges)
    ensures ArrowsRowMajor(Arrows(edges, m))
  {
    if edges != [] {
      var e, tail := edges[0], edges[1..];
      assert forall k :: 0 <= k < |tail| ==> tail[k] == edges[k + 1];
      ArrowsInOrder(tail, m);
      if Abs(e.delta) >= MinDrawn {
        ArrowsAfter(e, tail, m);
        ArrowsRowMajorCons(ArrowOf(e, m), Arrows(tail, m));
      }
    }
  }

  lemma BoundedAppend(a: seq<Edge>, b: seq<Edge>, m: real)
    requires Bounded(a, m) && Bounded(b, m)
    ensures Bounded(a + b, m)
  {
    var ab := a + b;
    forall k | 0 <= k < |ab| ensures Abs(ab[k].delta) <= m {
      if k >= |a| { assert ab[k] == b[k - |a|]; }
    }
  }

  /** The arrows of two runs of edges are the arrows of the first run followed
      by those of the second: one arrow per drawn edge, in edge order. */
  lemma {:induction false} ArrowsAppend(a: seq<Edge>, b: seq<Edge>, m: real)
    requires m >= 1.0 && Bounded(a, m) && Bounded(b, m)
    ensures Bounded(a + b, m)
    ensures Arrows(a + b, m) == Arrows(a, m) + Arrows(b, m)
  {
    BoundedAppend(a, b, m);
    if a == [] {
      assert a + b == b;
    } else {
      assert (a + b)[1..] == a[1..] + b;
      assert Bounded(a[1..], m) by {
        assert forall k :: 0 <= k < |a[1..]| ==> a[1..][k] == a[k + 1];
      }
      ArrowsAppend(a[1..], b, m);
    }
  }

  /** drawRelationLines: nothing when no pair is linked; otherwise maxDelta is
      the largest magnitude of a linked pair (at least 1), and the arrows are
      those of the linked pairs of magnitude at least 0.1, one per pair in
      row-major order, pointing from the favoured side, each as thick as its
      magnitude over maxDelta. */
  method DrawRelationLines(t: Table, ally: seq<Slot>, enemy: seq<Slot>, n: nat) returns (arrows: seq<Arrow>, maxDelta: real)
    requires n <= |ally| && n <= |enemy|
    ensures maxDelta >= 1.0
    ensures forall i, j :: 0 <= i < n && 0 <= j < n && Linked(t, ally, enemy, i, j) ==> Abs(PairDelta(t, ally, enemy, i, j)) <= maxDelta
    ensures maxDelta == 1.0 || exists i, j :: 0 <= i < n && 0 <= j < n && Linked(t, ally, enemy, i, j) && Abs(PairDelta(t, ally, enemy, i, j)) == maxDelta
    ensures forall a :: a in arrows ==> 0.0 < a.weight <= 1.0 && a.i < n && a.j < n
    ensures forall a :: a in arrows ==>
      && Linked(t, ally, enemy, a.i, a.j)
      && Abs(PairDelta(t, ally, enemy, a.i, a.j)) >= MinDrawn
      && (a.fromAlly <==> PairDelta(t, ally, enemy, a.i, a.j) > 0.0)
      && a.weight == Abs(PairDelta(t, ally, enemy, a.i, a.j)) / maxDelta
    ensures forall i, j ::
      (0 <= i < n && 0 <= j < n && Linked(t, ally, enemy, i, j) && Abs(PairDelta(t, ally, enemy, i, j)) >= MinDrawn)
      ==> exists a :: a in arrows && a.i == i && a.j == j
    ensures ArrowsRowMajor(arrows)
  {
    var deltas := RelationDeltas(t, ally, enemy, n);
    if deltas == [] {
      return [], 1.0;
    }
    maxDelta := MaxMagnitude(deltas);
    arrows := Arrows(deltas, maxDelta);
    ArrowsInOrder(deltas, maxDelta);
    forall i, j | 0 <= i < n && 0 <= j < n && Linked(t, ally, enemy, i, j)
      ensures Abs(PairDelta(t, ally, enemy, i, j)) <= maxDelta
      ensures Abs(PairDelta(t, ally, enemy, i, j)) >= MinDrawn ==> exists a :: a in arrows && a.i == i && a.j == j
    {
      var k :| 0 <= k < |deltas| && deltas[k].i == i && deltas[k].j == j;
      assert deltas[k] in deltas;
      if Abs(PairDelta(t, ally, enemy, i, j)) >= MinDrawn {
        assert ArrowOf(deltas[k], maxDelta) in arrows;
      }
    }
    if maxDelta != 1.0 {
      var k :| 0 <= k < |deltas| && Abs(deltas[k].delta) == maxDelta;
      assert Linked(t, ally, enemy, deltas[k].i, deltas[k].j);
    }
  }
}
