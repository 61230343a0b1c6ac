/** `src/physics.rs`: circle colliders and the pairwise overlap pass.
    The pass visits every unordered pair of collider entities once, in the
    order the query's combinations yield them, and reports a collision when
    the distance between the two translations is strictly below the sum of
    the radii. Distances are compared squared, so no square root is needed. */
module Physics {
  import opened Basics

  /** A circle collider; the game only ever builds non-negative radii. */
  datatype Collider = Collider(radius: nat)

  /** One row of the collision query. */
  datatype ColliderEntity = ColliderEntity(id: EntityId, translation: Vec3, collider: Collider)

  datatype CollisionEvent = CollisionEvent(entity1: EntityId, entity2: EntityId)

  /** A pair of query indices (first, second) with first < second. */
  type Pair = (nat, nat)

  function Square(n: int): nat
  {
    if n < 0 then (-n) * (-n) else n * n
  }

  /** |a - b|², over the full 3-D translation. */
  function SquaredDistance(a: Vec3, b: Vec3): nat
  {
    Square(a.x - b.x) + Square(a.y - b.y) + Square(a.z - b.z)
  }

  function Reach(a: ColliderEntity, b: ColliderEntity): nat
  {
    a.collider.radius + b.collider.radius
  }

  /** `axis.length() < r1 + r2`, squared; circles that only touch do not overlap. */
  predicate Overlaps(a: ColliderEntity, b: ColliderEntity)
  {
    SquaredDistance(a.translation, b.translation) < Reach(a, b) * Reach(a, b)
  }

  /** The squared test is the source's length test: for the true length of
      the axis between the two translations, `Overlaps` holds exactly when
      that length is below the sum of the radii. */
  lemma OverlapsIffLengthBelowReach(a: ColliderEntity, b: ColliderEntity, length: real)
    requires 0.0 <= length
    requires length * length == SquaredDistance(a.translation, b.translation) as real
    ensures Overlaps(a, b) <==> length < Reach(a, b) as real
  {
    var reach := Reach(a, b) as real;
    assert (Reach(a, b) * Reach(a, b)) as real == reach * reach;
    if length < reach {
      SquareBelow(length, reach);
    } else {
      SquareBelow(reach, length);
    }
  }

  /** Squaring is monotone on the non-negative reals. */
  lemma SquareBelow(x: real, y: real)
    requires 0.0 <= x <= y
    ensures x * x <= y * y
    ensures x < y ==> x * x < y * y
  {
    var d := y - x;
    assert y * y == x * x + 2.0 * x * d + d * d;
    assert 0.0 <= x * d;
    if x < y {
      assert 0.0 < d * d;
    }
  }

  /** Which entity is `entity1` is immaterial: the test is symmetric. */
  lemma OverlapsSymmetric(a: ColliderEntity, b: ColliderEntity)
    ensures Overlaps(a, b) <==> Overlaps(b, a)
  {
    assert Square(a.translation.x - b.translation.x) == Square(b.translation.x - a.translation.x);
    assert Square(a.translation.y - b.translation.y) == Square(b.translation.y - a.translation.y);
    assert Square(a.translation.z - b.translation.z) == Square(b.translation.z - a.translation.z);
  }

  /** Lexicographic order on index pairs: the order of the query's combinations. */
  predicate Before(p: Pair, q: Pair)
  {
    p.0 < q.0 || (p.0 == q.0 && p.1 < q.1)
  }

  predicate Ascending(ps: seq<Pair>)
  {
    forall a, b :: 0 <= a < b < |ps| ==> Before(ps[a], ps[b])
  }

  predicate ValidPairs(cs: seq<ColliderEntity>, ps: seq<Pair>)
  {
    forall k :: 0 <= k < |ps| ==> ps[k].0 < ps[k].1 < |cs|
  }

  /** The overlapping pairs (i, k), i < k < j, of row i. */
  function RowPairs(cs: seq<ColliderEntity>, i: nat, j: nat): seq<Pair>
    requires i < j <= |cs|
    decreases j
  {
    if j == i + 1 then []
    else RowPairs(cs, i, j - 1) + (if Overlaps(cs[i], cs[j - 1]) then [(i, j - 1)] else [])
  }

  /** The overlapping pairs (a, b), a < b, whose first index is below i. */
  function PairsBefore(cs: seq<ColliderEntity>, i: nat): seq<Pair>
    requires i <= |cs|
  {
    if i == 0 then [] else PairsBefore(cs, i - 1) + RowPairs(cs, i - 1, |cs|)
  }

  function EventsOf(cs: seq<ColliderEntity>, ps: seq<Pair>): (es: seq<CollisionEvent>)
    requires ValidPairs(cs, ps)
    ensures |es| == |ps|
  {
    seq(|ps|, k requires 0 <= k < |ps| => CollisionEvent(cs[ps[k].0].id, cs[ps[k].1].id))
  }

  /** The events of a whole pass, as a reference definition. */
  function CollisionEvents(cs: seq<ColliderEntity>): seq<CollisionEvent>
  {
    PairsBeforeFacts(cs, |cs|);
    EventsOf(cs, PairsBefore(cs, |cs|))
  }

  lemma {:induction false} RowPairsFacts(cs: seq<ColliderEntity>, i: nat, j: nat)
    requires i < j <= |cs|
    ensures forall p :: p in RowPairs(cs, i, j) <==>
      (p.0 == i && i < p.1 < j && Overlaps(cs[i], cs[p.1]))
    ensures ValidPairs(cs, RowPairs(cs, i, j))
    ensures Ascending(RowPairs(cs, i, j))
    ensures |RowPairs(cs, i, j)| <= j - i - 1
    decreases j
  {
    if j > i + 1 {
      RowPairsFacts(cs, i, j - 1);
    }
  }

  lemma {:induction false} PairsBeforeFacts(cs: seq<ColliderEntity>, i: nat)
    requires i <= |cs|
    ensures forall p :: p in PairsBefore(cs, i) <==>
      (p.0 < i && p.0 < p.1 < |cs| && Overlaps(cs[p.0], cs[p.1]))
    ensures ValidPairs(cs, PairsBefore(cs, i))
    ensures Ascending(PairsBefore(cs, i))
    ensures 2 * |PairsBefore(cs, i)| <= i * (2 * |cs| - i - 1)
  {
    PairsBeforeMembership(cs, i);
    PairsBeforeAscending(cs, i);
    PairsBeforeCount(cs, i);
  }

  lemma {:induction false} PairsBeforeMembership(cs: seq<ColliderEntity>, i: nat)
    requires i <= |cs|
    ensures forall p :: p in PairsBefore(cs, i) <==>
      (p.0 < i && p.0 < p.1 < |cs| && Overlaps(cs[p.0], cs[p.1]))
    ensures ValidPairs(cs, PairsBefore(cs, i))
  {
    if i > 0 {
      PairsBeforeMembership(cs, i - 1);
      PairsBeforeStep(cs, i - 1, PairsBefore(cs, i - 1));
    }
  }

  /** Adding row `r` to the overlapping pairs before `r` gives the
      overlapping pairs before `r + 1`. */
  lemma PairsBeforeStep(cs: seq<ColliderEntity>, r: nat, front: seq<Pair>)
    requires r < |cs| && front == PairsBefore(cs, r)
    requires forall p: Pair :: p in front <==> (p.0 < r && p.0 < p.1 < |cs| && Overlaps(cs[p.0], cs[p.1]))
    requires ValidPairs(cs, front)
    ensures forall p: Pair :: p in PairsBefore(cs, r + 1) <==>
      (p.0 <= r && p.0 < p.1 < |cs| && Overlaps(cs[p.0], cs[p.1]))
    ensures ValidPairs(cs, PairsBefore(cs, r + 1))
  {
    RowPairsFacts(cs, r, |cs|);
    var row := RowPairs(cs, r, |cs|);
    assert PairsBefore(cs, r + 1) == front + row;
    ValidPairsAppend(cs, front, row);
    AppendRowMembership(cs, r, front, row);
  }

  /** The overlapping pairs whose first index is below `r`, followed by those
      whose first index is `r`, are the overlapping pairs whose first index
      is at most `r`. */
  lemma AppendRowMembership(cs: seq<ColliderEntity>, r: nat, front: seq<Pair>, row: seq<Pair>)
    requires r < |cs|
    requires forall p: Pair :: p in front <==> (p.0 < r && p.0 < p.1 < |cs| && Overlaps(cs[p.0], cs[p.1]))
    requires forall p: Pair :: p in row <==> (p.0 == r && r < p.1 < |cs| && Overlaps(cs[r], cs[p.1]))
    ensures forall p: Pair :: p in front + row <==> (p.0 <= r && p.0 < p.1 < |cs| && Overlaps(cs[p.0], cs[p.1]))
  {
    forall p: Pair
      ensures p in front + row <==> (p.0 <= r && p.0 < p.1 < |cs| && Overlaps(cs[p.0], cs[p.1]))
    {
      assert p in front + row <==> p in front || p in row;
      if p.0 < r {
        assert p !in row;
      } else if p.0 == r {
        assert p !in front;
      }
    }
  }

  lemma ValidPairsAppend(cs: seq<ColliderEntity>, front: seq<Pair>, row: seq<Pair>)
    requires ValidPairs(cs, front) && ValidPairs(cs, row)
    ensures ValidPairs(cs, front + row)
  {
    forall k | 0 <= k < |front + row|
      ensures (front + row)[k].0 < (front + row)[k].1 < |cs|
    {
      if k < |front| {
        assert (front + row)[k] == front[k];
      } else {
        assert (front + row)[k] == row[k - |front|];
      }
    }
  }

  /** An ascending run of pairs whose first index is below `r`, followed by an
      ascending run of pairs whose first index is `r`, is ascending. */
  lemma AscendingAppend(front: seq<Pair>, row: seq<Pair>, r: nat)
    requires Ascending(front) && Ascending(row)
    requires forall k :: 0 <= k < |front| ==> front[k].0 < r
    requires forall k :: 0 <= k < |row| ==> row[k].0 == r
    ensures Ascending(front + row)
  {
    forall a, b | 0 <= a < b < |front + row|
      ensures Before((front + row)[a], (front + row)[b])
    {
      if b < |front| {
        assert (front + row)[a] == front[a] && (front + row)[b] == front[b];
      } else if a >= |front| {
        assert (front + row)[a] == row[a - |front|] && (front + row)[b] == row[b - |front|];
      } else {
        assert (front + row)[a] == front[a] && (front + row)[b] == row[b - |front|];
      }
    }
  }

  /** Every pair of row `i` has first index `i`. */
  lemma {:induction false} RowPairsFirst(cs: seq<ColliderEntity>, i: nat, j: nat)
    requires i < j <= |cs|
    ensures forall k :: 0 <= k < |RowPairs(cs, i, j)| ==> RowPairs(cs, i, j)[k].0 == i
    decreases j
  {
    if j > i + 1 {
      RowPairsFirst(cs, i, j - 1);
    }
  }

  /** Every pair of the rows before `i` has first index below `i`. */
  lemma {:induction false} PairsBeforeFirst(cs: seq<ColliderEntity>, i: nat)
    requires i <= |cs|
    ensures forall k :: 0 <= k < |PairsBefore(cs, i)| ==> PairsBefore(cs, i)[k].0 < i
  {
    if i > 0 {
      PairsBeforeFirst(cs, i - 1);
      RowPairsFirst(cs, i - 1, |cs|);
      var front: seq<Pair>, row: seq<Pair> := PairsBefore(cs, i - 1), RowPairs(cs, i - 1, |cs|);
      assert PairsBefore(cs, i) == front + row;
      forall k | 0 <= k < |front + row|
        ensures (front + row)[k].0 < i
      {
        if k < |front| {
          assert (front + row)[k] == front[k];
        } else {
          assert (front + row)[k] == row[k - |front|];
        }
      }
    }
  }

  lemma {:induction false} PairsBeforeAscending(cs: seq<ColliderEntity>, i: nat)
    requires i <= |cs|
    ensures Ascending(PairsBefore(cs, i))
  {
    if i > 0 {
      PairsBeforeAscending(cs, i - 1);
      PairsBeforeFirst(cs, i - 1);
      RowPairsFirst(cs, i - 1, |cs|);
      RowPairsFacts(cs, i - 1, |cs|);
      var front, row := PairsBefore(cs, i - 1), RowPairs(cs, i - 1, |cs|);
      assert PairsBefore(cs, i) == front + row;
      AscendingAppend(front, row, i - 1);
    }
  }

  lemma {:induction false} PairsBeforeCount(cs: seq<ColliderEntity>, i: nat)
    requires i <= |cs|
    ensures 2 * |PairsBefore(cs, i)| <= i * (2 * |cs| - i - 1)
  {
    if i > 0 {
      var n := |cs|;
      PairsBeforeCount(cs, i - 1);
      RowPairsFacts(cs, i - 1, n);
      assert |PairsBefore(cs, i)| == |PairsBefore(cs, i - 1)| + |RowPairs(cs, i - 1, n)|;
      assert (i - 1) * (2 * n - (i - 1) - 1) + 2 * (n - i) == i * (2 * n - i - 1);
    }
  }

  lemma EventsOfAppend(cs: seq<ColliderEntity>, ps: seq<Pair>, p: Pair)
    requires ValidPairs(cs, ps) && p.0 < p.1 < |cs|
    ensures ValidPairs(cs, ps + [p])
    ensures EventsOf(cs, ps + [p]) == EventsOf(cs, ps) + [CollisionEvent(cs[p.0].id, cs[p.1].id)]
  {
  }

  /** One step of row `i`: pair (i, j) is added iff the two overlap. */
  lemma RowStep(cs: seq<ColliderEntity>, i: nat, j: nat)
    requires i < j < |cs|
    requires ValidPairs(cs, PairsBefore(cs, i) + RowPairs(cs, i, j))
    ensures ValidPairs(cs, PairsBefore(cs, i) + RowPairs(cs, i, j + 1))
    ensures EventsOf(cs, PairsBefore(cs, i) + RowPairs(cs, i, j + 1)) ==
      EventsOf(cs, PairsBefore(cs, i) + RowPairs(cs, i, j)) +
      (if Overlaps(cs[i], cs[j]) then [CollisionEvent(cs[i].id, cs[j].id)] else [])
  {
    var ps := PairsBefore(cs, i) + RowPairs(cs, i, j);
    if Overlaps(cs[i], cs[j]) {
      assert PairsBefore(cs, i) + RowPairs(cs, i, j + 1) == ps + [(i, j)];
      EventsOfAppend(cs, ps, (i, j));
    } else {
      assert RowPairs(cs, i, j + 1) == RowPairs(cs, i, j);
    }
  }

  /** `check_collisions`: the pairwise pass, as the two nested loops of the
      query's combination iterator. */
  method CheckCollisions(cs: seq<ColliderEntity>) returns (events: seq<CollisionEvent>)
    ensures events == CollisionEvents(cs)
    ensures forall e :: e in events <==>
      (exists i, j :: 0 <= i < j < |cs| && Overlaps(cs[i], cs[j]) &&
        e == CollisionEvent(cs[i].id, cs[j].id))
    ensures |events| <= |cs| * (|cs| - 1) / 2
  {
    events := [];
    var i := 0;
    while i < |cs|
      invariant 0 <= i <= |cs|
      invariant ValidPairs(cs, PairsBefore(cs, i))
      invariant events == EventsOf(cs, PairsBefore(cs, i))
    {
      var j := i + 1;
      assert PairsBefore(cs, i) + RowPairs(cs, i, j) == PairsBefore(cs, i);
      while j < |cs|
        invariant i + 1 <= j <= |cs|
        invariant ValidPairs(cs, PairsBefore(cs, i) + RowPairs(cs, i, j))
        invariant events == EventsOf(cs, PairsBefore(cs, i) + RowPairs(cs, i, j))
      {
        RowStep(cs, i, j);
        if Overlaps(cs[i], cs[j]) {
          events := events + [CollisionEvent(cs[i].id, cs[j].id)];
        }
        j := j + 1;
      }
      assert PairsBefore(cs, i + 1) == PairsBefore(cs, i) + RowPairs(cs, i, |cs|);
      i := i + 1;
    }
    CollisionEventsMembership(cs);
  }

  lemma CollisionEventsMembership(cs: seq<ColliderEntity>)
    ensures forall e :: e in CollisionEvents(cs) <==>
      (exists i, j :: 0 <= i < j < |cs| && Overlaps(cs[i], cs[j]) &&
        e == CollisionEvent(cs[i].id, cs[j].id))
    ensures |CollisionEvents(cs)| <= |cs| * (|cs| - 1) / 2
  {
    EventsComeFromOverlaps(cs);
    OverlapsAreReported(cs);
    CollisionEventsCount(cs);
  }

  lemma EventsComeFromOverlaps(cs: seq<ColliderEntity>)
    ensures forall e :: e in CollisionEvents(cs) ==>
      (exists i, j :: 0 <= i < j < |cs| && Overlaps(cs[i], cs[j]) &&
        e == CollisionEvent(cs[i].id, cs[j].id))
  {
    var ps := PairsBefore(cs, |cs|);
    PairsBeforeMembership(cs, |cs|);
    var es := CollisionEvents(cs);
    forall e | e in es
      ensures exists i, j :: (0 <= i < j < |cs| && Overlaps(cs[i], cs[j]) &&
        e == CollisionEvent(cs[i].id, cs[j].id))
    {
      var k :| 0 <= k < |es| && es[k] == e;
      assert ps[k] in ps;
      var i, j := ps[k].0, ps[k].1;
      assert e == CollisionEvent(cs[i].id, cs[j].id);
    }
  }

  lemma OverlapsAreReported(cs: seq<ColliderEntity>)
    ensures forall i, j :: 0 <= i < j < |cs| && Overlaps(cs[i], cs[j]) ==>
      CollisionEvent(cs[i].id, cs[j].id) in CollisionEvents(cs)
  {
    var ps := PairsBefore(cs, |cs|);
    PairsBeforeMembership(cs, |cs|);
    var es := CollisionEvents(cs);
    forall i, j | 0 <= i < j < |cs| && Overlaps(cs[i], cs[j])
      ensures CollisionEvent(cs[i].id, cs[j].id) in es
    {
      assert (i, j) in ps;
      var k :| 0 <= k < |ps| && ps[k] == (i, j);
      assert es[k] == CollisionEvent(cs[i].id, cs[j].id);
    }
  }

  lemma CollisionEventsCount(cs: seq<ColliderEntity>)
    ensures |CollisionEvents(cs)| <= |cs| * (|cs| - 1) / 2
  {
    var n := |cs|;
    PairsBeforeCount(cs, n);
    assert n * (2 * n - n - 1) == n * (n - 1);
    assert 2 * |CollisionEvents(cs)| <= n * (n - 1);
  }

  predicate DistinctIds(cs: seq<ColliderEntity>)
  {
    forall a, b :: 0 <= a < |cs| && 0 <= b < |cs| && a != b ==> cs[a].id != cs[b].id
  }

  /** The same two entities, in either order. */
  predicate SameEntities(e: CollisionEvent, f: CollisionEvent)
  {
    (e.entity1 == f.entity1 && e.entity2 == f.entity2) ||
    (e.entity1 == f.entity2 && e.entity2 == f.entity1)
  }

  /** With distinct entity ids, no entity collides with itself and each
      unordered pair of entities is reported at most once. */
  lemma EachPairReportedOnce(cs: seq<ColliderEntity>)
    requires DistinctIds(cs)
    ensures forall k :: 0 <= k < |CollisionEvents(cs)| ==>
      CollisionEvents(cs)[k].entity1 != CollisionEvents(cs)[k].entity2
    ensures forall a, b :: 0 <= a < b < |CollisionEvents(cs)| ==>
      !SameEntities(CollisionEvents(cs)[a], CollisionEvents(cs)[b])
  {
    var ps := PairsBefore(cs, |cs|);
    PairsBeforeFacts(cs, |cs|);
    var es := CollisionEvents(cs);
    forall a, b | 0 <= a < b < |es|
      ensures !SameEntities(es[a], es[b])
    {
      var p, q := ps[a], ps[b];
      assert Before(p, q);
      assert es[a] == CollisionEvent(cs[p.0].id, cs[p.1].id);
      assert es[b] == CollisionEvent(cs[q.0].id, cs[q.1].id);
    }
  }
}
