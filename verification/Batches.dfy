/**
 What a batch of points does to stores, on values.

 A store is one segment's tree: key text to point. The batch code first keeps the last version of
 every id, then groups ids by shard, then writes each group in order. `UpsertEach` is the simple form
 that this must agree with: every point of the batch on its own, in input order.
 */
module Batches {
  import opened Types
  import opened IdText
  import opened Ring

  type Store = map<string, Point>
  type Stores = map<ShardId, Store>
  type Versions = map<PointId, Point>

  /** The tree after inserting the points in order. */
  function Written(store: Store, points: seq<Point>): Store {
    if points == [] then store
    else
      var last := points[|points| - 1];
      Written(store, points[..|points| - 1])[IntoString(last.id) := last]
  }

  /** Points are inserted one after another, each under the key of its id. */
  lemma {:induction false} WrittenInOrder(store: Store, a: seq<Point>, b: seq<Point>, p: Point)
    ensures Written(store, a + b) == Written(Written(store, a), b)
    ensures Written(store, [p]) == store[IntoString(p.id) := p]
  {
    assert [p][..0] == [];
    if b == [] {
      assert a + b == a;
    } else {
      WrittenInOrder(store, a, b[..|b| - 1], p);
      assert (a + b)[..|a + b| - 1] == a + b[..|b| - 1];
    }
  }

  /** The last point of a sequence stored under key `k`. */
  function LastAt(points: seq<Point>, k: string): Option<Point> {
    if points == [] then None
    else if IntoString(points[|points| - 1].id) == k then Some(points[|points| - 1])
    else LastAt(points[..|points| - 1], k)
  }

  lemma {:induction false} WrittenAt(store: Store, points: seq<Point>, k: string)
    ensures Get(Written(store, points), k) ==
            if LastAt(points, k).Some? then LastAt(points, k) else Get(store, k)
  {
    if points != [] {
      WrittenAt(store, points[..|points| - 1], k);
    }
  }

  lemma {:induction false} LastAtOccurs(points: seq<Point>, k: string)
    ensures LastAt(points, k).Some? ==>
              LastAt(points, k).value in points && IntoString(LastAt(points, k).value.id) == k
    ensures LastAt(points, k).None? ==> forall p :: p in points ==> IntoString(p.id) != k
  {
    if points != [] {
      LastAtOccurs(points[..|points| - 1], k);
      assert points == points[..|points| - 1] + [points[|points| - 1]];
    }
  }

  function Ids(points: seq<Point>): (ids: seq<PointId>)
    ensures |ids| == |points|
    ensures forall i :: 0 <= i < |points| ==> ids[i] == points[i].id
  {
    seq(|points|, i requires 0 <= i < |points| => points[i].id)
  }

  /** The hash map a batch is collected into. */
  function PointsMap(points: seq<Point>): Versions {
    if points == [] then map[]
    else PointsMap(points[..|points| - 1])[points[|points| - 1].id := points[|points| - 1]]
  }

  /** The version kept of an id is its last occurrence in the batch. */
  lemma {:induction false} LastVersionWins(points: seq<Point>, i: nat)
    requires i < |points|
    requires forall j :: i < j < |points| ==> points[j].id != points[i].id
    ensures points[i].id in PointsMap(points) && PointsMap(points)[points[i].id] == points[i]
  {
    if i < |points| - 1 {
      LastVersionWins(points[..|points| - 1], i);
    }
  }

  lemma {:induction false} PointsMapIds(points: seq<Point>)
    ensures forall id :: id in PointsMap(points) <==> id in Ids(points)
    ensures forall id :: id in PointsMap(points) ==> PointsMap(points)[id].id == id && PointsMap(points)[id] in points
  {
    if points != [] {
      var init, last := points[..|points| - 1], points[|points| - 1];
      PointsMapIds(init);
      assert points == init + [last];
      assert Ids(points) == Ids(init) + [last.id];
    }
  }

  /** The ids that the ring sends to shard `s`, duplicates and order kept. */
  function IdsRoutedTo(ring: HashRing, ids: seq<PointId>, s: ShardId): seq<PointId> {
    if ids == [] then []
    else
      var before := IdsRoutedTo(ring, ids[..|ids| - 1], s);
      if ring.At(ids[|ids| - 1]) == s then before + [ids[|ids| - 1]] else before
  }

  function RoutedTo(ring: HashRing, points: seq<Point>, s: ShardId): seq<Point> {
    if points == [] then []
    else
      var before := RoutedTo(ring, points[..|points| - 1], s);
      if ring.At(points[|points| - 1].id) == s then before + [points[|points| - 1]] else before
  }

  /** Looks every id up, skipping those without a version. */
  function LookUp(versions: Versions, ids: seq<PointId>): seq<Point> {
    if ids == [] then []
    else
      var before := LookUp(versions, ids[..|ids| - 1]);
      if ids[|ids| - 1] in versions then before + [versions[ids[|ids| - 1]]] else before
  }

  /** The points a shard is sent: its ids in batch order, each in its last version. */
  function Group(ring: HashRing, points: seq<Point>, s: ShardId): seq<Point> {
    LookUp(PointsMap(points), IdsRoutedTo(ring, Ids(points), s))
  }

  /** The simple form: each point of the batch alone, in order. */
  function UpsertEach(ring: HashRing, stores: Stores, points: seq<Point>): Stores {
    if points == [] then stores
    else
      var before := UpsertEach(ring, stores, points[..|points| - 1]);
      var last := points[|points| - 1];
      var s := ring.At(last.id);
      if s in before then before[s := before[s][IntoString(last.id) := last]] else before
  }

  /** Two batches one after the other are one batch. */
  lemma {:induction false} UpsertEachInOrder(ring: HashRing, stores: Stores, a: seq<Point>, b: seq<Point>)
    ensures UpsertEach(ring, stores, a + b) == UpsertEach(ring, UpsertEach(ring, stores, a), b)
  {
    if b == [] {
      assert a + b == a;
    } else {
      UpsertEachInOrder(ring, stores, a, b[..|b| - 1]);
      assert (a + b)[..|a + b| - 1] == a + b[..|b| - 1];
    }
  }

  /** One point goes to its shard, under its key. */
  lemma UpsertOne(ring: HashRing, stores: Stores, p: Point)
    requires stores.Keys == ring.nodes && stores.Keys != {}
    ensures var s := ring.At(p.id);
            UpsertEach(ring, stores, [p]) == stores[s := stores[s][IntoString(p.id) := p]]
  {
    assert [p][..0] == [];
  }

  lemma {:induction false} UpsertEachByShard(ring: HashRing, stores: Stores, points: seq<Point>)
    ensures UpsertEach(ring, stores, points).Keys == stores.Keys
    ensures forall s :: s in stores ==>
              UpsertEach(ring, stores, points)[s] == Written(stores[s], RoutedTo(ring, points, s))
  {
    if points != [] {
      var init, last := points[..|points| - 1], points[|points| - 1];
      UpsertEachByShard(ring, stores, init);
      forall s | s in stores
        ensures UpsertEach(ring, stores, points)[s] == Written(stores[s], RoutedTo(ring, points, s))
      {
        if ring.At(last.id) == s {
          var routed := RoutedTo(ring, points, s);
          assert routed[..|routed| - 1] == RoutedTo(ring, init, s);
        }
      }
    }
  }

  // ---------- grouped writes agree with the simple form ----------

  /** The id belongs in cell (s, k). */
  predicate Lands(ring: HashRing, id: PointId, s: ShardId, k: string) {
    ring.At(id) == s && IntoString(id) == k
  }

  lemma LookUpSnoc(versions: Versions, ids: seq<PointId>, id: PointId)
    requires id in versions
    ensures LookUp(versions, ids + [id]) == LookUp(versions, ids) + [versions[id]]
  {
    assert (ids + [id])[..|ids|] == ids;
  }

  lemma LastAtSnoc(points: seq<Point>, p: Point, k: string)
    ensures LastAt(points + [p], k) == if IntoString(p.id) == k then Some(p) else LastAt(points, k)
  {
    assert (points + [p])[..|points|] == points;
  }

  lemma RoutedPrefix(ring: HashRing, points: seq<Point>, j: nat, s: ShardId)
    requires 0 < j <= |points|
    ensures var p, ids, plain := points[j - 1], IdsRoutedTo(ring, Ids(points)[..j - 1], s),
            RoutedTo(ring, points[..j - 1], s);
            && IdsRoutedTo(ring, Ids(points)[..j], s) == (if ring.At(p.id) == s then ids + [p.id] else ids)
            && RoutedTo(ring, points[..j], s) == if ring.At(p.id) == s then plain + [p] else plain
  {
    assert Ids(points)[..j][..j - 1] == Ids(points)[..j - 1] && points[..j][..j - 1] == points[..j - 1];
  }

  /** The last point at `k` among the final versions of the first `j` ids that go to shard `s`. */
  function GroupedLastAt(ring: HashRing, points: seq<Point>, j: nat, s: ShardId, k: string): Option<Point>
    requires j <= |points|
  {
    LastAt(LookUp(PointsMap(points), IdsRoutedTo(ring, Ids(points)[..j], s)), k)
  }

  /** One id further, either sequence has a new last point at `k` only if that id belongs in cell (s, k). */
  lemma LastAtPrefix(ring: HashRing, points: seq<Point>, j: nat, s: ShardId, k: string)
    requires 0 < j <= |points|
    ensures var p := points[j - 1];
            && p.id in PointsMap(points)
            && GroupedLastAt(ring, points, j, s, k) ==
                 (if Lands(ring, p.id, s, k) then Some(PointsMap(points)[p.id])
                  else GroupedLastAt(ring, points, j - 1, s, k))
            && LastAt(RoutedTo(ring, points[..j], s), k) ==
                 if Lands(ring, p.id, s, k) then Some(p) else LastAt(RoutedTo(ring, points[..j - 1], s), k)
  {
    var p := points[j - 1];
    RoutedPrefix(ring, points, j, s);
    PointsMapIds(points);
    assert Ids(points)[j - 1] == p.id;
    LookUpSnoc(PointsMap(points), IdsRoutedTo(ring, Ids(points)[..j - 1], s), p.id);
    LastAtSnoc(LookUp(PointsMap(points), IdsRoutedTo(ring, Ids(points)[..j - 1], s)), PointsMap(points)[p.id], k);
    LastAtSnoc(RoutedTo(ring, points[..j - 1], s), p, k);
  }

  /** From position `j` on, nothing belongs in cell (s, k). */
  predicate NothingLands(ring: HashRing, points: seq<Point>, j: nat, s: ShardId, k: string) {
    forall i :: j <= i < |points| ==> !Lands(ring, points[i].id, s, k)
  }

  /** So what lands just before `j` is its id's last version. */
  lemma LandingIsLast(ring: HashRing, points: seq<Point>, j: nat, s: ShardId, k: string)
    requires 0 < j <= |points| && NothingLands(ring, points, j, s, k) && Lands(ring, points[j - 1].id, s, k)
    ensures points[j - 1].id in PointsMap(points) && PointsMap(points)[points[j - 1].id] == points[j - 1]
  {
    forall i | j - 1 < i < |points|
      ensures points[i].id != points[j - 1].id
    {
      assert !Lands(ring, points[i].id, s, k);
    }
    LastVersionWins(points, j - 1);
  }

  lemma NothingLandsBefore(ring: HashRing, points: seq<Point>, j: nat, s: ShardId, k: string)
    requires 0 < j <= |points| && NothingLands(ring, points, j, s, k) && !Lands(ring, points[j - 1].id, s, k)
    ensures NothingLands(ring, points, j - 1, s, k)
  {
  }

  /**
   Up to position `j`, when nothing after `j` lands in cell (s, k): the grouped sequence, which holds
   final versions, has the same last point at `k` as the plain sequence.
   */
  lemma {:induction false} GroupLastAt(ring: HashRing, points: seq<Point>, j: nat, s: ShardId, k: string)
    requires j <= |points| && NothingLands(ring, points, j, s, k)
    ensures GroupedLastAt(ring, points, j, s, k) == LastAt(RoutedTo(ring, points[..j], s), k)
  {
    if j == 0 {
      assert Ids(points)[..0] == [] && points[..0] == [];
    } else if Lands(ring, points[j - 1].id, s, k) {
      LastAtPrefix(ring, points, j, s, k);
      LandingIsLast(ring, points, j, s, k);
    } else {
      LastAtPrefix(ring, points, j, s, k);
      NothingLandsBefore(ring, points, j, s, k);
      GroupLastAt(ring, points, j - 1, s, k);
    }
  }

  /** Keeping last versions and grouping changes no cell, even when different ids share a key. */
  lemma GroupWritesLikeOneByOne(ring: HashRing, points: seq<Point>, s: ShardId, store: Store)
    ensures Written(store, Group(ring, points, s)) == Written(store, RoutedTo(ring, points, s))
  {
    forall k
      ensures Get(Written(store, Group(ring, points, s)), k) == Get(Written(store, RoutedTo(ring, points, s)), k)
    {
      assert Ids(points)[..|points|] == Ids(points) && points[..|points|] == points;
      GroupLastAt(ring, points, |points|, s, k);
      WrittenAt(store, Group(ring, points, s), k);
      WrittenAt(store, RoutedTo(ring, points, s), k);
    }
    SameLookups(Written(store, Group(ring, points, s)), Written(store, RoutedTo(ring, points, s)));
  }

  lemma {:induction false} RoutedIdsExactly(ring: HashRing, ids: seq<PointId>, s: ShardId)
    ensures forall id :: id in IdsRoutedTo(ring, ids, s) <==> id in ids && ring.At(id) == s
  {
    if ids != [] {
      RoutedIdsExactly(ring, ids[..|ids| - 1], s);
      assert ids == ids[..|ids| - 1] + [ids[|ids| - 1]];
    }
  }

  /** A list of ids is split by shard id by id, in its order. */
  lemma {:induction false} RoutedInOrder(ring: HashRing, a: seq<PointId>, b: seq<PointId>, id: PointId, s: ShardId)
    ensures IdsRoutedTo(ring, a + b, s) == IdsRoutedTo(ring, a, s) + IdsRoutedTo(ring, b, s)
    ensures IdsRoutedTo(ring, [id], s) == if ring.At(id) == s then [id] else []
  {
    assert [id][..0] == [];
    if b == [] {
      assert a + b == a;
    } else {
      RoutedInOrder(ring, a, b[..|b| - 1], id, s);
      assert (a + b)[..|a + b| - 1] == a + b[..|b| - 1];
    }
  }

  lemma {:induction false} LookUpExactly(versions: Versions, ids: seq<PointId>)
    requires forall id :: id in versions ==> versions[id].id == id
    ensures forall p :: p in LookUp(versions, ids) <==> p.id in ids && p.id in versions && versions[p.id] == p
  {
    if ids != [] {
      LookUpExactly(versions, ids[..|ids| - 1]);
      assert ids == ids[..|ids| - 1] + [ids[|ids| - 1]];
    }
  }

  /** A shard's group holds the last version of every batch id routed to it, and nothing else. */
  lemma GroupExactly(ring: HashRing, points: seq<Point>, s: ShardId)
    ensures forall p :: p in Group(ring, points, s) <==>
                        p.id in PointsMap(points) && PointsMap(points)[p.id] == p && ring.At(p.id) == s
  {
    PointsMapIds(points);
    RoutedIdsExactly(ring, Ids(points), s);
    LookUpExactly(PointsMap(points), IdsRoutedTo(ring, Ids(points), s));
  }

  // ---------- what a write may do to one cell ----------

  /** A cell keeps its point or takes the given version of an id that belongs in it. */
  ghost predicate OldOrVersion(ring: HashRing, versions: Versions, s: ShardId, k: string,
                               before: Option<Point>, after: Option<Point>) {
    after == before ||
    exists id :: id in versions && Lands(ring, id, s, k) && after == Some(versions[id])
  }

  ghost predicate Touched(ring: HashRing, versions: Versions, before: Stores, after: Stores) {
    && before.Keys == after.Keys
    && forall s, k :: s in before ==> OldOrVersion(ring, versions, s, k, Get(before[s], k), Get(after[s], k))
  }

  predicate SubVersions(small: Versions, big: Versions) {
    forall id :: id in small ==> id in big && small[id] == big[id]
  }

  predicate Holds(ring: HashRing, stores: Stores, p: Point) {
    ring.At(p.id) in stores && Get(stores[ring.At(p.id)], IntoString(p.id)) == Some(p)
  }

  lemma TouchedTransitive(ring: HashRing, versions: Versions, a: Stores, b: Stores, c: Stores)
    requires Touched(ring, versions, a, b) && Touched(ring, versions, b, c)
    ensures Touched(ring, versions, a, c)
  {
    forall s, k | s in a
      ensures OldOrVersion(ring, versions, s, k, Get(a[s], k), Get(c[s], k))
    {
      assert OldOrVersion(ring, versions, s, k, Get(a[s], k), Get(b[s], k));
      assert OldOrVersion(ring, versions, s, k, Get(b[s], k), Get(c[s], k));
    }
  }

  lemma TouchedWiden(ring: HashRing, small: Versions, big: Versions, a: Stores, b: Stores)
    requires SubVersions(small, big) && Touched(ring, small, a, b)
    ensures Touched(ring, big, a, b)
  {
    forall s, k | s in a
      ensures OldOrVersion(ring, big, s, k, Get(a[s], k), Get(b[s], k))
    {
      assert OldOrVersion(ring, small, s, k, Get(a[s], k), Get(b[s], k));
    }
  }

  /** Writing any points of a group, in any number, only moves cells to last versions. */
  lemma WrittenTouches(ring: HashRing, versions: Versions, stores: Stores, s: ShardId, points: seq<Point>)
    requires s in stores
    requires forall p :: p in points ==> p.id in versions && versions[p.id] == p && ring.At(p.id) == s
    ensures Touched(ring, versions, stores, stores[s := Written(stores[s], points)])
  {
    forall t, k | t in stores
      ensures OldOrVersion(ring, versions, t, k, Get(stores[t], k), Get(stores[s := Written(stores[s], points)][t], k))
    {
      WrittenAt(stores[s], points, k);
      LastAtOccurs(points, k);
      if t == s && LastAt(points, k).Some? {
        assert Lands(ring, LastAt(points, k).value.id, s, k);
      }
    }
  }

  /** Which point the simple form leaves in a cell: a last version that lands there, if there is one. */
  lemma CellAfter(ring: HashRing, points: seq<Point>, s: ShardId, k: string)
    ensures var last := LastAt(RoutedTo(ring, points, s), k);
            if last.Some? then
              last.value.id in PointsMap(points) && PointsMap(points)[last.value.id] == last.value
              && Lands(ring, last.value.id, s, k)
            else
              forall id :: id in PointsMap(points) ==> !Lands(ring, id, s, k)
  {
    assert Ids(points)[..|points|] == Ids(points) && points[..|points|] == points;
    GroupLastAt(ring, points, |points|, s, k);
    GroupExactly(ring, points, s);
    PointsMapIds(points);
    LastAtOccurs(Group(ring, points, s), k);
    forall id | LastAt(RoutedTo(ring, points, s), k).None? && id in PointsMap(points)
      ensures !Lands(ring, id, s, k)
    {
      if ring.At(id) == s {
        assert PointsMap(points)[id] in Group(ring, points, s);
      }
    }
  }

  lemma UpsertEachAt(ring: HashRing, stores: Stores, points: seq<Point>, s: ShardId, k: string)
    requires s in stores
    ensures s in UpsertEach(ring, stores, points)
    ensures var last := LastAt(RoutedTo(ring, points, s), k);
            Get(UpsertEach(ring, stores, points)[s], k) == if last.Some? then last else Get(stores[s], k)
  {
    UpsertEachByShard(ring, stores, points);
    WrittenAt(stores[s], RoutedTo(ring, points, s), k);
  }

  lemma UpsertEachTouches(ring: HashRing, stores: Stores, points: seq<Point>)
    ensures Touched(ring, PointsMap(points), stores, UpsertEach(ring, stores, points))
  {
    var after := UpsertEach(ring, stores, points);
    UpsertEachByShard(ring, stores, points);
    forall s, k | s in stores
      ensures OldOrVersion(ring, PointsMap(points), s, k, Get(stores[s], k), Get(after[s], k))
    {
      UpsertEachAt(ring, stores, points, s, k);
      CellAfter(ring, points, s, k);
    }
  }

  lemma SameStores(a: Stores, b: Stores)
    requires a.Keys == b.Keys
    requires forall s, k :: s in a ==> Get(a[s], k) == Get(b[s], k)
    ensures a == b
  {
    forall s | s in a
      ensures a[s] == b[s]
    {
      SameLookups(a[s], b[s]);
    }
  }

  /** Whatever an earlier attempt at a batch left behind, a full pass ends as if it had never run. */
  lemma RetryAbsorbs(ring: HashRing, before: Stores, partial: Stores, points: seq<Point>)
    requires Touched(ring, PointsMap(points), before, partial)
    ensures UpsertEach(ring, partial, points) == UpsertEach(ring, before, points)
  {
    UpsertEachByShard(ring, before, points);
    UpsertEachByShard(ring, partial, points);
    forall s, k | s in before
      ensures Get(UpsertEach(ring, partial, points)[s], k) == Get(UpsertEach(ring, before, points)[s], k)
    {
      UpsertEachAt(ring, before, points, s, k);
      UpsertEachAt(ring, partial, points, s, k);
      CellAfter(ring, points, s, k);
      assert OldOrVersion(ring, PointsMap(points), s, k, Get(before[s], k), Get(partial[s], k));
    }
    SameStores(UpsertEach(ring, partial, points), UpsertEach(ring, before, points));
  }

  // ---------- when a batch's own version of an id survives in its cell ----------

  /** Some other id lands in the cell of `id` after the last occurrence of `id`. */
  ghost predicate Shadowed(ring: HashRing, points: seq<Point>, id: PointId) {
    exists i :: 0 <= i < |points| && points[i].id != id
                && Lands(ring, points[i].id, ring.At(id), IntoString(id))
                && forall j :: i < j < |points| ==> points[j].id != id
  }

  lemma {:induction false} LastLanding(ring: HashRing, points: seq<Point>, s: ShardId, k: string) returns (i: int)
    ensures -1 <= i < |points|
    ensures forall j :: i < j < |points| ==> !Lands(ring, points[j].id, s, k)
    ensures i >= 0 ==> Lands(ring, points[i].id, s, k) && LastAt(RoutedTo(ring, points, s), k) == Some(points[i])
  {
    if points == [] {
      i := -1;
    } else if Lands(ring, points[|points| - 1].id, s, k) {
      i := |points| - 1;
    } else {
      i := LastLanding(ring, points[..|points| - 1], s, k);
      var routed := RoutedTo(ring, points, s);
      if ring.At(points[|points| - 1].id) == s {
        assert routed[..|routed| - 1] == RoutedTo(ring, points[..|points| - 1], s);
      }
    }
  }

  /** The last point to land in an id's cell is one of that id's exactly if nothing shadows it. */
  lemma UnshadowedIsLast(ring: HashRing, points: seq<Point>, id: PointId)
    requires exists j :: 0 <= j < |points| && points[j].id == id
    ensures var last := LastAt(RoutedTo(ring, points, ring.At(id)), IntoString(id));
            last.Some? && (last.value.id == id <==> !Shadowed(ring, points, id))
  {
    var j :| 0 <= j < |points| && points[j].id == id;
    var i := LastLanding(ring, points, ring.At(id), IntoString(id));
    assert Lands(ring, points[j].id, ring.At(id), IntoString(id));
    assert j <= i;
    if points[i].id == id {
      forall l | 0 <= l < |points| && points[l].id != id && Lands(ring, points[l].id, ring.At(id), IntoString(id))
        ensures l < i
      {
      }
    }
  }

  /** After a full pass, an id's last version is in its cell unless another id shadows it. */
  lemma VersionSurvives(ring: HashRing, stores: Stores, points: seq<Point>, id: PointId)
    requires id in PointsMap(points) && ring.At(id) in stores
    ensures Holds(ring, UpsertEach(ring, stores, points), PointsMap(points)[id]) <==> !Shadowed(ring, points, id)
  {
    var s, k := ring.At(id), IntoString(id);
    PointsMapIds(points);
    var j :| 0 <= j < |points| && Ids(points)[j] == id;
    UnshadowedIsLast(ring, points, id);
    CellAfter(ring, points, s, k);
    UpsertEachAt(ring, stores, points, s, k);
  }

  /** Canonical ids never shadow one another. */
  lemma CanonicalUnshadowed(ring: HashRing, points: seq<Point>, id: PointId)
    requires Canonical(id)
    requires forall p :: p in points ==> Canonical(p.id)
    ensures !Shadowed(ring, points, id)
  {
    forall i | 0 <= i < |points| && Lands(ring, points[i].id, ring.At(id), IntoString(id))
      ensures points[i].id == id
    {
      assert points[i] in points;
      KeysAreInjective(points[i].id, id);
    }
  }

  // ---------- the wire, which carries numeric ids only ----------

  function Wire(points: seq<Point>): seq<Point> {
    if points == [] then []
    else
      var before := Wire(points[..|points| - 1]);
      if points[|points| - 1].id.Id? then before + [points[|points| - 1]] else before
  }

  function Numeric(versions: Versions): Versions {
    map id | id in versions && id.Id? :: versions[id]
  }

  lemma {:induction false} WireExactly(points: seq<Point>)
    ensures forall p :: p in Wire(points) <==> p in points && p.id.Id?
  {
    if points != [] {
      WireExactly(points[..|points| - 1]);
      assert points == points[..|points| - 1] + [points[|points| - 1]];
    }
  }

  /** The points sent keep their order. */
  lemma {:induction false} WireInOrder(a: seq<Point>, b: seq<Point>, p: Point)
    ensures Wire(a + b) == Wire(a) + Wire(b)
    ensures Wire([p]) == if p.id.Id? then [p] else []
  {
    assert [p][..0] == [];
    if b == [] {
      assert a + b == a;
    } else {
      WireInOrder(a, b[..|b| - 1], p);
      assert (a + b)[..|a + b| - 1] == a + b[..|b| - 1];
    }
  }

  /** What a remote replica is sent for shard `s`: the last versions of the numeric ids routed there. */
  lemma WiredGroup(ring: HashRing, points: seq<Point>, s: ShardId)
    ensures SubVersions(PointsMap(Wire(Group(ring, points, s))), Numeric(PointsMap(points)))
    ensures forall id :: id in PointsMap(Wire(Group(ring, points, s))) <==>
                         id in Numeric(PointsMap(points)) && ring.At(id) == s
  {
    var sent := Wire(Group(ring, points, s));
    PointsMapIds(points);
    GroupExactly(ring, points, s);
    WireExactly(Group(ring, points, s));
    PointsMapIds(sent);
    forall id | id in Numeric(PointsMap(points)) && ring.At(id) == s
      ensures id in PointsMap(sent)
    {
      assert PointsMap(points)[id] in sent;
      var i :| 0 <= i < |sent| && sent[i] == PointsMap(points)[id];
      assert Ids(sent)[i] == id;
    }
  }

  /** A full pass over wired points leaves every one of their versions in place. */
  lemma WiredHeld(ring: HashRing, stores: Stores, points: seq<Point>, id: PointId)
    requires forall p :: p in points ==> p.id.Id?
    requires id in PointsMap(points) && ring.At(id) in stores
    ensures Holds(ring, UpsertEach(ring, stores, points), PointsMap(points)[id])
  {
    PointsMapIds(points);
    assert id.Id?;
    CanonicalUnshadowed(ring, points, id);
    VersionSurvives(ring, stores, points, id);
  }

  /** Later writes of the same versions do not take a held version away. */
  lemma HeldStays(ring: HashRing, versions: Versions, a: Stores, b: Stores, id: PointId)
    requires forall other :: other in versions ==> Canonical(other) && versions[other].id == other
    requires Touched(ring, versions, a, b)
    requires id in versions && Holds(ring, a, versions[id])
    ensures Holds(ring, b, versions[id])
  {
    var s, k := ring.At(id), IntoString(id);
    assert OldOrVersion(ring, versions, s, k, Get(a[s], k), Get(b[s], k));
    forall other | other in versions && Lands(ring, other, s, k)
      ensures other == id
    {
      KeysAreInjective(other, id);
    }
  }
}
