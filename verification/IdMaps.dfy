/** A node's shards seen as one map from id to point, and what upserts, reads and counts do to it. */
module IdMaps {
  import opened Types
  import opened IdText
  import opened Ring
  import opened Batches
  import opened Segments
  import opened Views
  import opened Listings

  /** Every stored point sits in the shard the ring gives its id, under its own key. */
  ghost predicate Routed(ring: HashRing, stores: Stores) {
    && ring.nodes == stores.Keys
    && forall s, k :: s in stores && k in stores[s] ==> Lands(ring, stores[s][k].id, s, k)
  }

  ghost predicate AllCanonical(stores: Stores) {
    forall s, k :: s in stores && k in stores[s] ==> Canonical(stores[s][k].id)
  }

  predicate CanonicalBatch(points: seq<Point>) {
    forall p :: p in points ==> Canonical(p.id)
  }

  function IdsOf(stores: Stores): set<PointId> {
    set s, k | s in stores && k in stores[s] :: stores[s][k].id
  }

  function IdMap(ring: HashRing, stores: Stores): Versions {
    map id | id in IdsOf(stores) && Lookup(ring, stores, id).Some? :: Lookup(ring, stores, id).value
  }

  /** Under the routing invariant the map has exactly the stored points. */
  lemma IdMapExactly(ring: HashRing, stores: Stores, p: Point)
    requires Routed(ring, stores)
    ensures Get(IdMap(ring, stores), p.id) == Some(p) <==>
            exists s, k :: s in stores && k in stores[s] && stores[s][k] == p
  {
    if s, k :| s in stores && k in stores[s] && stores[s][k] == p {
      assert Lands(ring, stores[s][k].id, s, k);
      assert p.id in IdsOf(stores);
    }
    if Get(IdMap(ring, stores), p.id) == Some(p) {
      assert stores[ring.At(p.id)][IntoString(p.id)] == p;
    }
  }

  /** A lookup never finds a point of another canonical id. */
  lemma LookupIsIdMap(ring: HashRing, stores: Stores, id: PointId)
    requires Routed(ring, stores) && AllCanonical(stores) && Canonical(id)
    ensures Lookup(ring, stores, id) == Get(IdMap(ring, stores), id)
    ensures Lookup(ring, stores, id).Some? ==> Lookup(ring, stores, id).value.id == id
  {
    var s, k := ring.At(id), IntoString(id);
    if s in stores && k in stores[s] {
      assert Lands(ring, stores[s][k].id, s, k);
      KeysAreInjective(stores[s][k].id, id);
    }
  }

  /** Whatever of a batch reaches a node, its points stay routed. */
  lemma TouchedStaysRouted(ring: HashRing, versions: Versions, before: Stores, after: Stores)
    requires forall id :: id in versions ==> versions[id].id == id
    requires Routed(ring, before) && Touched(ring, versions, before, after)
    ensures Routed(ring, after)
  {
    forall s, k | s in after && k in after[s]
      ensures Lands(ring, after[s][k].id, s, k)
    {
      assert OldOrVersion(ring, versions, s, k, Get(before[s], k), Get(after[s], k));
    }
  }

  lemma TouchedStaysCanonical(ring: HashRing, versions: Versions, before: Stores, after: Stores)
    requires forall id :: id in versions ==> versions[id].id == id && Canonical(id)
    requires AllCanonical(before) && Touched(ring, versions, before, after)
    ensures AllCanonical(after)
  {
    forall s, k | s in after && k in after[s]
      ensures Canonical(after[s][k].id)
    {
      assert OldOrVersion(ring, versions, s, k, Get(before[s], k), Get(after[s], k));
    }
  }

  lemma CanonicalVersions(points: seq<Point>)
    requires CanonicalBatch(points)
    ensures forall id :: id in PointsMap(points) ==> PointsMap(points)[id].id == id && Canonical(id)
  {
    PointsMapIds(points);
  }

  /** What a full pass leaves to be found for one canonical id: its last version, or what was there. */
  lemma LookupAfter(ring: HashRing, stores: Stores, points: seq<Point>, id: PointId)
    requires CanonicalBatch(points) && Canonical(id) && ring.nodes == stores.Keys
             && (points != [] ==> stores.Keys != {})
    ensures Lookup(ring, UpsertEach(ring, stores, points), id) ==
            if id in PointsMap(points) then Some(PointsMap(points)[id]) else Lookup(ring, stores, id)
  {
    var s, k := ring.At(id), IntoString(id);
    CanonicalVersions(points);
    UpsertEachByShard(ring, stores, points);
    if id in PointsMap(points) {
      CanonicalUnshadowed(ring, points, id);
      VersionSurvives(ring, stores, points, id);
    } else if s in stores {
      UpsertEachTouches(ring, stores, points);
      var after := UpsertEach(ring, stores, points);
      assert OldOrVersion(ring, PointsMap(points), s, k, Get(stores[s], k), Get(after[s], k));
      forall other | other in PointsMap(points) && Lands(ring, other, s, k)
        ensures false
      {
        KeysAreInjective(other, id);
      }
    }
  }

  /** Under the routing invariant the map finds in an id's own cell whatever has that id there. */
  lemma IdMapAt(ring: HashRing, stores: Stores, id: PointId)
    requires Routed(ring, stores)
    ensures var found := Lookup(ring, stores, id);
            Get(IdMap(ring, stores), id) == if found.Some? && found.value.id == id then found else None
  {
    if id in IdsOf(stores) {
      var s, k :| s in stores && k in stores[s] && stores[s][k].id == id;
      assert Lands(ring, stores[s][k].id, s, k);
    }
  }

  lemma UpsertStaysRouted(ring: HashRing, stores: Stores, points: seq<Point>)
    requires Routed(ring, stores)
    ensures Routed(ring, UpsertEach(ring, stores, points))
  {
    PointsMapIds(points);
    UpsertEachTouches(ring, stores, points);
    TouchedStaysRouted(ring, PointsMap(points), stores, UpsertEach(ring, stores, points));
  }

  /** No id of the batch belongs in the cell of another id that is stored or in the batch. */
  ghost predicate NoCollision(ring: HashRing, stores: Stores, points: seq<Point>) {
    forall a, b :: a in PointsMap(points) && (b in IdsOf(stores) || b in PointsMap(points)) && a != b ==>
      !Lands(ring, a, ring.At(b), IntoString(b))
  }

  lemma WithoutCollision(ring: HashRing, stores: Stores, points: seq<Point>, id: PointId)
    requires Routed(ring, stores) && (points != [] ==> stores.Keys != {}) && NoCollision(ring, stores, points)
    ensures Get(IdMap(ring, UpsertEach(ring, stores, points)), id) == Get(IdMap(ring, stores) + PointsMap(points), id)
  {
    var after, s, k := UpsertEach(ring, stores, points), ring.At(id), IntoString(id);
    UpsertStaysRouted(ring, stores, points);
    IdMapAt(ring, stores, id);
    IdMapAt(ring, after, id);
    CellAfter(ring, points, s, k);
    PointsMapIds(points);
    if s in stores {
      UpsertEachAt(ring, stores, points, s, k);
    }
    assert id in PointsMap(points) ==> Lands(ring, id, s, k);
    assert id in IdsOf(stores) ==> id in IdMap(ring, stores) by {
      IdMapKeys(ring, stores);
    }
  }

  lemma WithCollision(ring: HashRing, stores: Stores, points: seq<Point>, a: PointId, b: PointId)
    requires Routed(ring, stores) && a != b && Lands(ring, a, ring.At(b), IntoString(b))
    requires a in PointsMap(points) && (b in IdsOf(stores) || b in PointsMap(points))
    ensures IdMap(ring, UpsertEach(ring, stores, points)) != IdMap(ring, stores) + PointsMap(points)
  {
    UpsertStaysRouted(ring, stores, points);
    IdMapKeys(ring, stores);
    IdMapAt(ring, UpsertEach(ring, stores, points), a);
    IdMapAt(ring, UpsertEach(ring, stores, points), b);
  }

  /**
   A successful upsert is one update of the id map, with last versions winning, if and only if no id of the
   batch belongs in the cell of another id that is stored or in the batch.
   */
  lemma UpsertRefinesIdMap(ring: HashRing, stores: Stores, points: seq<Point>)
    requires Routed(ring, stores) && (points != [] ==> stores.Keys != {})
    ensures IdMap(ring, UpsertEach(ring, stores, points)) == IdMap(ring, stores) + PointsMap(points) <==>
            NoCollision(ring, stores, points)
  {
    if NoCollision(ring, stores, points) {
      forall id
        ensures Get(IdMap(ring, UpsertEach(ring, stores, points)), id) ==
                Get(IdMap(ring, stores) + PointsMap(points), id)
      {
        WithoutCollision(ring, stores, points, id);
      }
      SameLookups(IdMap(ring, UpsertEach(ring, stores, points)), IdMap(ring, stores) + PointsMap(points));
    } else {
      var a, b :| a in PointsMap(points) && (b in IdsOf(stores) || b in PointsMap(points)) && a != b
                  && Lands(ring, a, ring.At(b), IntoString(b));
      WithCollision(ring, stores, points, a, b);
    }
  }

  lemma CanonicalMeansNoCollision(ring: HashRing, stores: Stores, points: seq<Point>)
    requires AllCanonical(stores) && CanonicalBatch(points)
    ensures NoCollision(ring, stores, points)
  {
    CanonicalVersions(points);
    forall a, b | a in PointsMap(points) && (b in IdsOf(stores) || b in PointsMap(points)) && a != b
      ensures !Lands(ring, a, ring.At(b), IntoString(b))
    {
      if IntoString(a) == IntoString(b) {
        KeysAreInjective(a, b);
      }
    }
  }

  /** So it is for canonical ids, which stay canonical and routed. */
  lemma CanonicalUpsertRefinesIdMap(ring: HashRing, stores: Stores, points: seq<Point>)
    requires Routed(ring, stores) && AllCanonical(stores) && CanonicalBatch(points)
             && (points != [] ==> stores.Keys != {})
    ensures Routed(ring, UpsertEach(ring, stores, points)) && AllCanonical(UpsertEach(ring, stores, points))
    ensures IdMap(ring, UpsertEach(ring, stores, points)) == IdMap(ring, stores) + PointsMap(points)
  {
    CanonicalVersions(points);
    UpsertStaysRouted(ring, stores, points);
    UpsertEachTouches(ring, stores, points);
    TouchedStaysCanonical(ring, PointsMap(points), stores, UpsertEach(ring, stores, points));
    CanonicalMeansNoCollision(ring, stores, points);
    UpsertRefinesIdMap(ring, stores, points);
  }

  /** A collision: when both go to one shard, a number's text takes the number's cell, and the number is lost. */
  lemma CollisionLosesAnId(ring: HashRing, empty: Stores, n: U64, a: string, b: string)
    requires empty.Keys == ring.nodes != {} && forall s :: s in empty ==> empty[s] == map[]
    requires ring.At(Id(n)) == ring.At(Uuid(Decimal(n)))
    ensures var points := [Point(Id(n), a), Point(Uuid(Decimal(n)), b)];
            && Id(n) in IdMap(ring, empty) + PointsMap(points)
            && Id(n) !in IdMap(ring, UpsertEach(ring, empty, points))
  {
    var number, text := Point(Id(n), a), Point(Uuid(Decimal(n)), b);
    var points := [number, text];
    LastVersionWins(points, 0);
    PointsMapIds(points);
    UpsertStaysRouted(ring, empty, points);
    IdMapAt(ring, UpsertEach(ring, empty, points), Id(n));
    TextIsLast(ring, empty, number, text);
  }

  /** Of two points for one cell the second stays. */
  lemma TextIsLast(ring: HashRing, stores: Stores, first: Point, second: Point)
    requires ring.At(first.id) == ring.At(second.id) && IntoString(first.id) == IntoString(second.id)
    requires ring.At(first.id) in stores
    ensures Lookup(ring, UpsertEach(ring, stores, [first, second]), first.id) == Some(second)
  {
    UpsertEachByShard(ring, stores, [first]);
    assert [first, second][..|[first, second]| - 1] == [first];
  }

  /** With a single shard both do go to it, whatever the ring. */
  lemma OneShardLosesAnId(place: Placement, shard: ShardId, n: U64, a: string, b: string)
    ensures var ring: HashRing, empty: Stores := HashRing({shard}, place), map[shard := map[]];
            var points := [Point(Id(n), a), Point(Uuid(Decimal(n)), b)];
            && Routed(ring, empty)
            && Id(n) in IdMap(ring, empty) + PointsMap(points)
            && Id(n) !in IdMap(ring, UpsertEach(ring, empty, points))
  {
    var ring := HashRing({shard}, place);
    assert ring.At(Id(n)) in {shard} && ring.At(Uuid(Decimal(n))) in {shard};
    CollisionLosesAnId(ring, map[shard := map[]], n, a, b);
  }

  // ---------- reading what was written ----------

  lemma {:induction false} FoundIsLookUp(ring: HashRing, stores: Stores, ids: seq<PointId>)
    requires Routed(ring, stores) && AllCanonical(stores) && forall id :: id in ids ==> Canonical(id)
    ensures Found(ring, stores, ids) == LookUp(IdMap(ring, stores), ids)
  {
    if ids != [] {
      assert ids[|ids| - 1] in ids;
      LookupIsIdMap(ring, stores, ids[|ids| - 1]);
      FoundIsLookUp(ring, stores, ids[..|ids| - 1]);
    }
  }

  /** A read by ids after a successful upsert sees the old map updated by the batch, occurrence by occurrence. */
  lemma ReadYourWrites(ring: HashRing, stores: Stores, points: seq<Point>, ids: seq<PointId>)
    requires Routed(ring, stores) && AllCanonical(stores) && CanonicalBatch(points)
             && (points != [] ==> stores.Keys != {})
    requires forall id :: id in ids ==> Canonical(id)
    ensures Found(ring, UpsertEach(ring, stores, points), ids) ==
            LookUp(IdMap(ring, stores) + PointsMap(points), ids)
  {
    CanonicalUpsertRefinesIdMap(ring, stores, points);
    FoundIsLookUp(ring, UpsertEach(ring, stores, points), ids);
  }

  /** The id a request names as text leads to the shard and cell where that id was written. */
  lemma ByNameReadsTheWrite(ring: HashRing, stores: Stores, points: seq<Point>, id: PointId)
    requires Routed(ring, stores) && AllCanonical(stores) && CanonicalBatch(points) && id in PointsMap(points)
    requires stores.Keys != {}
    ensures Found(ring, UpsertEach(ring, stores, points), [ParsePointId(IntoString(id))]) == [PointsMap(points)[id]]
  {
    CanonicalVersions(points);
    TextRoundTrip(id);
    assert [id][..0] == [];
    LookupAfter(ring, stores, points, id);
  }

  // ---------- counting ----------

  function Counts(stores: Stores): map<ShardId, nat> {
    map s | s in stores :: |stores[s]|
  }

  function StoreIds(store: Store): set<PointId> {
    set k | k in store :: store[k].id
  }

  lemma {:induction false} StoreIdsSize(store: Store)
    requires WellKeyed(store)
    ensures |StoreIds(store)| == |store|
  {
    if store.Keys == {} {
      assert StoreIds(store) == {};
    } else {
      var k :| k in store;
      var rest := store - {k};
      StoreIdsSize(rest);
      forall id
        ensures id in StoreIds(store) <==> id in StoreIds(rest) + {store[k].id}
      {
        if id in StoreIds(store) {
          var j :| j in store && store[j].id == id;
          assert j != k ==> j in rest && rest[j].id == id;
        }
        if id in StoreIds(rest) {
          var j :| j in rest && rest[j].id == id;
          assert j in store;
        }
      }
      assert StoreIds(store) == StoreIds(rest) + {store[k].id};
      assert store[k].id !in StoreIds(rest);
    }
  }

  lemma IdsSplit(ring: HashRing, stores: Stores, s: ShardId)
    requires forall t, k :: t in stores && k in stores[t] ==> Lands(ring, stores[t][k].id, t, k)
    requires s in stores
    ensures |IdsOf(stores)| == |IdsOf(stores - {s})| + |StoreIds(stores[s])|
  {
    var rest := stores - {s};
    forall id
      ensures id in IdsOf(stores) <==> id in IdsOf(rest) + StoreIds(stores[s])
    {
      if id in IdsOf(stores) {
        var t, k :| t in stores && k in stores[t] && stores[t][k].id == id;
        assert t != s ==> t in rest && k in rest[t] && rest[t][k].id == id;
      }
      if id in IdsOf(rest) {
        var t, k :| t in rest && k in rest[t] && rest[t][k].id == id;
        assert t in stores && k in stores[t];
      }
      if id in StoreIds(stores[s]) {
        var k :| k in stores[s] && stores[s][k].id == id;
      }
    }
    assert IdsOf(stores) == IdsOf(rest) + StoreIds(stores[s]);
    forall id | id in IdsOf(rest)
      ensures ring.At(id) != s
    {
      var t, k :| t in rest && k in rest[t] && rest[t][k].id == id;
      assert Lands(ring, stores[t][k].id, t, k);
    }
    forall id | id in StoreIds(stores[s])
      ensures ring.At(id) == s
    {
      var k :| k in stores[s] && stores[s][k].id == id;
      assert Lands(ring, stores[s][k].id, s, k);
    }
    DisjointSizes(IdsOf(rest), StoreIds(stores[s]));
  }

  lemma DisjointSizes<T>(a: set<T>, b: set<T>)
    requires a !! b
    ensures |a + b| == |a| + |b|
  {
  }

  lemma CountsSplit(stores: Stores, s: ShardId)
    requires s in stores
    ensures Total(Counts(stores)) == |stores[s]| + Total(Counts(stores - {s}))
  {
    TotalSplit(Counts(stores), s);
    assert Counts(stores) - {s} == Counts(stores - {s});
  }

  /** The shards' counts add up to the number of ids stored. */
  lemma {:induction false} CountsAddUp(ring: HashRing, stores: Stores)
    requires forall s, k :: s in stores && k in stores[s] ==> Lands(ring, stores[s][k].id, s, k)
    ensures Total(Counts(stores)) == |IdsOf(stores)|
    decreases |stores|
  {
    if stores.Keys == {} {
      assert Counts(stores) == map[];
      assert IdsOf(stores) == {};
    } else {
      var s :| s in stores;
      var rest := stores - {s};
      CountsAddUp(ring, rest);
      CountsSplit(stores, s);
      forall k | k in stores[s]
        ensures IntoString(stores[s][k].id) == k
      {
        assert Lands(ring, stores[s][k].id, s, k);
      }
      StoreIdsSize(stores[s]);
      IdsSplit(ring, stores, s);
    }
  }

  lemma IdMapKeys(ring: HashRing, stores: Stores)
    requires Routed(ring, stores)
    ensures IdMap(ring, stores).Keys == IdsOf(stores)
  {
    forall id | id in IdsOf(stores)
      ensures Lookup(ring, stores, id).Some?
    {
      var s, k :| s in stores && k in stores[s] && stores[s][k].id == id;
      assert Lands(ring, stores[s][k].id, s, k);
    }
  }

  lemma MergedSize<K, V>(a: map<K, V>, b: map<K, V>)
    ensures |(a + b).Keys| == |a.Keys| + |b.Keys - a.Keys|
    ensures |a.Keys| == |a|
  {
    assert (a + b).Keys == a.Keys + (b.Keys - a.Keys);
    DisjointSizes(a.Keys, b.Keys - a.Keys);
  }

  /** A successful upsert raises the summed counts by the number of distinct ids it is the first to bring. */
  lemma CountConservation(ring: HashRing, stores: Stores, points: seq<Point>)
    requires Routed(ring, stores) && (points != [] ==> stores.Keys != {}) && NoCollision(ring, stores, points)
    ensures Total(Counts(stores)) == |IdMap(ring, stores)|
    ensures Total(Counts(UpsertEach(ring, stores, points))) ==
            Total(Counts(stores)) + |PointsMap(points).Keys - IdMap(ring, stores).Keys|
  {
    var after := UpsertEach(ring, stores, points);
    UpsertStaysRouted(ring, stores, points);
    UpsertRefinesIdMap(ring, stores, points);
    CountsAddUp(ring, stores);
    CountsAddUp(ring, after);
    IdMapKeys(ring, stores);
    IdMapKeys(ring, after);
    MergedSize(IdMap(ring, stores), PointsMap(points));
  }
}
