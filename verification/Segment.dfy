/** One segment: the key/value tree that holds a shard's points. */
module Segments {
  import opened Types
  import opened IdText
  import opened IdOrder
  import opened Batches

  /** Every point sits under the key of its own id. */
  predicate WellKeyed(store: Store) {
    forall k :: k in store ==> IntoString(store[k].id) == k
  }

  lemma {:induction false} WrittenWellKeyed(store: Store, points: seq<Point>)
    requires WellKeyed(store)
    ensures WellKeyed(Written(store, points))
  {
    if points != [] {
      WrittenWellKeyed(store, points[..|points| - 1]);
    }
  }

  /** The points found for a list of ids, in list order, one per occurrence that hits. */
  function Hits(store: Store, ids: seq<PointId>): seq<Point> {
    if ids == [] then []
    else
      var before := Hits(store, ids[..|ids| - 1]);
      var k := IntoString(ids[|ids| - 1]);
      if k in store then before + [store[k]] else before
  }

  /** A list is looked up id by id, in its order. */
  lemma {:induction false} HitsInOrder(store: Store, a: seq<PointId>, b: seq<PointId>, id: PointId)
    ensures Hits(store, a + b) == Hits(store, a) + Hits(store, b)
    ensures Hits(store, [id]) == if IntoString(id) in store then [store[IntoString(id)]] else []
  {
    assert [id][..0] == [];
    if b == [] {
      assert a + b == a;
    } else {
      HitsInOrder(store, a, b[..|b| - 1], id);
      assert (a + b)[..|a + b| - 1] == a + b[..|b| - 1];
    }
  }

  /** The points of the tree under the keys listed, which are all of its keys in ascending order. */
  ghost predicate ListsBy(store: Store, keys: seq<string>, points: seq<Point>) {
    && |keys| == |points| == |store|
    && (forall i, j :: 0 <= i < j < |keys| ==> TextLess(keys[i], keys[j]))
    && (forall k :: k in store <==> k in keys)
    && forall i :: 0 <= i < |keys| ==> keys[i] in store && points[i] == store[keys[i]]
  }

  /** The sequence runs through the tree's points by ascending key, each once. */
  ghost predicate Lists(store: Store, points: seq<Point>) {
    exists keys :: ListsBy(store, keys, points)
  }

  lemma ListsExactly(store: Store, points: seq<Point>, p: Point)
    requires Lists(store, points)
    ensures p in points <==> exists k :: k in store && store[k] == p
  {
    var keys :| ListsBy(store, keys, points);
    if p in points {
      var i :| 0 <= i < |points| && points[i] == p;
      assert store[keys[i]] == p;
    }
    if exists k :: k in store && store[k] == p {
      var k :| k in store && store[k] == p;
      var i :| 0 <= i < |keys| && keys[i] == k;
      assert points[i] == p;
    }
  }

  /** The keys of a listing ascend character by character, a prefix before what continues it. */
  lemma ListsAscending(store: Store, points: seq<Point>, i: nat, j: nat)
    requires WellKeyed(store) && Lists(store, points) && i < j < |points|
    ensures var k, l := IntoString(points[i].id), IntoString(points[j].id);
            exists m: nat :: m <= |k| && m < |l| && k[..m] == l[..m] && (m == |k| || (m < |k| && k[m] < l[m]))
  {
    var keys :| ListsBy(store, keys, points);
    TextLessExactly(keys[i], keys[j]);
  }

  predicate FirstText(k: string, keys: set<string>) {
    k in keys && forall j :: j in keys ==> j == k || TextLess(k, j)
  }

  lemma FirstTextExists(keys: set<string>) returns (k: string)
    requires keys != {}
    ensures FirstText(k, keys)
  {
    var ids := set j | j in keys :: Uuid(j);
    var any :| any in keys;
    assert Uuid(any) in ids;
    var least := LeastExists(ids);
    k := least.text;
    forall j | j in keys
      ensures j == k || TextLess(k, j)
    {
      assert Uuid(j) in ids;
    }
  }

  /** The points under the keys read so far, which come before all of `todo`. */
  ghost predicate ListingBy(store: Store, keys: seq<string>, points: seq<Point>, todo: set<string>) {
    && |keys| == |points| && todo <= store.Keys && |keys| + |todo| == |store|
    && (forall i, j :: 0 <= i < j < |keys| ==> TextLess(keys[i], keys[j]))
    && (forall i, k :: 0 <= i < |keys| && k in todo ==> TextLess(keys[i], k))
    && (forall k :: k in store <==> k in todo || k in keys)
    && forall i :: 0 <= i < |keys| ==> keys[i] in store && points[i] == store[keys[i]]
  }

  lemma ListingMore(store: Store, keys: seq<string>, points: seq<Point>, todo: set<string>, k: string)
    requires ListingBy(store, keys, points, todo) && FirstText(k, todo)
    ensures ListingBy(store, keys + [k], points + [store[k]], todo - {k})
  {
    RemovedOne(todo, k);
    forall j | j in store
      ensures j in todo - {k} || j in keys + [k]
    {
      assert j == k ==> (keys + [k])[|keys|] == j;
    }
  }

  /** How many of its points a write inserts before it fails, or all of them. */
  function Inserted(points: nat, fault: Option<nat>): (n: nat)
    ensures n <= points
  {
    if fault.Some? && fault.value < points then fault.value else points
  }

  class Segment {
    var db: Store

    constructor Create()
      ensures db == map[]
    {
      db := map[];
    }

    /** A failure leaves the points inserted by then; as many as are given means that the flush fails. */
    method InsertPoints(points: seq<Point>, fault: Option<nat>) returns (r: Result<()>)
      modifies this
      ensures db == Written(old(db), points[..Inserted(|points|, fault)])
      ensures fault.Some? && fault.value < |points| ==> db == Written(old(db), points[..fault.value])
      ensures fault.None? || fault.value >= |points| ==> db == Written(old(db), points)
      ensures r.Ok? <==> fault.None?
    {
      for i := 0 to |points|
        invariant db == Written(old(db), points[..i])
        invariant fault.Some? ==> i <= fault.value
      {
        if fault == Some(i) {
          return Err(ServiceError);
        }
        db := db[IntoString(points[i].id) := points[i]];
        assert points[..i + 1][..i] == points[..i];
      }
      TakeAll(points);
      r := if fault.Some? then Err(ServiceError) else Ok(());
    }

    /** Reads by id, or every point by ascending key when no ids are given. */
    method GetPoints(ids: Option<seq<PointId>>, fails: bool) returns (r: Result<seq<Point>>)
      ensures r.Ok? <==> !fails
      ensures r.Ok? && ids.Some? ==> r.value == Hits(db, ids.value)
      ensures r.Ok? && ids.None? ==> Lists(db, r.value)
    {
      if fails {
        return Err(ServiceError);
      }
      var points: seq<Point> := [];
      match ids
      case None =>
        var todo := db.Keys;
        ghost var keys: seq<string> := [];
        while todo != {}
          invariant ListingBy(db, keys, points, todo)
          decreases |todo|
        {
          ghost var first := FirstTextExists(todo);
          var k :| k in todo && FirstText(k, todo);
          ListingMore(db, keys, points, todo, k);
          RemovedOne(todo, k);
          points, todo, keys := points + [db[k]], todo - {k}, keys + [k];
        }
        assert ListsBy(db, keys, points);
        return Ok(points);
      case Some(wanted) =>
        for i := 0 to |wanted|
          invariant points == Hits(db, wanted[..i])
        {
          var k := IntoString(wanted[i]);
          if k in db {
            points := points + [db[k]];
          }
          assert wanted[..i + 1][..i] == wanted[..i];
        }
        TakeAll(wanted);
        return Ok(points);
    }

    function CountPoints(): nat
      reads this
    {
      |db|
    }
  }
}
