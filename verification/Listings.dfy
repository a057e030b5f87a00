/** How the results of single reads combine, on values. */
module Listings {
  import opened Types
  import opened IdText
  import opened IdOrder
  import opened Ring
  import opened Batches
  import opened Segments
  import opened Views

  // ---------- reads by id ----------

  /** The local points found for the ids routed to the given shards, one per occurrence, in id order. */
  function FoundIn(ring: HashRing, stores: Stores, ids: seq<PointId>, shards: set<ShardId>): seq<Point> {
    if ids == [] then []
    else
      var before := FoundIn(ring, stores, ids[..|ids| - 1], shards);
      var id := ids[|ids| - 1];
      var s, k := ring.At(id), IntoString(id);
      if s in shards && s in stores && k in stores[s] then before + [stores[s][k]] else before
  }

  /** The local point an id leads to: its shard by the ring, its cell by its key. */
  function Lookup(ring: HashRing, stores: Stores, id: PointId): Option<Point> {
    if ring.At(id) in stores then Get(stores[ring.At(id)], IntoString(id)) else None
  }

  /** One lookup per requested occurrence, misses left out. */
  function Found(ring: HashRing, stores: Stores, ids: seq<PointId>): seq<Point> {
    if ids == [] then []
    else
      var before := Found(ring, stores, ids[..|ids| - 1]);
      var hit := Lookup(ring, stores, ids[|ids| - 1]);
      if hit.Some? then before + [hit.value] else before
  }

  /** A list is looked up id by id, in its order; an id is looked up in its shard, under its key. */
  lemma {:induction false} FoundInOrder(ring: HashRing, stores: Stores, a: seq<PointId>, b: seq<PointId>, id: PointId)
    ensures Found(ring, stores, a + b) == Found(ring, stores, a) + Found(ring, stores, b)
    ensures var s, k := ring.At(id), IntoString(id);
            Found(ring, stores, [id]) == if s in stores && k in stores[s] then [stores[s][k]] else []
  {
    assert [id][..0] == [];
    if b == [] {
      assert a + b == a;
    } else {
      FoundInOrder(ring, stores, a, b[..|b| - 1], id);
      assert (a + b)[..|a + b| - 1] == a + b[..|b| - 1];
    }
  }

  lemma {:induction false} FoundInMore(ring: HashRing, stores: Stores, ids: seq<PointId>, shards: set<ShardId>,
                                       s: ShardId)
    requires s in stores && s !in shards
    ensures multiset(FoundIn(ring, stores, ids, shards + {s})) ==
            multiset(FoundIn(ring, stores, ids, shards)) + multiset(Hits(stores[s], IdsRoutedTo(ring, ids, s)))
  {
    if ids != [] {
      var init, id := ids[..|ids| - 1], ids[|ids| - 1];
      FoundInMore(ring, stores, init, shards, s);
      if ring.At(id) == s {
        var routed := IdsRoutedTo(ring, ids, s);
        assert routed[..|routed| - 1] == IdsRoutedTo(ring, init, s);
      }
    }
  }

  lemma {:induction false} FoundInNone(ring: HashRing, stores: Stores, ids: seq<PointId>)
    ensures FoundIn(ring, stores, ids, {}) == []
  {
    if ids != [] {
      FoundInNone(ring, stores, ids[..|ids| - 1]);
    }
  }

  lemma {:induction false} FoundInAll(ring: HashRing, stores: Stores, ids: seq<PointId>, shards: set<ShardId>)
    requires forall id :: id in ids ==> ring.At(id) in shards
    ensures FoundIn(ring, stores, ids, shards) == Found(ring, stores, ids)
  {
    if ids != [] {
      assert ids[|ids| - 1] in ids;
      FoundInAll(ring, stores, ids[..|ids| - 1], shards);
    }
  }

  // ---------- listings ----------

  /**
   In every listing all points with numeric ids come first, by value, and then those with text ids, character by
   character, a prefix before what continues it.
   */
  lemma ListingOrder(cfg: Config, self: PeerId, order: seq<ShardId>, localOnly: bool, view: View, points: seq<Point>,
                     i: nat, j: nat)
    requires ListsIn(cfg, self, order, localOnly, view, points) && i < j < |points|
    ensures var a, b := points[i].id, points[j].id;
            && (a.Uuid? ==> b.Uuid?)
            && (a.Id? && b.Id? ==> a.number < b.number)
            && (a.Uuid? && b.Uuid? ==>
                  exists l: nat ::
                    && l <= |a.text| && l < |b.text| && a.text[..l] == b.text[..l]
                    && (l == |a.text| || (l < |a.text| && a.text[l] < b.text[l])))
  {
    SortedExactly(points, i, j);
  }

  /** A replica's answer for shard `s`: exactly the points it can offer. */
  ghost predicate Answers(view: View, self: PeerId, n: PeerId, s: ShardId, points: seq<Point>) {
    && n in view
    && forall p :: p in points <==> Offer(view, self, n, s, p.id) == Some(p)
  }

  /** One answer per replica asked; a failure is an answer that says nothing. */
  ghost predicate AnsweredBy(view: View, self: PeerId, sources: seq<PeerId>, s: ShardId,
                             results: seq<Result<seq<Point>>>)
  {
    && |results| == |sources|
    && forall i :: 0 <= i < |results| && results[i].Ok? ==> Answers(view, self, sources[i], s, results[i].value)
  }

  lemma AnswersJoin(view: View, self: PeerId, a: seq<PeerId>, b: seq<PeerId>, s: ShardId,
                    first: seq<Result<seq<Point>>>, rest: seq<Result<seq<Point>>>)
    requires AnsweredBy(view, self, a, s, first) && AnsweredBy(view, self, b, s, rest)
    ensures AnsweredBy(view, self, a + b, s, first + rest)
  {
  }

  lemma LocalAnswers(view: View, self: PeerId, s: ShardId, points: seq<Point>)
    requires self in view && s in view[self] && WellKeyed(view[self][s])
    requires Lists(view[self][s], points)
    ensures Answers(view, self, self, s, points)
  {
    var store := view[self][s];
    forall p
      ensures p in points <==> FindById(store, p.id) == Some(p)
    {
      ListsExactly(store, points, p);
      if p in points {
        var k :| k in store && store[k] == p;
      }
    }
  }

  lemma SingleSource(view: View, n: PeerId, s: ShardId, id: PointId)
    ensures FirstOffer(view, n, [n], s, id) == Offer(view, n, n, s, id)
  {
    assert [n][..0] == [];
  }

  /** What a remote lists of its own shard, once its numeric points came over the wire. */
  lemma ServedAnswers(cfg: Config, view: View, self: PeerId, n: PeerId, s: ShardId, points: seq<Point>)
    requires n != self && ListStep(cfg, n, Some(s), true, view, points)
    ensures Answers(view, self, n, s, Wire(points))
  {
    ListStepShows(cfg, n, Some(s), true, view, points);
    WireExactly(points);
    if s in cfg.topology[n] {
      forall id
        ensures Listed(cfg, view, n, s, true, id) == FindById(view[n][s], id)
      {
        SingleSource(view, n, s, id);
      }
      assert Visited(cfg, n, Some(s)) == {s};
      forall p
        ensures p in Wire(points) <==> Offer(view, self, n, s, p.id) == Some(p)
      {
        if Offer(view, self, n, s, p.id) == Some(p) {
          var q :| q in points && q.id == p.id;
        }
      }
    }
  }

  /** The points added one after another, each only if its id is not taken yet. */
  function Merged(all: map<PointId, Point>, points: seq<Point>): map<PointId, Point> {
    if points == [] then all
    else
      var before := Merged(all, points[..|points| - 1]);
      var last := points[|points| - 1];
      if last.id in before then before else before[last.id := last]
  }

  /** The first point with this id. */
  function FirstOf(points: seq<Point>, id: PointId): Option<Point> {
    if points == [] then None
    else
      var earlier := FirstOf(points[..|points| - 1], id);
      if earlier.None? && points[|points| - 1].id == id then Some(points[|points| - 1]) else earlier
  }

  /** What is there stays; what is added is, for each new id, the first of its points. */
  lemma {:induction false} MergedExactly(all: map<PointId, Point>, points: seq<Point>, id: PointId)
    ensures Get(Merged(all, points), id) == if id in all then Some(all[id]) else FirstOf(points, id)
  {
    if points != [] {
      MergedExactly(all, points[..|points| - 1], id);
      MergedExactly(all, points[..|points| - 1], points[|points| - 1].id);
    }
  }

  lemma {:induction false} FirstOfExists(points: seq<Point>, id: PointId)
    ensures FirstOf(points, id).Some? ==> FirstOf(points, id).value in points && FirstOf(points, id).value.id == id
    ensures FirstOf(points, id).None? ==> forall p :: p in points ==> p.id != id
  {
    if points != [] {
      FirstOfExists(points[..|points| - 1], id);
      assert points == points[..|points| - 1] + [points[|points| - 1]];
    }
  }

  /** Adds the points whose ids are not taken yet. */
  method MergePoints(all: map<PointId, Point>, points: seq<Point>) returns (merged: map<PointId, Point>)
    ensures merged == Merged(all, points)
  {
    merged := all;
    for i := 0 to |points|
      invariant merged == Merged(all, points[..i])
    {
      if points[i].id !in merged {
        merged := merged[points[i].id := points[i]];
      }
      assert points[..i + 1][..i] == points[..i];
    }
    TakeAll(points);
  }

  /** The map after merging the answers of `sources` for shard `s` into what earlier shards gave. */
  ghost predicate Merging(view: View, self: PeerId, sources: seq<PeerId>, s: ShardId,
                          earlier: map<PointId, Point>, all: map<PointId, Point>) {
    forall id :: Get(all, id) == if id in earlier then Some(earlier[id]) else FirstOffer(view, self, sources, s, id)
  }

  lemma MergedAnswer(view: View, self: PeerId, sources: seq<PeerId>, n: PeerId, s: ShardId,
                     earlier: map<PointId, Point>, before: map<PointId, Point>, points: seq<Point>,
                     all: map<PointId, Point>)
    requires Merging(view, self, sources, s, earlier, before) && Answers(view, self, n, s, points)
    requires all == Merged(before, points)
    ensures Merging(view, self, sources + [n], s, earlier, all)
  {
    assert (sources + [n])[..|sources|] == sources;
    forall id
      ensures Get(all, id) == if id in earlier then Some(earlier[id]) else FirstOffer(view, self, sources + [n], s, id)
    {
      assert Get(before, id) == if id in earlier then Some(earlier[id]) else FirstOffer(view, self, sources, s, id);
      MergedExactly(before, points, id);
      FirstOfExists(points, id);
      var offer := Offer(view, self, n, s, id);
      if offer.Some? {
        assert offer.value.id == id && offer.value in points;
      }
    }
  }

  predicate AllOk<T>(results: seq<Result<T>>) {
    forall i :: 0 <= i < |results| ==> results[i].Ok?
  }

  /** Merges the answers of one shard's replicas in order; a single failed one fails the whole. */
  method MergeAnswers(ghost view: View, ghost self: PeerId, ghost sources: seq<PeerId>, ghost s: ShardId,
                      earlier: map<PointId, Point>, results: seq<Result<seq<Point>>>)
    returns (r: Result<map<PointId, Point>>)
    requires AnsweredBy(view, self, sources, s, results)
    ensures r.Ok? ==> Merging(view, self, sources, s, earlier, r.value)
    ensures r.Ok? ==> forall n :: n in sources ==> n in view
    ensures r.Ok? <==> AllOk(results)
  {
    var all := earlier;
    for i := 0 to |results|
      invariant Merging(view, self, sources[..i], s, earlier, all)
      invariant forall j :: 0 <= j < i ==> results[j].Ok? && sources[j] in view
    {
      if results[i].Err? {
        return Err(results[i].error);
      }
      ghost var before := all;
      all := MergePoints(all, results[i].value);
      MergedAnswer(view, self, sources[..i], sources[i], s, earlier, before, results[i].value, all);
      assert sources[..i + 1] == sources[..i] + [sources[i]];
    }
    assert sources[..|results|] == sources;
    r := Ok(all);
  }

  /** A listing that has been through these shards, in this order. */
  ghost predicate ListedSoFar(cfg: Config, self: PeerId, localOnly: bool, view: View, order: seq<ShardId>,
                              all: map<PointId, Point>)
  {
    && HasShards(cfg, self, order)
    && (forall id :: Get(all, id) == ListedIn(cfg, view, self, order, localOnly, id))
    && (forall s, n :: s in order && n in Sources(cfg, self, s, localOnly) ==> n in view)
  }

  lemma ShardListed(cfg: Config, self: PeerId, localOnly: bool, view: View, order: seq<ShardId>, s: ShardId,
                    earlier: map<PointId, Point>, all: map<PointId, Point>)
    requires ListedSoFar(cfg, self, localOnly, view, order, earlier) && s in cfg.topology[self]
    requires Merging(view, self, Sources(cfg, self, s, localOnly), s, earlier, all)
    requires forall n :: n in Sources(cfg, self, s, localOnly) ==> n in view
    ensures ListedSoFar(cfg, self, localOnly, view, order + [s], all)
  {
    assert (order + [s])[..|order|] == order;
    forall id
      ensures Get(all, id) == ListedIn(cfg, view, self, order + [s], localOnly, id)
    {
      assert Get(earlier, id) == ListedIn(cfg, view, self, order, localOnly, id);
    }
  }

  lemma AllListed(cfg: Config, self: PeerId, localOnly: bool, view: View, order: seq<ShardId>,
                  all: map<PointId, Point>, points: seq<Point>)
    requires cfg.Fits(view) && ListedSoFar(cfg, self, localOnly, view, order, all)
    requires StrictlySorted(points)
    requires forall p :: p in points <==> p.id in all && all[p.id] == p
    ensures ListsIn(cfg, self, order, localOnly, view, points)
  {
    forall p
      ensures p in points <==> ListedIn(cfg, view, self, order, localOnly, p.id) == Some(p)
    {
      assert Get(all, p.id) == ListedIn(cfg, view, self, order, localOnly, p.id);
    }
  }

  lemma ListedPointsNameTheirIds(cfg: Config, self: PeerId, localOnly: bool, view: View, order: seq<ShardId>,
                                 all: map<PointId, Point>)
    requires ListedSoFar(cfg, self, localOnly, view, order, all)
    ensures forall id :: id in all ==> all[id].id == id
  {
    forall id | id in all
      ensures all[id].id == id
    {
      assert Get(all, id) == ListedIn(cfg, view, self, order, localOnly, id);
      ListedInExactly(cfg, view, self, order, localOnly, id);
    }
  }

  /** The calls made for the shards in `done`: one for each remote of each, or none if local only. */
  ghost predicate ListCalls(cfg: Config, self: PeerId, localOnly: bool, done: set<ShardId>, calls: nat) {
    && self in cfg.topology
    && calls == if localOnly then 0 else Total(FanOut(cfg, self, done))
  }

  ghost predicate ListCost(cfg: Config, self: PeerId, only: Option<ShardId>, localOnly: bool, reached: set<ShardId>,
                           calls: nat)
  {
    ListCalls(cfg, self, localOnly, reached, calls) && reached <= Visited(cfg, self, only)
  }

  lemma ListCallsGrow(cfg: Config, self: PeerId, localOnly: bool, done: set<ShardId>, calls: nat, s: ShardId)
    requires ListCalls(cfg, self, localOnly, done, calls) && s in cfg.topology[self] && s !in done
    ensures ListCalls(cfg, self, localOnly, done + {s}, calls + if localOnly then 0 else |cfg.topology[self][s]|)
  {
    TotalSplit(FanOut(cfg, self, done + {s}), s);
    assert FanOut(cfg, self, done + {s}) - {s} == FanOut(cfg, self, done);
  }

  /** A listing that has visited the shards in `order` and not those in `todo`. */
  ghost predicate ListUnderway(cfg: Config, self: PeerId, only: Option<ShardId>, localOnly: bool, view: View,
                               todo: set<ShardId>, order: seq<ShardId>, all: map<PointId, Point>, calls: nat)
  {
    && ListedSoFar(cfg, self, localOnly, view, order, all)
    && VisitedSoFar(cfg, self, only, todo, order)
    && ListCalls(cfg, self, localOnly, ShardsIn(order), calls)
  }

  function ShardsIn(order: seq<ShardId>): set<ShardId> {
    set s | s in order
  }

  ghost predicate VisitedSoFar(cfg: Config, self: PeerId, only: Option<ShardId>, todo: set<ShardId>,
                               order: seq<ShardId>)
  {
    && self in cfg.topology
    && (forall i, j :: 0 <= i < j < |order| ==> order[i] != order[j])
    && (forall s :: s in Visited(cfg, self, only) <==> s in todo || s in order)
    && (forall s :: s in todo ==> s !in order)
  }

  lemma ListBegins(cfg: Config, self: PeerId, only: Option<ShardId>, localOnly: bool, view: View)
    requires self in cfg.topology
    ensures ListUnderway(cfg, self, only, localOnly, view, Visited(cfg, self, only), [], map[], 0)
  {
    assert FanOut(cfg, self, ShardsIn([])) == map[];
  }

  lemma ListStops(cfg: Config, self: PeerId, only: Option<ShardId>, localOnly: bool, view: View,
                  todo: set<ShardId>, order: seq<ShardId>, earlier: map<PointId, Point>, calls: nat,
                  s: ShardId, more: nat)
    requires ListUnderway(cfg, self, only, localOnly, view, todo, order, earlier, calls)
    requires s in todo && s in cfg.topology[self] && 1 + more == |Sources(cfg, self, s, localOnly)|
    ensures ListCost(cfg, self, only, localOnly, ShardsIn(order + [s]), calls + more)
  {
    assert ShardsIn(order + [s]) == ShardsIn(order) + {s};
    ListCallsGrow(cfg, self, localOnly, ShardsIn(order), calls, s);
  }

  lemma ListAdvances(cfg: Config, self: PeerId, only: Option<ShardId>, localOnly: bool, view: View,
                     todo: set<ShardId>, order: seq<ShardId>, earlier: map<PointId, Point>, calls: nat,
                     s: ShardId, all: map<PointId, Point>, more: nat)
    requires ListUnderway(cfg, self, only, localOnly, view, todo, order, earlier, calls)
    requires s in todo && s in cfg.topology[self]
    requires Merging(view, self, Sources(cfg, self, s, localOnly), s, earlier, all)
    requires forall n :: n in Sources(cfg, self, s, localOnly) ==> n in view
    requires 1 + more == |Sources(cfg, self, s, localOnly)|
    ensures ListUnderway(cfg, self, only, localOnly, view, todo - {s}, order + [s], all, calls + more)
  {
    ShardListed(cfg, self, localOnly, view, order, s, earlier, all);
    assert ShardsIn(order + [s]) == ShardsIn(order) + {s};
    ListCallsGrow(cfg, self, localOnly, ShardsIn(order), calls, s);
  }
}
