/**
 A cluster seen as values: which remotes every node lists for every shard, and what every node stores.
 The predicates here say what one client operation may do; the node code is proved to meet them.
 */
module Views {
  import opened Types
  import opened IdText
  import opened IdOrder
  import opened Ring
  import opened Batches
  import opened Segments

  const DEFAULT_CONSISTENCY_FACTOR: nat := 2

  type Remotes = map<ShardId, seq<PeerId>>
  type Topology = map<PeerId, Remotes>
  type View = map<PeerId, Stores>

  datatype Config = Config(place: Placement, topology: Topology) {
    /** A node's ring is built from the shards it has. */
    function RingOf(n: PeerId): (ring: HashRing)
      requires n in topology
    {
      HashRing(topology[n].Keys, place)
    }

    predicate IsRemoteOf(n: PeerId, self: PeerId)
      requires self in topology
    {
      exists s :: s in topology[self] && n in topology[self][s]
    }

    predicate Fits(view: View) {
      && view.Keys == topology.Keys
      && forall n :: n in topology ==> view[n].Keys == topology[n].Keys
    }
  }

  predicate DistinctPeers(peers: seq<PeerId>) {
    forall i, j :: 0 <= i < j < |peers| ==> peers[i] != peers[j]
  }

  /** No node lists itself, or any peer twice, among a shard's remotes. */
  predicate SoundTopology(topology: Topology) {
    forall n, s :: n in topology && s in topology[n] ==>
                     DistinctPeers(topology[n][s]) && n !in topology[n][s]
  }

  function Min(a: nat, b: nat): nat {
    if a < b then a else b
  }

  /** Every stored point sits under its own key. */
  ghost predicate Keyed(view: View) {
    forall n, s :: n in view && s in view[n] ==> WellKeyed(view[n][s])
  }

  // ---------- upserts ----------

  function ShardsOf(ring: HashRing, points: seq<Point>): set<ShardId> {
    set p | p in points :: ring.At(p.id)
  }

  /** Every numeric id of the batch that `ring` sends to `s` is held in its last version at node `n`. */
  ghost predicate HoldsNumeric(cfg: Config, view: View, n: PeerId, ring: HashRing, s: ShardId, versions: Versions) {
    && n in cfg.topology && n in view
    && forall id :: id in Numeric(versions) && ring.At(id) == s ==>
                      Holds(cfg.RingOf(n), view[n], versions[id])
  }

  /**
   What an upsert of `points` through node `self` may have done on the way from `before` to `after`.
   `acked` names, for the shards reached, the remotes whose write was reported successful.
   */
  ghost predicate Reached(cfg: Config, self: PeerId, points: seq<Point>, localOnly: bool,
                          before: View, after: View, acked: map<ShardId, set<PeerId>>)
  {
    && self in cfg.topology && cfg.Fits(before) && cfg.Fits(after)
    && Touched(cfg.RingOf(self), PointsMap(points), before[self], after[self])
    && OthersTouched(cfg, self, points, localOnly, before, after)
    && AcksHold(cfg, self, points, after, acked)
  }

  /** Nodes that are no remotes stay as they were; remotes take last versions of numeric ids only. */
  ghost predicate OthersTouched(cfg: Config, self: PeerId, points: seq<Point>, localOnly: bool, before: View,
                                after: View)
    requires self in cfg.topology && cfg.Fits(before) && cfg.Fits(after)
  {
    forall n :: n in cfg.topology && n != self ==>
      if localOnly || !cfg.IsRemoteOf(n, self)
      then after[n] == before[n]
      else Touched(cfg.RingOf(n), Numeric(PointsMap(points)), before[n], after[n])
  }

  ghost predicate AcksHold(cfg: Config, self: PeerId, points: seq<Point>, view: View, acked: map<ShardId, set<PeerId>>)
    requires self in cfg.topology
  {
    forall s, n :: s in acked && n in acked[s] ==>
      && s in cfg.topology[self] && n in cfg.topology[self][s]
      && HoldsNumeric(cfg, view, n, cfg.RingOf(self), s, PointsMap(points))
  }

  function Enough(cfg: Config, self: PeerId, s: ShardId): nat
    requires self in cfg.topology && s in cfg.topology[self]
  {
    Min(|cfg.topology[self][s]| + 1, DEFAULT_CONSISTENCY_FACTOR)
  }

  /** Every shard of the batch was written at enough replicas: here and at the acknowledging remotes. */
  ghost predicate Quorum(cfg: Config, self: PeerId, points: seq<Point>, acked: map<ShardId, set<PeerId>>)
    requires self in cfg.topology
  {
    forall s :: s in ShardsOf(cfg.RingOf(self), points) ==>
      s in cfg.topology[self] && s in acked && 1 + |acked[s]| >= Enough(cfg, self, s)
  }

  /** One upsert, failed or not: a success is a full local pass and, unless local only, a quorum. */
  ghost predicate UpsertStep(cfg: Config, self: PeerId, points: seq<Point>, localOnly: bool,
                             before: View, after: View, ok: bool, acked: map<ShardId, set<PeerId>>)
  {
    && Reached(cfg, self, points, localOnly, before, after, acked)
    && (ok ==> after[self] == UpsertEach(cfg.RingOf(self), before[self], points))
    && (ok && points != [] ==> cfg.topology[self].Keys != {})
    && (ok && !localOnly ==> Quorum(cfg, self, points, acked))
  }

  /** Executing one shard's write on the local replica and, unless local only, on its remotes. */
  ghost predicate GroupStep(cfg: Config, self: PeerId, s: ShardId, group: seq<Point>, localOnly: bool,
                            before: View, after: View, acked: set<PeerId>)
  {
    && self in cfg.topology && s in cfg.topology[self] && cfg.Fits(before) && cfg.Fits(after)
    && var sent := PointsMap(Wire(group));
    && (exists n :: 0 <= n <= |group| && after[self] == before[self][s := Written(before[self][s], group[..n])])
    && (forall n :: n in cfg.topology && n != self ==>
          if localOnly || n !in cfg.topology[self][s]
          then after[n] == before[n]
          else Touched(cfg.RingOf(n), sent, before[n], after[n]))
    && (forall n :: n in acked ==>
          n in cfg.topology[self][s] && HoldsWired(cfg, n, group, after))
  }

  /** One call to `n` to upsert points: served in full, in part, or not at all. */
  ghost predicate RemoteStep(cfg: Config, n: PeerId, points: seq<Point>, before: View, after: View, ok: bool) {
    && cfg.Fits(before) && cfg.Fits(after)
    && (forall m :: m in cfg.topology && m != n ==> after[m] == before[m])
    && (n in cfg.topology ==> Touched(cfg.RingOf(n), PointsMap(Wire(points)), before[n], after[n]))
    && (ok ==> n in cfg.topology && HoldsWired(cfg, n, points, after))
  }

  ghost predicate HoldsWired(cfg: Config, n: PeerId, points: seq<Point>, view: View) {
    && n in cfg.topology && n in view
    && forall id :: id in PointsMap(Wire(points)) ==> Holds(cfg.RingOf(n), view[n], PointsMap(Wire(points))[id])
  }

  /** A served local-only upsert is what its caller needs to know of the call. */
  lemma ServedStep(cfg: Config, n: PeerId, points: seq<Point>, before: View, after: View, ok: bool)
    requires UpsertStep(cfg, n, Wire(points), true, before, after, ok, map[])
    ensures RemoteStep(cfg, n, points, before, after, ok)
  {
    WireExactly(points);
    if ok {
      forall id | id in PointsMap(Wire(points))
        ensures Holds(cfg.RingOf(n), after[n], PointsMap(Wire(points))[id])
      {
        assert Wire(points) != [];
        WiredHeld(cfg.RingOf(n), before[n], Wire(points), id);
      }
    }
  }

  lemma NotServed(cfg: Config, n: PeerId, points: seq<Point>, view: View)
    requires cfg.Fits(view)
    ensures RemoteStep(cfg, n, points, view, view, false)
  {
  }

  /** The remotes in `peers` have been called, in order; `acked` of them reported success. */
  ghost predicate RemotesStep(cfg: Config, self: PeerId, peers: seq<PeerId>, points: seq<Point>,
                              before: View, now: View, acked: set<PeerId>)
  {
    && cfg.Fits(before) && cfg.Fits(now)
    && (forall n :: n in cfg.topology && n != self ==>
          if n in peers then Touched(cfg.RingOf(n), PointsMap(Wire(points)), before[n], now[n])
              else now[n] == before[n])
    && (forall n :: n in acked ==> n in peers && HoldsWired(cfg, n, points, now))
  }

  lemma RemotesExtend(cfg: Config, self: PeerId, peers: seq<PeerId>, i: nat, points: seq<Point>,
                      before: View, now: View, after: View, acked: set<PeerId>, ok: bool)
    requires self in cfg.topology && i < |peers| && self !in peers && DistinctPeers(peers)
    requires RemotesStep(cfg, self, peers[..i], points, before, now, acked)
    requires RemoteStep(cfg, peers[i], points, now, after, ok)
    ensures RemotesStep(cfg, self, peers[..i + 1], points, before, after, if ok then acked + {peers[i]} else acked)
    ensures peers[i] !in acked && after[self] == now[self]
  {
    assert peers[..i + 1] == peers[..i] + [peers[i]];
    assert peers[i] !in peers[..i];
    forall m | m in acked
      ensures HoldsWired(cfg, m, points, after)
    {
      assert m != peers[i] && after[m] == now[m];
    }
  }

  /** Writing the local replica of shard `s`, in full or in part. */
  ghost predicate LocalStep(cfg: Config, self: PeerId, s: ShardId, points: seq<Point>, before: View, after: View,
                            ok: bool)
  {
    && self in cfg.topology && s in cfg.topology[self] && cfg.Fits(before) && cfg.Fits(after)
    && (exists n :: 0 <= n <= |points| && after[self] == before[self][s := Written(before[self][s], points[..n])])
    && (ok ==> after[self] == before[self][s := Written(before[self][s], points)])
    && (forall m :: m in cfg.topology && m != self ==> after[m] == before[m])
  }

  lemma LocalAlone(cfg: Config, self: PeerId, s: ShardId, points: seq<Point>, before: View, after: View, ok: bool)
    requires LocalStep(cfg, self, s, points, before, after, ok)
    ensures GroupStep(cfg, self, s, points, true, before, after, {})
  {
  }

  /** The local write followed by the calls to the remotes. */
  lemma LocalThenRemotes(cfg: Config, self: PeerId, s: ShardId, points: seq<Point>,
                         before: View, written: View, after: View, ok: bool, acked: set<PeerId>)
    requires LocalStep(cfg, self, s, points, before, written, ok)
    requires self !in cfg.topology[self][s]
    requires RemotesStep(cfg, self, cfg.topology[self][s], points, written, after, acked)
    requires after[self] == written[self]
    ensures GroupStep(cfg, self, s, points, false, before, after, acked)
  {
  }

  lemma TouchedSelf(ring: HashRing, versions: Versions, stores: Stores)
    ensures Touched(ring, versions, stores, stores)
  {
  }

  /** Here, the shards still to do are as before and the others have their whole group. */
  ghost predicate GroupsWritten(cfg: Config, self: PeerId, points: seq<Point>, todo: set<ShardId>, before: View,
                                now: View)
  {
    && self in cfg.topology && cfg.Fits(before) && cfg.Fits(now)
    && forall s :: s in cfg.topology[self] ==>
         now[self][s] == if s in todo then before[self][s]
                         else Written(before[self][s], Group(cfg.RingOf(self), points, s))
  }

  ghost predicate EnoughAcks(cfg: Config, self: PeerId, acked: map<ShardId, set<PeerId>>) {
    && self in cfg.topology
    && forall s :: s in acked ==> s in cfg.topology[self] && 1 + |acked[s]| >= Enough(cfg, self, s)
  }

  /** Before anything is written: shards outside the batch have nothing to write. */
  lemma GroupsToDo(cfg: Config, self: PeerId, points: seq<Point>, view: View)
    requires self in cfg.topology && cfg.Fits(view)
    ensures GroupsWritten(cfg, self, points, ShardsOf(cfg.RingOf(self), points), view, view)
  {
    var ring := cfg.RingOf(self);
    forall s | s in cfg.topology[self] && s !in ShardsOf(ring, points)
      ensures Group(ring, points, s) == []
    {
      GroupedShards(ring, points, s);
    }
  }

  lemma GroupDone(cfg: Config, self: PeerId, points: seq<Point>, todo: set<ShardId>, s: ShardId, localOnly: bool,
                  before: View, now: View, after: View, a: set<PeerId>)
    requires GroupsWritten(cfg, self, points, todo, before, now) && s in todo
    requires GroupStep(cfg, self, s, Group(cfg.RingOf(self), points, s), localOnly, now, after, a)
    requires after[self][s] == Written(now[self][s], Group(cfg.RingOf(self), points, s))
    ensures GroupsWritten(cfg, self, points, todo - {s}, before, after)
  {
  }

  /** Once every shard of the batch is written and acknowledged enough, the upsert is a success. */
  lemma AllGroupsWritten(cfg: Config, self: PeerId, points: seq<Point>, localOnly: bool,
                         before: View, after: View, acked: map<ShardId, set<PeerId>>)
    requires Reached(cfg, self, points, localOnly, before, after, acked)
    requires GroupsWritten(cfg, self, points, {}, before, after)
    requires points != [] ==> cfg.topology[self].Keys != {}
    requires !localOnly ==> acked.Keys == ShardsOf(cfg.RingOf(self), points) && EnoughAcks(cfg, self, acked)
    ensures UpsertStep(cfg, self, points, localOnly, before, after, true, acked)
  {
    var ring := cfg.RingOf(self);
    UpsertEachByShard(ring, before[self], points);
    forall s | s in before[self]
      ensures after[self][s] == UpsertEach(ring, before[self], points)[s]
    {
      GroupWritesLikeOneByOne(ring, points, s, before[self][s]);
    }
    assert after[self] == UpsertEach(ring, before[self], points);
  }

  /** The shards a batch is grouped into are those its points are routed to. */
  lemma GroupedShards(ring: HashRing, points: seq<Point>, s: ShardId)
    ensures IdsRoutedTo(ring, Ids(points), s) != [] <==> s in ShardsOf(ring, points)
  {
    var routed := IdsRoutedTo(ring, Ids(points), s);
    RoutedIdsExactly(ring, Ids(points), s);
    if routed != [] {
      assert routed[0] in routed;
      var i :| 0 <= i < |points| && Ids(points)[i] == routed[0];
      assert points[i] in points;
    }
    if s in ShardsOf(ring, points) {
      var p :| p in points && ring.At(p.id) == s;
      var i :| 0 <= i < |points| && points[i] == p;
      assert Ids(points)[i] in Ids(points);
      assert p.id in routed;
    }
  }

  lemma AllGroupedShards(ring: HashRing, points: seq<Point>, groups: map<ShardId, seq<PointId>>)
    requires forall s :: s in groups <==> IdsRoutedTo(ring, Ids(points), s) != []
    ensures groups.Keys == ShardsOf(ring, points)
  {
    forall s
      ensures s in groups <==> s in ShardsOf(ring, points)
    {
      GroupedShards(ring, points, s);
    }
  }

  lemma NothingReached(cfg: Config, self: PeerId, points: seq<Point>, localOnly: bool, view: View)
    requires self in cfg.topology && cfg.Fits(view)
    ensures Reached(cfg, self, points, localOnly, view, view, map[])
  {
  }

  lemma SelfReaches(cfg: Config, self: PeerId, points: seq<Point>, localOnly: bool, s: ShardId,
                    now: View, after: View, a: set<PeerId>)
    requires self in cfg.topology
    requires GroupStep(cfg, self, s, Group(cfg.RingOf(self), points, s), localOnly, now, after, a)
    ensures Touched(cfg.RingOf(self), PointsMap(points), now[self], after[self])
  {
    var group := Group(cfg.RingOf(self), points, s);
    GroupExactly(cfg.RingOf(self), points, s);
    var n :| 0 <= n <= |group| && after[self] == now[self][s := Written(now[self][s], group[..n])];
    WrittenTouches(cfg.RingOf(self), PointsMap(points), now[self], s, group[..n]);
  }

  lemma OthersReach(cfg: Config, self: PeerId, points: seq<Point>, localOnly: bool, s: ShardId,
                    now: View, after: View, a: set<PeerId>)
    requires self in cfg.topology
    requires GroupStep(cfg, self, s, Group(cfg.RingOf(self), points, s), localOnly, now, after, a)
    ensures OthersTouched(cfg, self, points, localOnly, now, after)
  {
    forall m | m in cfg.topology && m != self && !localOnly && cfg.IsRemoteOf(m, self)
      ensures Touched(cfg.RingOf(m), Numeric(PointsMap(points)), now[m], after[m])
    {
      if m in cfg.topology[self][s] {
        WiredGroup(cfg.RingOf(self), points, s);
        TouchedWiden(cfg.RingOf(m), PointsMap(Wire(Group(cfg.RingOf(self), points, s))),
                     Numeric(PointsMap(points)), now[m], after[m]);
      } else {
        TouchedSelf(cfg.RingOf(m), Numeric(PointsMap(points)), now[m]);
      }
    }
  }

  lemma OthersTouchedTransitive(cfg: Config, self: PeerId, points: seq<Point>, localOnly: bool,
                                before: View, now: View, after: View)
    requires self in cfg.topology && cfg.Fits(before) && cfg.Fits(now) && cfg.Fits(after)
    requires OthersTouched(cfg, self, points, localOnly, before, now)
    requires OthersTouched(cfg, self, points, localOnly, now, after)
    ensures OthersTouched(cfg, self, points, localOnly, before, after)
  {
    forall m | m in cfg.topology && m != self && !localOnly && cfg.IsRemoteOf(m, self)
      ensures Touched(cfg.RingOf(m), Numeric(PointsMap(points)), before[m], after[m])
    {
      TouchedTransitive(cfg.RingOf(m), Numeric(PointsMap(points)), before[m], now[m], after[m]);
    }
  }

  /** A held numeric version survives anything the same batch does to the other nodes. */
  lemma AcksStay(cfg: Config, self: PeerId, points: seq<Point>, localOnly: bool,
                 now: View, after: View, acked: map<ShardId, set<PeerId>>)
    requires SoundTopology(cfg.topology) && self in cfg.topology && cfg.Fits(now) && cfg.Fits(after)
    requires OthersTouched(cfg, self, points, localOnly, now, after)
    requires AcksHold(cfg, self, points, now, acked)
    ensures AcksHold(cfg, self, points, after, acked)
  {
    var ring, versions := cfg.RingOf(self), PointsMap(points);
    PointsMapIds(points);
    forall t, m, id | t in acked && m in acked[t] && id in Numeric(versions) && ring.At(id) == t
      ensures m in cfg.topology && Holds(cfg.RingOf(m), after[m], versions[id])
    {
      assert HoldsNumeric(cfg, now, m, ring, t, versions);
      if !localOnly {
        assert cfg.IsRemoteOf(m, self);
        HeldStays(cfg.RingOf(m), Numeric(versions), now[m], after[m], id);
      }
    }
  }

  /** Executing a shard's group keeps the progress made so far and adds its acknowledgements. */
  lemma GroupReaches(cfg: Config, self: PeerId, points: seq<Point>, localOnly: bool, s: ShardId,
                     before: View, now: View, after: View, acked: map<ShardId, set<PeerId>>, a: set<PeerId>)
    requires SoundTopology(cfg.topology)
    requires Reached(cfg, self, points, localOnly, before, now, acked)
    requires GroupStep(cfg, self, s, Group(cfg.RingOf(self), points, s), localOnly, now, after, a)
    ensures Reached(cfg, self, points, localOnly, before, after, acked[s := a])
  {
    SelfReaches(cfg, self, points, localOnly, s, now, after, a);
    TouchedTransitive(cfg.RingOf(self), PointsMap(points), before[self], now[self], after[self]);
    OthersReach(cfg, self, points, localOnly, s, now, after, a);
    OthersTouchedTransitive(cfg, self, points, localOnly, before, now, after);
    AcksStay(cfg, self, points, localOnly, now, after, acked);
    NewAcksHold(cfg, self, points, localOnly, s, now, after, a);
  }

  lemma NewAcksHold(cfg: Config, self: PeerId, points: seq<Point>, localOnly: bool, s: ShardId,
                    now: View, after: View, a: set<PeerId>)
    requires self in cfg.topology
    requires GroupStep(cfg, self, s, Group(cfg.RingOf(self), points, s), localOnly, now, after, a)
    ensures forall m :: m in a ==>
              m in cfg.topology[self][s] && HoldsNumeric(cfg, after, m, cfg.RingOf(self), s, PointsMap(points))
  {
    WiredGroup(cfg.RingOf(self), points, s);
  }

  // ---------- listings ----------

  function FindById(store: Store, id: PointId): Option<Point> {
    var k := IntoString(id);
    if k in store && store[k].id == id then Some(store[k]) else None
  }

  /** What node `n` can contribute for `id` to a listing of shard `s` at `self`: remotes send numeric ids only. */
  function Offer(view: View, self: PeerId, n: PeerId, s: ShardId, id: PointId): Option<Point> {
    if n in view && s in view[n] && (n == self || id.Id?) then FindById(view[n][s], id) else None
  }

  function FirstOffer(view: View, self: PeerId, sources: seq<PeerId>, s: ShardId, id: PointId): Option<Point> {
    if sources == [] then None
    else
      var earlier := FirstOffer(view, self, sources[..|sources| - 1], s, id);
      if earlier.Some? then earlier else Offer(view, self, sources[|sources| - 1], s, id)
  }

  /** The replicas asked for shard `s`: the local one, then the remotes in their order. */
  function Sources(cfg: Config, self: PeerId, s: ShardId, localOnly: bool): seq<PeerId>
    requires self in cfg.topology && s in cfg.topology[self]
  {
    if localOnly then [self] else [self] + cfg.topology[self][s]
  }

  function Visited(cfg: Config, self: PeerId, only: Option<ShardId>): set<ShardId>
    requires self in cfg.topology
  {
    set s | s in cfg.topology[self] && (only.None? || only.value == s)
  }

  function Listed(cfg: Config, view: View, self: PeerId, s: ShardId, localOnly: bool, id: PointId): Option<Point>
    requires self in cfg.topology && s in cfg.topology[self]
  {
    FirstOffer(view, self, Sources(cfg, self, s, localOnly), s, id)
  }

  /** Some of the shards lists `p` for its id. */
  ghost predicate Shows(cfg: Config, view: View, self: PeerId, shards: set<ShardId>, localOnly: bool, p: Point)
    requires self in cfg.topology && shards <= cfg.topology[self].Keys
  {
    exists s :: s in shards && Listed(cfg, view, self, s, localOnly, p.id) == Some(p)
  }

  ghost predicate HasId(points: seq<Point>, id: PointId) {
    exists p :: p in points && p.id == id
  }

  /** The shards, each once. */
  ghost predicate OrderOf(order: seq<ShardId>, shards: set<ShardId>) {
    && (forall i, j :: 0 <= i < j < |order| ==> order[i] != order[j])
    && forall s :: s in order <==> s in shards
  }

  predicate HasShards(cfg: Config, self: PeerId, order: seq<ShardId>) {
    self in cfg.topology && forall s :: s in order ==> s in cfg.topology[self]
  }

  /** What a listing that visits the shards in this order shows for an id: what the first shard to list it does. */
  function ListedIn(cfg: Config, view: View, self: PeerId, order: seq<ShardId>, localOnly: bool,
                    id: PointId): Option<Point>
    requires HasShards(cfg, self, order)
  {
    if order == [] then None
    else
      var earlier := ListedIn(cfg, view, self, order[..|order| - 1], localOnly, id);
      if earlier.Some? then earlier else Listed(cfg, view, self, order[|order| - 1], localOnly, id)
  }

  /**
   A successful listing that visits the shards in this order: sorted, exactly what the order shows, all
   replicas reached.
   */
  ghost predicate ListsIn(cfg: Config, self: PeerId, order: seq<ShardId>, localOnly: bool, view: View,
                          points: seq<Point>)
  {
    && HasShards(cfg, self, order) && cfg.Fits(view)
    && StrictlySorted(points)
    && (forall p :: p in points <==> ListedIn(cfg, view, self, order, localOnly, p.id) == Some(p))
    && (forall s, n :: s in order && n in Sources(cfg, self, s, localOnly) ==> n in view)
  }

  /** A successful listing at `self`, in some order of the shards it visits. */
  ghost predicate ListStep(cfg: Config, self: PeerId, only: Option<ShardId>, localOnly: bool, view: View,
                           points: seq<Point>)
  {
    && self in cfg.topology
    && exists order :: OrderOf(order, Visited(cfg, self, only)) && ListsIn(cfg, self, order, localOnly, view, points)
  }

  /**
   What every listing shows, whatever its order: for each id that a visited shard lists, what some shard lists
   for it.
   */
  ghost predicate ShowsOffers(cfg: Config, self: PeerId, only: Option<ShardId>, localOnly: bool, view: View,
                              points: seq<Point>)
  {
    && self in cfg.topology && cfg.Fits(view)
    && StrictlySorted(points)
    && (forall p :: p in points ==> Shows(cfg, view, self, Visited(cfg, self, only), localOnly, p))
    && (forall s, id :: s in Visited(cfg, self, only) && Listed(cfg, view, self, s, localOnly, id).Some? ==>
        HasId(points, id))
    && (forall s, n :: s in Visited(cfg, self, only) && n in Sources(cfg, self, s, localOnly) ==> n in view)
  }

  lemma {:induction false} FirstOfferNamesItsId(view: View, self: PeerId, sources: seq<PeerId>, s: ShardId, id: PointId)
    ensures FirstOffer(view, self, sources, s, id).Some? ==> FirstOffer(view, self, sources, s, id).value.id == id
  {
    if sources != [] {
      FirstOfferNamesItsId(view, self, sources[..|sources| - 1], s, id);
    }
  }

  /**
   What an order shows for an id is a version of that id, from a shard of the order, and nothing only if no
   shard lists it.
   */
  lemma {:induction false} ListedInExactly(cfg: Config, view: View, self: PeerId, order: seq<ShardId>, localOnly: bool,
                                           id: PointId)
    requires HasShards(cfg, self, order)
    ensures var shown := ListedIn(cfg, view, self, order, localOnly, id);
            && (shown.Some? ==> shown.value.id == id
                                && exists s :: s in order && Listed(cfg, view, self, s, localOnly, id) == shown)
            && (shown.None? ==> forall s :: s in order ==> Listed(cfg, view, self, s, localOnly, id).None?)
  {
    if order != [] {
      var init, last := order[..|order| - 1], order[|order| - 1];
      assert order == init + [last];
      ListedInExactly(cfg, view, self, init, localOnly, id);
      FirstOfferNamesItsId(view, self, Sources(cfg, self, last, localOnly), last, id);
    }
  }

  lemma ListStepShows(cfg: Config, self: PeerId, only: Option<ShardId>, localOnly: bool, view: View, points: seq<Point>)
    requires ListStep(cfg, self, only, localOnly, view, points)
    ensures ShowsOffers(cfg, self, only, localOnly, view, points)
  {
    var order :| OrderOf(order, Visited(cfg, self, only)) && ListsIn(cfg, self, order, localOnly, view, points);
    forall p | p in points
      ensures Shows(cfg, view, self, Visited(cfg, self, only), localOnly, p)
    {
      ListedInExactly(cfg, view, self, order, localOnly, p.id);
    }
    forall s, id | s in Visited(cfg, self, only) && Listed(cfg, view, self, s, localOnly, id).Some?
      ensures HasId(points, id)
    {
      ListedInExactly(cfg, view, self, order, localOnly, id);
      assert ListedIn(cfg, view, self, order, localOnly, id).value in points;
    }
  }

  // ---------- sums over shards ----------

  ghost function Total(counts: map<ShardId, nat>): nat
    decreases |counts|
  {
    if counts == map[] then 0
    else
      var s :| s in counts;
      counts[s] + Total(counts - {s})
  }

  lemma {:induction false} TotalSplit(counts: map<ShardId, nat>, s: ShardId)
    requires s in counts
    ensures Total(counts) == counts[s] + Total(counts - {s})
    decreases |counts|
  {
    var t :| t in counts && Total(counts) == counts[t] + Total(counts - {t});
    if t != s {
      TotalSplit(counts - {t}, s);
      TotalSplit(counts - {s}, t);
      assert counts - {t} - {s} == counts - {s} - {t};
    }
  }

  /** How many remotes a request fans out to, for each of the given shards. */
  function FanOut(cfg: Config, self: PeerId, shards: set<ShardId>): map<ShardId, nat>
    requires self in cfg.topology
  {
    map s | s in shards && s in cfg.topology[self] :: |cfg.topology[self][s]|
  }

  lemma FanOutGrows(cfg: Config, self: PeerId, acked: map<ShardId, set<PeerId>>, s: ShardId, a: set<PeerId>)
    requires self in cfg.topology && s in cfg.topology[self] && s !in acked
    ensures Total(FanOut(cfg, self, acked[s := a].Keys)) ==
            |cfg.topology[self][s]| + Total(FanOut(cfg, self, acked.Keys))
    ensures acked[s := a].Keys == acked.Keys + {s}
  {
    UpdatedKeys(acked, s, a);
    TotalSplit(FanOut(cfg, self, acked[s := a].Keys), s);
    assert FanOut(cfg, self, acked[s := a].Keys) - {s} == FanOut(cfg, self, acked.Keys);
  }

  /** The shards reached so far are those of the batch not left to do, and each remote of each was called once. */
  ghost predicate Accounts(cfg: Config, self: PeerId, localOnly: bool, shards: set<ShardId>, todo: set<ShardId>,
                           acked: map<ShardId, set<PeerId>>, calls: nat)
  {
    && self in cfg.topology
    && (forall s :: s in shards <==> s in todo || s in acked) && (forall s :: s in todo ==> s !in acked)
    && calls == if localOnly then 0 else Total(FanOut(cfg, self, acked.Keys))
  }

  lemma AccountsGrow(cfg: Config, self: PeerId, localOnly: bool, shards: set<ShardId>, todo: set<ShardId>,
                     acked: map<ShardId, set<PeerId>>, calls: nat, s: ShardId, a: set<PeerId>)
    requires Accounts(cfg, self, localOnly, shards, todo, acked, calls)
    requires s in todo && s in cfg.topology[self]
    ensures Accounts(cfg, self, localOnly, shards, todo - {s}, acked[s := a],
                     calls + if localOnly then 0 else |cfg.topology[self][s]|)
  {
    FanOutGrows(cfg, self, acked, s, a);
  }

  /** An upsert that has been through the shards not in `todo`, all of them with success. */
  ghost predicate Underway(cfg: Config, self: PeerId, points: seq<Point>, localOnly: bool, before: View, now: View,
                           todo: set<ShardId>, acked: map<ShardId, set<PeerId>>, calls: nat)
  {
    && Reached(cfg, self, points, localOnly, before, now, acked)
    && Accounts(cfg, self, localOnly, ShardsOf(cfg.RingOf(self), points), todo, acked, calls)
    && GroupsWritten(cfg, self, points, todo, before, now)
    && (!localOnly ==> EnoughAcks(cfg, self, acked))
  }

  /**
   How an upsert ends: the step it made, the shards it reached (all of them, in success), and the calls
   it made to other nodes, which is one for each remote of each shard reached, or none if local only.
   */
  ghost predicate UpsertOutcome(cfg: Config, self: PeerId, points: seq<Point>, localOnly: bool,
                                before: View, after: View, ok: bool, acked: map<ShardId, set<PeerId>>, calls: nat)
  {
    && UpsertStep(cfg, self, points, localOnly, before, after, ok, acked)
    && acked.Keys <= ShardsOf(cfg.RingOf(self), points)
    && (ok ==> acked.Keys == ShardsOf(cfg.RingOf(self), points))
    && calls == if localOnly then 0 else Total(FanOut(cfg, self, acked.Keys))
  }

  lemma UpsertBegins(cfg: Config, self: PeerId, points: seq<Point>, localOnly: bool, view: View)
    requires self in cfg.topology && cfg.Fits(view)
    ensures Underway(cfg, self, points, localOnly, view, view, ShardsOf(cfg.RingOf(self), points), map[], 0)
  {
    NothingReached(cfg, self, points, localOnly, view);
    GroupsToDo(cfg, self, points, view);
    var none: map<ShardId, set<PeerId>> := map[];
    assert FanOut(cfg, self, none.Keys) == map[];
  }

  lemma UpsertGivesUp(cfg: Config, self: PeerId, points: seq<Point>, localOnly: bool, before: View, now: View,
                      todo: set<ShardId>, acked: map<ShardId, set<PeerId>>, calls: nat)
    requires Underway(cfg, self, points, localOnly, before, now, todo, acked, calls)
    ensures UpsertOutcome(cfg, self, points, localOnly, before, now, false, acked, calls)
  {
  }

  lemma MoreAcks(cfg: Config, self: PeerId, acked: map<ShardId, set<PeerId>>, s: ShardId, a: set<PeerId>)
    requires EnoughAcks(cfg, self, acked)
    requires s in cfg.topology[self] && 1 + |a| >= Enough(cfg, self, s)
    ensures EnoughAcks(cfg, self, acked[s := a])
  {
  }

  lemma UpsertAdvances(cfg: Config, self: PeerId, points: seq<Point>, localOnly: bool, before: View, now: View,
                       after: View, todo: set<ShardId>, acked: map<ShardId, set<PeerId>>, calls: nat, s: ShardId,
                       a: set<PeerId>, more: nat)
    requires SoundTopology(cfg.topology)
    requires Underway(cfg, self, points, localOnly, before, now, todo, acked, calls) && s in todo
    requires GroupStep(cfg, self, s, Group(cfg.RingOf(self), points, s), localOnly, now, after, a)
    requires more == if localOnly then 0 else |cfg.topology[self][s]|
    requires after[self][s] == Written(now[self][s], Group(cfg.RingOf(self), points, s))
    requires !localOnly ==> 1 + |a| >= Enough(cfg, self, s)
    ensures Underway(cfg, self, points, localOnly, before, after, todo - {s}, acked[s := a], calls + more)
  {
    GroupReaches(cfg, self, points, localOnly, s, before, now, after, acked, a);
    AccountsGrow(cfg, self, localOnly, ShardsOf(cfg.RingOf(self), points), todo, acked, calls, s, a);
    GroupDone(cfg, self, points, todo, s, localOnly, before, now, after, a);
    if !localOnly {
      MoreAcks(cfg, self, acked, s, a);
    }
  }

  lemma UpsertStops(cfg: Config, self: PeerId, points: seq<Point>, localOnly: bool, before: View, now: View,
                    after: View, todo: set<ShardId>, acked: map<ShardId, set<PeerId>>, calls: nat, s: ShardId,
                    a: set<PeerId>, more: nat)
    requires SoundTopology(cfg.topology)
    requires Underway(cfg, self, points, localOnly, before, now, todo, acked, calls) && s in todo
    requires GroupStep(cfg, self, s, Group(cfg.RingOf(self), points, s), localOnly, now, after, a)
    requires more == if localOnly then 0 else |cfg.topology[self][s]|
    ensures UpsertOutcome(cfg, self, points, localOnly, before, after, false, acked[s := a], calls + more)
  {
    GroupReaches(cfg, self, points, localOnly, s, before, now, after, acked, a);
    AccountsGrow(cfg, self, localOnly, ShardsOf(cfg.RingOf(self), points), todo, acked, calls, s, a);
  }

  lemma UpsertCompletes(cfg: Config, self: PeerId, points: seq<Point>, localOnly: bool, before: View, now: View,
                        acked: map<ShardId, set<PeerId>>, calls: nat)
    requires Underway(cfg, self, points, localOnly, before, now, {}, acked, calls)
    requires points != [] ==> cfg.topology[self].Keys != {}
    ensures UpsertOutcome(cfg, self, points, localOnly, before, now, true, acked, calls)
  {
    AllGroupsWritten(cfg, self, points, localOnly, before, now, acked);
  }
}
