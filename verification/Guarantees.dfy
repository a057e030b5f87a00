/** What clients and operators can rely on after upserts, in one step or over several. */
module Guarantees {
  import opened Types
  import opened IdText
  import opened Ring
  import opened Batches
  import opened Views
  import opened IdMaps
  import opened Listings

  // ---------- quorum ----------

  /** The nodes that hold a point in the shard their own ring gives it. */
  ghost predicate HeldBy(cfg: Config, view: View, p: Point, nodes: set<PeerId>) {
    forall n :: n in nodes ==> n in cfg.topology && n in view && Holds(cfg.RingOf(n), view[n], p)
  }

  /** The batch does not shadow the id, or two remotes acknowledged it all the same. */
  ghost predicate Spared(ring: HashRing, points: seq<Point>, acked: map<ShardId, set<PeerId>>, id: PointId) {
    || !Shadowed(ring, points, id)
    || (ring.At(id) in acked && |acked[ring.At(id)]| >= DEFAULT_CONSISTENCY_FACTOR)
  }

  /**
   After a successful upsert every numeric id of the batch is held, in its last version, by at least
   min(number of replicas, 2) distinct nodes. One of them is the node itself, unless the batch shadows the id
   there (`ShadowedIsLostHere`); then two remotes must have acknowledged it.
   */
  lemma QuorumOnDistinctNodes(cfg: Config, self: PeerId, points: seq<Point>, before: View, after: View,
                              acked: map<ShardId, set<PeerId>>, id: PointId) returns (nodes: set<PeerId>)
    requires SoundTopology(cfg.topology)
    requires UpsertStep(cfg, self, points, false, before, after, true, acked)
    requires id in Numeric(PointsMap(points)) && Spared(cfg.RingOf(self), points, acked, id)
    ensures var s := cfg.RingOf(self).At(id);
            s in cfg.topology[self] && |nodes| >= Enough(cfg, self, s)
    ensures !Shadowed(cfg.RingOf(self), points, id) ==> self in nodes
    ensures HeldBy(cfg, after, PointsMap(points)[id], nodes)
  {
    var ring, p := cfg.RingOf(self), PointsMap(points)[id];
    var s := ring.At(id);
    PointsMapIds(points);
    assert p in points && p.id == id && points != [];
    assert s in ShardsOf(ring, points);
    VersionSurvives(ring, before[self], points, id);
    assert self !in acked[s];
    AddedOne(acked[s], self);
    nodes := if Shadowed(ring, points, id) then acked[s] else acked[s] + {self};
    forall n | n in acked[s]
      ensures n in cfg.topology && Holds(cfg.RingOf(n), after[n], p)
    {
      assert HoldsNumeric(cfg, after, n, ring, s, PointsMap(points));
    }
  }

  /** The node that ran the upsert keeps an id's last version exactly when the batch does not shadow it. */
  lemma ShadowedIsLostHere(cfg: Config, self: PeerId, points: seq<Point>, localOnly: bool, before: View, after: View,
                           acked: map<ShardId, set<PeerId>>, id: PointId)
    requires UpsertStep(cfg, self, points, localOnly, before, after, true, acked)
    requires id in PointsMap(points)
    ensures Holds(cfg.RingOf(self), after[self], PointsMap(points)[id]) <==> !Shadowed(cfg.RingOf(self), points, id)
  {
    PointsMapIds(points);
    VersionSurvives(cfg.RingOf(self), before[self], points, id);
  }

  /** For batches of canonical ids nothing is shadowed, so the quorum holds for every numeric id. */
  lemma CanonicalQuorum(cfg: Config, self: PeerId, points: seq<Point>, before: View, after: View,
                        acked: map<ShardId, set<PeerId>>)
    requires SoundTopology(cfg.topology) && CanonicalBatch(points)
    requires UpsertStep(cfg, self, points, false, before, after, true, acked)
    ensures forall id :: id in Numeric(PointsMap(points)) ==>
              cfg.RingOf(self).At(id) in cfg.topology[self]
              && exists nodes: set<PeerId> :: self in nodes && |nodes| >= Enough(cfg, self, cfg.RingOf(self).At(id))
                                              && HeldBy(cfg, after, PointsMap(points)[id], nodes)
  {
    forall id | id in Numeric(PointsMap(points))
      ensures cfg.RingOf(self).At(id) in cfg.topology[self]
      ensures exists nodes: set<PeerId> :: self in nodes && |nodes| >= Enough(cfg, self, cfg.RingOf(self).At(id))
                                           && HeldBy(cfg, after, PointsMap(points)[id], nodes)
    {
      CanonicalUnshadowed(cfg.RingOf(self), points, id);
      var nodes := QuorumOnDistinctNodes(cfg, self, points, before, after, acked, id);
    }
  }

  /** The last version of the id is at a quorum of the replicas of its shard. */
  ghost predicate AtQuorum(cfg: Config, self: PeerId, view: View, p: Point)
    requires self in cfg.topology
  {
    && cfg.RingOf(self).At(p.id) in cfg.topology[self]
    && exists nodes: set<PeerId> ::
         |nodes| >= Enough(cfg, self, cfg.RingOf(self).At(p.id)) && HeldBy(cfg, view, p, nodes)
  }

  /** Some other node has the point. */
  ghost predicate HeldElsewhere(cfg: Config, self: PeerId, view: View, p: Point) {
    exists n :: n != self && HeldBy(cfg, view, p, {n})
  }

  /**
   No other node is sent a text: one that has its last version afterwards had it before, and one that had it
   before still has it unless the text is that of a number.
   */
  lemma TextsAreNotSent(cfg: Config, self: PeerId, points: seq<Point>, before: View, after: View, ok: bool,
                        acked: map<ShardId, set<PeerId>>, n: PeerId, id: PointId)
    requires UpsertStep(cfg, self, points, false, before, after, ok, acked)
    requires n != self && id in PointsMap(points) && id.Uuid?
    ensures HeldBy(cfg, after, PointsMap(points)[id], {n}) ==> HeldBy(cfg, before, PointsMap(points)[id], {n})
    ensures Canonical(id) && HeldBy(cfg, before, PointsMap(points)[id], {n}) ==>
              HeldBy(cfg, after, PointsMap(points)[id], {n})
  {
    PointsMapIds(points);
    if n in cfg.topology {
      var ring, k := cfg.RingOf(n), IntoString(id);
      var s := ring.At(id);
      TouchedByOthers(cfg, self, points, before, after, n);
      if s in before[n] {
        assert OldOrVersion(ring, Numeric(PointsMap(points)), s, k, Get(before[n][s], k), Get(after[n][s], k));
        forall other | Canonical(id) && other in Numeric(PointsMap(points)) && Lands(ring, other, s, k)
          ensures false
        {
          KeysAreInjective(other, id);
        }
      }
    }
  }

  /** Two nodes that hold a point are a quorum for it, and so is one where there are no remotes. */
  lemma TwoAreAQuorum(cfg: Config, self: PeerId, view: View, p: Point, n: PeerId)
    requires self in cfg.topology && cfg.RingOf(self).At(p.id) in cfg.topology[self]
    requires HeldBy(cfg, view, p, {self}) && HeldBy(cfg, view, p, {n})
    requires n != self || cfg.topology[self][cfg.RingOf(self).At(p.id)] == []
    ensures AtQuorum(cfg, self, view, p)
  {
    var nodes := {self, n};
    assert |nodes| == if n == self then 1 else 2;
    assert HeldBy(cfg, view, p, nodes);
  }

  lemma QuorumHasAnother(cfg: Config, self: PeerId, view: View, p: Point)
    requires self in cfg.topology && AtQuorum(cfg, self, view, p)
    requires cfg.topology[self][cfg.RingOf(self).At(p.id)] != []
    ensures HeldElsewhere(cfg, self, view, p)
  {
    var nodes: set<PeerId> :|
      |nodes| >= Enough(cfg, self, cfg.RingOf(self).At(p.id)) && HeldBy(cfg, view, p, nodes);
    var n := OtherThan(nodes, self);
    assert HeldBy(cfg, view, p, {n});
  }

  /** A text has the quorum exactly if its shard has no remotes, or some other node had the very point already. */
  lemma TextQuorumExactly(cfg: Config, self: PeerId, points: seq<Point>, before: View, after: View,
                          acked: map<ShardId, set<PeerId>>, id: PointId)
    requires UpsertStep(cfg, self, points, false, before, after, true, acked)
    requires id in PointsMap(points) && id.Uuid? && Canonical(id)
    requires PointsMap(points)[id].id == id && cfg.RingOf(self).At(id) in cfg.topology[self]
    requires HeldBy(cfg, after, PointsMap(points)[id], {self})
    ensures AtQuorum(cfg, self, after, PointsMap(points)[id]) <==>
            cfg.topology[self][cfg.RingOf(self).At(id)] == [] || HeldElsewhere(cfg, self, before, PointsMap(points)[id])
  {
    var p := PointsMap(points)[id];
    if HeldElsewhere(cfg, self, before, p) {
      var n :| n != self && HeldBy(cfg, before, p, {n});
      TextsAreNotSent(cfg, self, points, before, after, true, acked, n, id);
      TwoAreAQuorum(cfg, self, after, p, n);
    } else if cfg.topology[self][cfg.RingOf(self).At(id)] == [] {
      TwoAreAQuorum(cfg, self, after, p, self);
    } else if AtQuorum(cfg, self, after, p) {
      QuorumHasAnother(cfg, self, after, p);
      var n :| n != self && HeldBy(cfg, after, p, {n});
      TextsAreNotSent(cfg, self, points, before, after, true, acked, n, id);
    }
  }

  /**
   Which ids of a successful batch have the quorum that was reported, among those whose text is no number and
   that the batch does not shadow: the numbers, all of them; a text if and only if its shard has no remotes, or
   some other node happened to have the very point already.
   */
  lemma QuorumExactly(cfg: Config, self: PeerId, points: seq<Point>, before: View, after: View,
                      acked: map<ShardId, set<PeerId>>, id: PointId)
    requires SoundTopology(cfg.topology)
    requires UpsertStep(cfg, self, points, false, before, after, true, acked)
    requires id in PointsMap(points) && Canonical(id) && !Shadowed(cfg.RingOf(self), points, id)
    ensures var p, s := PointsMap(points)[id], cfg.RingOf(self).At(id);
            && s in cfg.topology[self]
            && (AtQuorum(cfg, self, after, p) <==>
                id.Id? || cfg.topology[self][s] == [] || HeldElsewhere(cfg, self, before, p))
  {
    PointsMapIds(points);
    assert cfg.RingOf(self).At(id) in ShardsOf(cfg.RingOf(self), points);
    if id.Id? {
      var nodes := QuorumOnDistinctNodes(cfg, self, points, before, after, acked, id);
    } else {
      ShadowedIsLostHere(cfg, self, points, false, before, after, acked, id);
      TextQuorumExactly(cfg, self, points, before, after, acked, id);
    }
  }

  // ---------- failure and retry ----------

  /** A point is the last occurrence of its id in the batch. */
  ghost predicate LastOccurrence(points: seq<Point>, p: Point) {
    exists i :: 0 <= i < |points| && points[i] == p && forall j :: i < j < |points| ==> points[j].id != p.id
  }

  lemma {:induction false} VersionIsLastOccurrence(points: seq<Point>, id: PointId)
    requires id in PointsMap(points)
    ensures LastOccurrence(points, PointsMap(points)[id]) && PointsMap(points)[id].id == id
  {
    var init, last := points[..|points| - 1], points[|points| - 1];
    if last.id == id {
      assert points[|points| - 1] == last;
    } else {
      VersionIsLastOccurrence(init, id);
      var i :| 0 <= i < |init| && init[i] == PointsMap(init)[id]
               && forall j :: i < j < |init| ==> init[j].id != PointsMap(init)[id].id;
      assert points[i] == init[i];
    }
  }

  /**
   However an upsert ends, a cell of any node that is not as before holds the last occurrence of an id
   of the batch, in the shard and under the key that node gives it: never a superseded duplicate.
   Nodes other than the one that ran it only ever change cells to points with numeric ids.
   */
  lemma FailureLeavesNothingSuperseded(cfg: Config, self: PeerId, points: seq<Point>, localOnly: bool,
                                       before: View, after: View, ok: bool, acked: map<ShardId, set<PeerId>>,
                                       n: PeerId, s: ShardId, k: string)
    requires UpsertStep(cfg, self, points, localOnly, before, after, ok, acked)
    requires n in cfg.topology && s in cfg.topology[n]
    requires Get(after[n][s], k) != Get(before[n][s], k)
    ensures k in after[n][s] && LastOccurrence(points, after[n][s][k]) && Lands(cfg.RingOf(n), after[n][s][k].id, s, k)
    ensures n != self ==> after[n][s][k].id.Id? && cfg.IsRemoteOf(n, self) && !localOnly
  {
    var versions := if n == self then PointsMap(points) else Numeric(PointsMap(points));
    assert OldOrVersion(cfg.RingOf(n), versions, s, k, Get(before[n][s], k), Get(after[n][s], k));
    var id :| id in versions && Lands(cfg.RingOf(n), id, s, k) && Get(after[n][s], k) == Some(versions[id]);
    VersionIsLastOccurrence(points, id);
  }

  /** Remote `n` acknowledged every shard of the batch. */
  ghost predicate FullyAcked(cfg: Config, self: PeerId, points: seq<Point>, acked: map<ShardId, set<PeerId>>, n: PeerId)
    requires self in cfg.topology
  {
    forall s :: s in ShardsOf(cfg.RingOf(self), points) ==> s in acked && n in acked[s]
  }

  lemma {:induction false} WireVersions(points: seq<Point>)
    ensures PointsMap(Wire(points)) == Numeric(PointsMap(points))
  {
    if points != [] {
      WireVersions(points[..|points| - 1]);
      var sent := Wire(points);
      if points[|points| - 1].id.Id? {
        assert sent[..|sent| - 1] == Wire(points[..|points| - 1]);
      }
    }
  }

  /** A remote that acknowledged every shard made a full pass over the batch's numeric points. */
  lemma FullAckIsAFullPass(cfg: Config, self: PeerId, points: seq<Point>, before: View, after: View, ok: bool,
                           acked: map<ShardId, set<PeerId>>, n: PeerId)
    requires UpsertStep(cfg, self, points, false, before, after, ok, acked)
    requires n in cfg.topology && n != self && FullyAcked(cfg, self, points, acked, n)
    ensures after[n] == UpsertEach(cfg.RingOf(n), before[n], Wire(points))
  {
    var ring, sent := cfg.RingOf(n), Wire(points);
    var pass := UpsertEach(ring, before[n], sent);
    WireVersions(points);
    PointsMapIds(points);
    UpsertEachByShard(ring, before[n], sent);
    TouchedByOthers(cfg, self, points, before, after, n);
    forall s, k | s in after[n]
      ensures Get(after[n][s], k) == Get(pass[s], k)
    {
      UpsertEachAt(ring, before[n], sent, s, k);
      CellAfter(ring, sent, s, k);
      assert OldOrVersion(ring, Numeric(PointsMap(points)), s, k, Get(before[n][s], k), Get(after[n][s], k));
      var last := LastAt(RoutedTo(ring, sent, s), k);
      if last.Some? {
        var id := last.value.id;
        assert PointsMap(points)[id] in points;
        var t := cfg.RingOf(self).At(id);
        assert t in ShardsOf(cfg.RingOf(self), points);
        assert HoldsNumeric(cfg, after, n, cfg.RingOf(self), t, PointsMap(points));
        assert Holds(ring, after[n], PointsMap(points)[id]);
      }
    }
    SameStores(after[n], pass);
  }

  lemma TouchedByOthers(cfg: Config, self: PeerId, points: seq<Point>, before: View, after: View, n: PeerId)
    requires self in cfg.topology && cfg.Fits(before) && cfg.Fits(after)
    requires OthersTouched(cfg, self, points, false, before, after)
    requires n in cfg.topology && n != self
    ensures Touched(cfg.RingOf(n), Numeric(PointsMap(points)), before[n], after[n])
  {
    TouchedSelf(cfg.RingOf(n), Numeric(PointsMap(points)), before[n]);
  }

  /**
   Running a batch again to success after any earlier attempt gives the state of one clean run: here,
   and at every remote that acknowledged the whole batch in both.
   */
  lemma RetryEndsLikeOneCleanRun(cfg: Config, self: PeerId, points: seq<Point>, start: View,
                                 broken: View, firstOk: bool, firstAcked: map<ShardId, set<PeerId>>,
                                 retried: View, acked: map<ShardId, set<PeerId>>,
                                 clean: View, cleanAcked: map<ShardId, set<PeerId>>)
    requires UpsertStep(cfg, self, points, false, start, broken, firstOk, firstAcked)
    requires UpsertStep(cfg, self, points, false, broken, retried, true, acked)
    requires UpsertStep(cfg, self, points, false, start, clean, true, cleanAcked)
    ensures retried[self] == clean[self]
    ensures forall n :: n in cfg.topology && n != self
                        && FullyAcked(cfg, self, points, acked, n) && FullyAcked(cfg, self, points, cleanAcked, n) ==>
                          retried[n] == clean[n]
  {
    RetryAbsorbs(cfg.RingOf(self), start[self], broken[self], points);
    forall n | n in cfg.topology && n != self
               && FullyAcked(cfg, self, points, acked, n) && FullyAcked(cfg, self, points, cleanAcked, n)
      ensures retried[n] == clean[n]
    {
      FullAckIsAFullPass(cfg, self, points, broken, retried, true, acked, n);
      FullAckIsAFullPass(cfg, self, points, start, clean, true, cleanAcked, n);
      TouchedByOthers(cfg, self, points, start, broken, n);
      WireVersions(points);
      RetryAbsorbs(cfg.RingOf(n), start[n], broken[n], Wire(points));
    }
  }

  // ---------- replica agreement ----------

  predicate UniformShards(cfg: Config) {
    forall m, n :: m in cfg.topology && n in cfg.topology ==> cfg.topology[m].Keys == cfg.topology[n].Keys
  }

  /** All nodes find the same point, or none, for every numeric id in every shard. */
  ghost predicate Agreed(cfg: Config, view: View) {
    && cfg.Fits(view)
    && forall m, n, s, id: PointId ::
         m in cfg.topology && n in cfg.topology && s in cfg.topology[m] && s in cfg.topology[n] && id.Id? ==>
           FindById(view[m][s], id) == FindById(view[n][s], id)
  }

  /** What a full pass leaves under a canonical id in shard `s`. */
  lemma FindAfterPass(ring: HashRing, stores: Stores, points: seq<Point>, s: ShardId, id: PointId)
    requires CanonicalBatch(points) && Canonical(id) && s in stores && ring.nodes == stores.Keys
    ensures s in UpsertEach(ring, stores, points)
    ensures FindById(UpsertEach(ring, stores, points)[s], id) ==
            if id in PointsMap(points) && ring.At(id) == s then Some(PointsMap(points)[id]) else FindById(stores[s], id)
  {
    var k := IntoString(id);
    UpsertEachAt(ring, stores, points, s, k);
    CellAfter(ring, points, s, k);
    CanonicalVersions(points);
    var last := LastAt(RoutedTo(ring, points, s), k);
    if last.Some? {
      KeysAreInjective(last.value.id, id);
    } else {
      assert ring.At(id) == s ==> Lands(ring, id, s, k);
    }
  }

  /** After an upsert every other node acknowledged in full, node `n` finds for a numeric id what `self` finds. */
  lemma FindAfterAckedUpsert(cfg: Config, self: PeerId, points: seq<Point>, before: View, after: View,
                             acked: map<ShardId, set<PeerId>>, n: PeerId, s: ShardId, id: PointId)
    requires UniformShards(cfg) && CanonicalBatch(points) && id.Id?
    requires UpsertStep(cfg, self, points, false, before, after, true, acked)
    requires n in cfg.topology && (n != self ==> FullyAcked(cfg, self, points, acked, n))
    requires s in cfg.topology[n]
    ensures FindById(after[n][s], id) ==
            if id in PointsMap(points) && cfg.RingOf(self).At(id) == s then Some(PointsMap(points)[id])
            else FindById(before[n][s], id)
  {
    assert cfg.RingOf(n) == cfg.RingOf(self);
    if n == self {
      FindAfterPass(cfg.RingOf(n), before[n], points, s, id);
    } else {
      FullAckIsAFullPass(cfg, self, points, before, after, true, acked, n);
      WireExactly(points);
      WireVersions(points);
      FindAfterPass(cfg.RingOf(n), before[n], Wire(points), s, id);
    }
  }

  /** An upsert every other node acknowledged in full keeps the nodes in agreement. */
  lemma AgreementIsKept(cfg: Config, self: PeerId, points: seq<Point>, before: View, after: View,
                        acked: map<ShardId, set<PeerId>>)
    requires UniformShards(cfg) && CanonicalBatch(points) && Agreed(cfg, before)
    requires UpsertStep(cfg, self, points, false, before, after, true, acked)
    requires forall n :: n in cfg.topology && n != self ==> FullyAcked(cfg, self, points, acked, n)
    ensures Agreed(cfg, after)
  {
    forall m, n, s, id: PointId | m in cfg.topology && n in cfg.topology && s in cfg.topology[m] && s in cfg.topology[n]
                                  && id.Id?
      ensures FindById(after[m][s], id) == FindById(after[n][s], id)
    {
      FindAfterAckedUpsert(cfg, self, points, before, after, acked, m, s, id);
      FindAfterAckedUpsert(cfg, self, points, before, after, acked, n, s, id);
      assert FindById(before[m][s], id) == FindById(before[n][s], id);
    }
  }

  // ---------- calls between nodes ----------

  lemma WithoutOne<K, V>(m: map<K, V>, k: K)
    requires k in m
    ensures |m| == |m - {k}| + 1
  {
    assert (m - {k}).Keys == m.Keys - {k};
  }

  lemma {:induction false} TotalBound(counts: map<ShardId, nat>, most: nat)
    requires forall s :: s in counts ==> counts[s] <= most
    ensures Total(counts) <= |counts| * most
    decreases |counts|
  {
    if counts.Keys == {} {
      assert counts == map[];
    } else {
      var s :| s in counts;
      TotalSplit(counts, s);
      TotalBound(counts - {s}, most);
      WithoutOne(counts, s);
      TimesOneMore(|counts - {s}|, most);
    }
  }

  /** A client upsert makes at most (shards of the batch) x (remotes of each) calls; a served one makes none. */
  lemma CallsAreBounded(cfg: Config, self: PeerId, points: seq<Point>, localOnly: bool, before: View, after: View,
                        ok: bool, acked: map<ShardId, set<PeerId>>, calls: nat, remotes: nat)
    requires UpsertOutcome(cfg, self, points, localOnly, before, after, ok, acked, calls)
    requires forall s :: s in cfg.topology[self] ==> |cfg.topology[self][s]| <= remotes
    ensures calls <= |ShardsOf(cfg.RingOf(self), points)| * remotes
    ensures localOnly ==> calls == 0
  {
    if !localOnly {
      FanOutBound(cfg, self, acked.Keys, ShardsOf(cfg.RingOf(self), points), remotes);
    }
  }

  /** So does a listing: at most (shards visited) x (remotes of each) calls, and none when it is served. */
  lemma ListCallsAreBounded(cfg: Config, self: PeerId, only: Option<ShardId>, localOnly: bool, reached: set<ShardId>,
                            calls: nat, remotes: nat)
    requires ListCost(cfg, self, only, localOnly, reached, calls)
    requires forall s :: s in cfg.topology[self] ==> |cfg.topology[self][s]| <= remotes
    ensures calls <= |Visited(cfg, self, only)| * remotes
    ensures localOnly ==> calls == 0
  {
    if !localOnly {
      FanOutBound(cfg, self, reached, Visited(cfg, self, only), remotes);
    }
  }

  lemma FanOutBound(cfg: Config, self: PeerId, reached: set<ShardId>, shards: set<ShardId>, remotes: nat)
    requires self in cfg.topology && reached <= shards
    requires forall s :: s in cfg.topology[self] ==> |cfg.topology[self][s]| <= remotes
    ensures Total(FanOut(cfg, self, reached)) <= |shards| * remotes
  {
    var counts := FanOut(cfg, self, reached);
    TotalBound(counts, remotes);
    SubsetSize(counts.Keys, shards);
    TimesMonotone(|counts.Keys|, |shards|, remotes);
  }
}
