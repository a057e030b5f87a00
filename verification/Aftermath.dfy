/** What an upsert has left behind when it ends, at the node that ran it and at the nodes it called. */
module Aftermath {
  import opened Types
  import opened IdText
  import opened Batches
  import opened Views
  import opened Listings
  import opened Failures
  import opened Effects

  // ---------- at the node itself ----------

  lemma HereMore(cfg: Config, usable: Usable, faults: Faults, self: PeerId, points: seq<Point>, localOnly: bool,
                 reached: set<ShardId>, trail: Trail, k: nat, before: Stores)
    requires self in cfg.topology && trail.Fits() && k < |trail.order| && trail.order[k] !in reached
    requires cfg.Fits(trail.views[k])
    requires HereExactly(cfg, usable, self, points, faults.local, before, trail.views[k][self], reached)
    requires GroupAt(cfg, usable, faults, self, points, localOnly, trail, k)
    ensures cfg.Fits(trail.views[k + 1])
    ensures HereExactly(cfg, usable, self, points, faults.local, before, trail.views[k + 1][self],
                        reached + {trail.order[k]})
  {
  }

  function FirstShards(order: seq<ShardId>, k: nat): set<ShardId>
    requires k <= |order|
  {
    set i | 0 <= i < k :: order[i]
  }

  lemma FirstShardsMore(order: seq<ShardId>, k: nat)
    requires k < |order| && forall i, j :: 0 <= i < j < |order| ==> order[i] != order[j]
    ensures FirstShards(order, k + 1) == FirstShards(order, k) + {order[k]} && order[k] !in FirstShards(order, k)
  {
  }

  lemma {:induction false} WrittenUpTo(cfg: Config, usable: Usable, faults: Faults, self: PeerId, points: seq<Point>,
                                       localOnly: bool, trail: Trail, k: nat)
    requires self in cfg.topology && GroupsExactly(cfg, usable, faults, self, points, localOnly, trail)
    requires k <= |trail.order| && forall i, j :: 0 <= i < j < |trail.order| ==> trail.order[i] != trail.order[j]
    requires cfg.Fits(trail.views[0])
    ensures cfg.Fits(trail.views[k])
    ensures HereExactly(cfg, usable, self, points, faults.local, trail.views[0][self], trail.views[k][self],
                        FirstShards(trail.order, k))
  {
    if k > 0 {
      WrittenUpTo(cfg, usable, faults, self, points, localOnly, trail, k - 1);
      assert GroupAt(cfg, usable, faults, self, points, localOnly, trail, k - 1);
      FirstShardsMore(trail.order, k - 1);
      HereMore(cfg, usable, faults, self, points, localOnly, FirstShards(trail.order, k - 1), trail, k - 1,
               trail.views[0][self]);
    }
  }

  /** Every shard reached has been written once, in the part its fault lets through; no other has changed. */
  lemma WrittenHere(cfg: Config, usable: Usable, faults: Faults, self: PeerId, points: seq<Point>, localOnly: bool,
                    trail: Trail, before: View, after: View, ok: bool)
    requires UpsertExactly(cfg, usable, faults, self, points, localOnly, trail, before, after, ok)
    ensures HereExactly(cfg, usable, self, points, faults.local, before[self], after[self], Shards(trail.order))
  {
    WrittenUpTo(cfg, usable, faults, self, points, localOnly, trail, |trail.order|);
    assert FirstShards(trail.order, |trail.order|) == Shards(trail.order);
  }

  /** So a local upsert leaves in each shard it reached what its fault lets through, and stops at the first failure. */
  lemma LocalUpsertExactly(cfg: Config, usable: Usable, faults: Faults, self: PeerId, points: seq<Point>,
                           trail: Trail, before: View, after: View, ok: bool)
    requires UpsertExactly(cfg, usable, faults, self, points, true, trail, before, after, ok)
    ensures LocalOutcome(cfg, usable, self, points, faults.local, before[self], after[self], Shards(trail.order))
  {
    WrittenHere(cfg, usable, faults, self, points, true, trail, before, after, ok);
    OrderStops(cfg, usable, faults, self, points, trail.order, ok);
  }

  lemma LocalUpsertServes(cfg: Config, usable: Usable, faults: Faults, self: PeerId, points: seq<Point>, trail: Trail,
                          before: View, after: View, ok: bool, acked: map<ShardId, set<PeerId>>)
    requires UpsertStep(cfg, self, points, true, before, after, ok, acked)
    requires UpsertExactly(cfg, usable, faults, self, points, true, trail, before, after, ok)
    ensures ServedExactly(cfg, usable, self, points, faults.local, before, after)
  {
    LocalUpsertExactly(cfg, usable, faults, self, points, trail, before, after, ok);
  }

  lemma OrderStops(cfg: Config, usable: Usable, faults: Faults, self: PeerId, points: seq<Point>, order: seq<ShardId>,
                   ok: bool)
    requires OrderExactly(cfg, usable, faults, self, points, true, order, ok)
    ensures UpToFirstFailure(cfg, usable, self, points, faults.local, Shards(order))
  {
    forall s | s in order && !WriteSucceeds(usable, self, s, faults.local.writing(s))
      ensures s == order[|order| - 1] && !ok
    {
      var i :| 0 <= i < |order| && order[i] == s;
    }
    if ok {
      assert Shards(order) == ShardsOf(cfg.RingOf(self), points);
    } else if cfg.topology[self].Keys != {} {
      assert order[|order| - 1] in Shards(order);
    }
  }

  /**
   After an upsert, however it ended, a read by id at the node finds the last version of each id whose shard it
   reached and could write: also when it failed for want of acknowledgements. The batch must not shadow the id.
   */
  lemma ReachedIsFoundHere(cfg: Config, usable: Usable, faults: Faults, self: PeerId, points: seq<Point>,
                           localOnly: bool, trail: Trail, before: View, after: View, ok: bool, id: PointId)
    requires UpsertExactly(cfg, usable, faults, self, points, localOnly, trail, before, after, ok)
    requires id in PointsMap(points) && !Shadowed(cfg.RingOf(self), points, id)
    requires cfg.RingOf(self).At(id) in trail.order
    requires WriteSucceeds(usable, self, cfg.RingOf(self).At(id), faults.local.writing(cfg.RingOf(self).At(id)))
    ensures Found(cfg.RingOf(self), after[self], [id]) == [PointsMap(points)[id]]
  {
    var ring := cfg.RingOf(self);
    var s, k := ring.At(id), IntoString(id);
    WrittenHere(cfg, usable, faults, self, points, localOnly, trail, before, after, ok);
    PartWrittenExactly(usable, self, s, before[self][s], Group(ring, points, s), faults.local.writing(s));
    GroupWritesLikeOneByOne(ring, points, s, before[self][s]);
    WrittenAt(before[self][s], RoutedTo(ring, points, s), k);
    PointsMapIds(points);
    var i :| 0 <= i < |points| && Ids(points)[i] == id;
    UnshadowedIsLast(ring, points, id);
    CellAfter(ring, points, s, k);
    FoundInOrder(ring, after[self], [], [], id);
  }

  lemma TakenButLastSucceeded(cfg: Config, usable: Usable, faults: Faults, self: PeerId, points: seq<Point>,
                              localOnly: bool, order: seq<ShardId>, s: ShardId)
    requires OrderExactly(cfg, usable, faults, self, points, localOnly, order, false) && s in order
    ensures s == order[|order| - 1] || WriteSucceeds(usable, self, s, faults.local.writing(s))
  {
    var i :| 0 <= i < |order| && order[i] == s;
  }

  lemma LastMissedItsQuorum(cfg: Config, usable: Usable, faults: Faults, self: PeerId, points: seq<Point>,
                            order: seq<ShardId>, last: ShardId)
    requires OrderExactly(cfg, usable, faults, self, points, false, order, false) && order != []
    requires last == order[|order| - 1] && WriteSucceeds(usable, self, last, faults.local.writing(last))
    ensures last in cfg.topology[self]
    ensures 1 + |Acks(cfg, usable, faults, self, last, Group(cfg.RingOf(self), points, last), false)|
            < Enough(cfg, self, last)
  {
    assert last in order;
  }

  /**
   An upsert that failed, though the last shard it took was written here, missed the quorum of that shard. What
   it gave to the shards it took is stored here all the same, and found by id.
   */
  lemma MissedQuorumIsStoredHere(cfg: Config, usable: Usable, faults: Faults, self: PeerId, points: seq<Point>,
                                 trail: Trail, before: View, after: View, id: PointId, last: ShardId)
    requires UpsertExactly(cfg, usable, faults, self, points, false, trail, before, after, false) && trail.order != []
    requires last == trail.order[|trail.order| - 1] && WriteSucceeds(usable, self, last, faults.local.writing(last))
    requires id in PointsMap(points) && !Shadowed(cfg.RingOf(self), points, id)
    ensures last in cfg.topology[self]
    ensures 1 + |Acks(cfg, usable, faults, self, last, Group(cfg.RingOf(self), points, last), false)|
            < Enough(cfg, self, last)
    ensures cfg.RingOf(self).At(id) in trail.order ==>
              Found(cfg.RingOf(self), after[self], [id]) == [PointsMap(points)[id]]
  {
    LastMissedItsQuorum(cfg, usable, faults, self, points, trail.order, last);
    if cfg.RingOf(self).At(id) in trail.order {
      TakenButLastSucceeded(cfg, usable, faults, self, points, false, trail.order, cfg.RingOf(self).At(id));
      ReachedIsFoundHere(cfg, usable, faults, self, points, false, trail, before, after, false, id);
    }
  }

  /** An id whose shard was not reached is found as before. */
  lemma UnreachedIsAsBefore(cfg: Config, usable: Usable, faults: Faults, self: PeerId, points: seq<Point>,
                            localOnly: bool, trail: Trail, before: View, after: View, ok: bool, id: PointId)
    requires UpsertExactly(cfg, usable, faults, self, points, localOnly, trail, before, after, ok)
    requires cfg.RingOf(self).At(id) !in trail.order
    ensures Found(cfg.RingOf(self), after[self], [id]) == Found(cfg.RingOf(self), before[self], [id])
  {
    WrittenHere(cfg, usable, faults, self, points, localOnly, trail, before, after, ok);
    FoundInOrder(cfg.RingOf(self), after[self], [], [], id);
    FoundInOrder(cfg.RingOf(self), before[self], [], [], id);
  }

  // ---------- at the nodes called ----------

  /** A call leaves what a node holds for a number that is not among its points. */
  lemma CallSpares(cfg: Config, usable: Usable, n: PeerId, points: seq<Point>, fault: CallFault, before: Stores,
                   after: Stores, id: PointId)
    requires n in cfg.topology && id.Id? && forall p :: p in points ==> p.id != id
    requires CallEffect(cfg, usable, n, points, fault, before, after)
    requires before.Keys == after.Keys == cfg.topology[n].Keys
    ensures Lookup(cfg.RingOf(n), after, id) == Lookup(cfg.RingOf(n), before, id)
  {
    var ring, sent := cfg.RingOf(n), Wire(points);
    var t, k := ring.At(id), IntoString(id);
    if fault.Served? && t in before {
      var reached :| LocalOutcome(cfg, usable, n, sent, fault.local, before, after, reached);
      if t in reached {
        PartSpares(usable, n, t, before[t], Group(ring, sent, t), fault.local.writing(t), k) by {
          WireExactly(points);
          GroupExactly(ring, sent, t);
          PointsMapIds(sent);
          forall p | p in Group(ring, sent, t)
            ensures IntoString(p.id) != k
          {
            if IntoString(p.id) == k {
              KeysAreInjective(p.id, id);
            }
          }
        }
      }
    }
  }

  lemma PartSpares(usable: Usable, n: PeerId, t: ShardId, store: Store, points: seq<Point>, fault: Option<nat>,
                   k: string)
    requires forall p :: p in points ==> IntoString(p.id) != k
    ensures Get(PartWritten(usable, n, t, store, points, fault), k) == Get(store, k)
  {
    PartWrittenExactly(usable, n, t, store, points, fault);
    var m := if fault.Some? && fault.value < |points| then fault.value else |points|;
    TakeAll(points);
    WrittenAt(store, points[..m], k);
    LastAtOccurs(points[..m], k);
  }

  /** A call that is served in full leaves the last version of each number among its points. */
  lemma CallStores(cfg: Config, usable: Usable, n: PeerId, points: seq<Point>, fault: CallFault, before: Stores,
                   after: Stores, id: PointId)
    requires n in cfg.topology && id in PointsMap(Wire(points))
    requires fault.Served? && AllWritesSucceed(cfg, usable, n, Wire(points), fault.local)
    requires CallEffect(cfg, usable, n, points, fault, before, after)
    ensures Lookup(cfg.RingOf(n), after, id) == Some(PointsMap(Wire(points))[id])
  {
    var ring, sent := cfg.RingOf(n), Wire(points);
    var t, k := ring.At(id), IntoString(id);
    var reached :| LocalOutcome(cfg, usable, n, sent, fault.local, before, after, reached);
    PointsMapIds(sent);
    WireExactly(points);
    var i :| 0 <= i < |sent| && Ids(sent)[i] == id;
    assert sent[i] in sent && t in ShardsOf(ring, sent);
    PartWrittenExactly(usable, n, t, before[t], Group(ring, sent, t), fault.local.writing(t));
    GroupWritesLikeOneByOne(ring, sent, t, before[t]);
    WrittenAt(before[t], RoutedTo(ring, sent, t), k);
    CanonicalUnshadowed(ring, sent, id);
    UnshadowedIsLast(ring, sent, id);
    CellAfter(ring, sent, t, k);
  }

  /** A shard's write leaves what another node holds for a number that goes elsewhere. */
  lemma OtherShardSpares(cfg: Config, usable: Usable, faults: Faults, self: PeerId, points: seq<Point>,
                         localOnly: bool, trail: Trail, l: nat, n: PeerId, id: PointId)
    requires self in cfg.topology && n in cfg.topology && n != self && id.Id?
    requires GroupsExactly(cfg, usable, faults, self, points, localOnly, trail) && l < |trail.order|
    requires Elsewhere(cfg, self, localOnly, trail.order[l], n, id)
    ensures cfg.Fits(trail.views[l]) && cfg.Fits(trail.views[l + 1])
    ensures Lookup(cfg.RingOf(n), trail.views[l + 1][n], id) == Lookup(cfg.RingOf(n), trail.views[l][n], id)
  {
    var r := trail.order[l];
    assert GroupAt(cfg, usable, faults, self, points, localOnly, trail, l);
    if !localOnly && n in cfg.topology[self][r] {
      GroupExactly(cfg.RingOf(self), points, r);
      CallSpares(cfg, usable, n, Group(cfg.RingOf(self), points, r), faults.calls(r, n), trail.views[l][n],
                 trail.views[l + 1][n], id);
    }
  }

  /** Node `n` is not called for shard `r`, or `id` does not go to that shard. */
  ghost predicate Elsewhere(cfg: Config, self: PeerId, localOnly: bool, r: ShardId, n: PeerId, id: PointId) {
    && self in cfg.topology
    && (localOnly || cfg.RingOf(self).At(id) != r || (r in cfg.topology[self] && n !in cfg.topology[self][r]))
  }

  /** While other shards are written, what a remote holds for a number stays. */
  lemma {:induction false} OtherShardsSpare(cfg: Config, usable: Usable, faults: Faults, self: PeerId,
                                            points: seq<Point>, localOnly: bool, trail: Trail, i: nat, j: nat,
                                            n: PeerId, id: PointId)
    requires self in cfg.topology && n in cfg.topology && n != self && id.Id?
    requires GroupsExactly(cfg, usable, faults, self, points, localOnly, trail) && i <= j <= |trail.order|
    requires forall l :: i <= l < j ==> Elsewhere(cfg, self, localOnly, trail.order[l], n, id)
    requires cfg.Fits(trail.views[i])
    ensures cfg.Fits(trail.views[j])
    ensures Lookup(cfg.RingOf(n), trail.views[j][n], id) == Lookup(cfg.RingOf(n), trail.views[i][n], id)
    decreases j
  {
    if i < j {
      OtherShardsSpare(cfg, usable, faults, self, points, localOnly, trail, i, j - 1, n, id);
      OtherShardSpares(cfg, usable, faults, self, points, localOnly, trail, j - 1, n, id);
    }
  }

  /** The call for a number's own shard: what it leaves depends on whether it is served, not on its reply. */
  lemma OwnShardCalls(cfg: Config, usable: Usable, faults: Faults, self: PeerId, points: seq<Point>, trail: Trail,
                      l: nat, n: PeerId, id: PointId)
    requires self in cfg.topology && n in cfg.topology && n != self && id.Id? && id in PointsMap(points)
    requires GroupsExactly(cfg, usable, faults, self, points, false, trail) && l < |trail.order|
    requires trail.order[l] == cfg.RingOf(self).At(id)
    requires trail.order[l] in cfg.topology[self] && n in cfg.topology[self][trail.order[l]]
    ensures cfg.Fits(trail.views[l]) && cfg.Fits(trail.views[l + 1])
    ensures var fault := faults.calls(trail.order[l], n);
            && (fault.Lost? ==>
                  Lookup(cfg.RingOf(n), trail.views[l + 1][n], id) == Lookup(cfg.RingOf(n), trail.views[l][n], id))
            && (fault.Served? && AllWritesSucceed(cfg, usable, n,
                                                  Wire(Group(cfg.RingOf(self), points, trail.order[l])), fault.local)
                ==> Lookup(cfg.RingOf(n), trail.views[l + 1][n], id) == Some(PointsMap(points)[id]))
  {
    var s := trail.order[l];
    var group, fault := Group(cfg.RingOf(self), points, s), faults.calls(s, n);
    assert GroupAt(cfg, usable, faults, self, points, false, trail, l);
    WiredGroup(cfg.RingOf(self), points, s);
    if fault.Served? && AllWritesSucceed(cfg, usable, n, Wire(group), fault.local) {
      CallStores(cfg, usable, n, group, fault, trail.views[l][n], trail.views[l + 1][n], id);
    }
  }

  /**
   What another node holds after an upsert for a number of the batch, if it was called for its shard. If the
   call was served, with every write of it succeeding there, it is the last version, even if the reply was lost
   and the upsert failed for it. If the call was lost it is what it was.
   */
  lemma CalledNodeKeeps(cfg: Config, usable: Usable, faults: Faults, self: PeerId, points: seq<Point>, trail: Trail,
                        before: View, after: View, ok: bool, n: PeerId, id: PointId, s: ShardId)
    requires UpsertExactly(cfg, usable, faults, self, points, false, trail, before, after, ok)
    requires n in cfg.topology && n != self && id.Id? && id in PointsMap(points) && s == cfg.RingOf(self).At(id)
    requires s in trail.order && s in cfg.topology[self] && n in cfg.topology[self][s]
    ensures faults.calls(s, n).Served?
            && AllWritesSucceed(cfg, usable, n, Wire(Group(cfg.RingOf(self), points, s)), faults.calls(s, n).local) ==>
              Lookup(cfg.RingOf(n), after[n], id) == Some(PointsMap(points)[id])
    ensures faults.calls(s, n).Lost? ==>
              Lookup(cfg.RingOf(n), after[n], id) == Lookup(cfg.RingOf(n), before[n], id)
  {
    var l :| 0 <= l < |trail.order| && trail.order[l] == s;
    OwnShardCalls(cfg, usable, faults, self, points, trail, l, n, id);
    OtherShardsSpare(cfg, usable, faults, self, points, false, trail, 0, l, n, id);
    OtherShardsSpare(cfg, usable, faults, self, points, false, trail, l + 1, |trail.order|, n, id);
  }

  /** What a node holds for a number stays as long as the upsert does not call it with that number. */
  lemma UncalledNodeKeeps(cfg: Config, usable: Usable, faults: Faults, self: PeerId, points: seq<Point>,
                          localOnly: bool, trail: Trail, before: View, after: View, ok: bool, n: PeerId, id: PointId)
    requires UpsertExactly(cfg, usable, faults, self, points, localOnly, trail, before, after, ok)
    requires n in cfg.topology && n != self && id.Id?
    requires forall s :: s in trail.order ==> Elsewhere(cfg, self, localOnly, s, n, id)
    ensures Lookup(cfg.RingOf(n), after[n], id) == Lookup(cfg.RingOf(n), before[n], id)
  {
    OtherShardsSpare(cfg, usable, faults, self, points, localOnly, trail, 0, |trail.order|, n, id);
  }
}
