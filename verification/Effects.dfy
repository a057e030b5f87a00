/**
 What an upsert leaves behind, exactly, for the faults it meets: at the node that runs it and at every remote,
 whether it succeeds or not.
 */
module Effects {
  import opened Types
  import opened Batches
  import opened Segments
  import opened Views
  import opened Failures

  /**
   A shard after a write: all of the points, or those inserted before the write failed, or what it held if it
   cannot be used at all.
   */
  function PartWritten(usable: Usable, n: PeerId, s: ShardId, store: Store, points: seq<Point>,
                       fault: Option<nat>): Store
  {
    if CanUse(usable, n, s) then Written(store, points[..Inserted(|points|, fault)]) else store
  }

  /** The write of one shard's local replica, and nothing else. */
  ghost predicate LocalExactly(cfg: Config, usable: Usable, self: PeerId, s: ShardId, points: seq<Point>,
                               fault: Option<nat>, before: View, after: View)
  {
    && self in cfg.topology && s in cfg.topology[self] && cfg.Fits(before) && cfg.Fits(after)
    && after[self] == before[self][s := PartWritten(usable, self, s, before[self][s], points, fault)]
    && forall m :: m in cfg.topology && m != self ==> after[m] == before[m]
  }

  /** A fault after as many points as there are, or none, leaves all of them; an earlier one those before it. */
  lemma PartWrittenExactly(usable: Usable, n: PeerId, s: ShardId, store: Store, points: seq<Point>,
                           fault: Option<nat>)
    ensures PartWritten(usable, n, s, store, points, fault) ==
            if !CanUse(usable, n, s) then store
            else if fault.Some? && fault.value < |points| then Written(store, points[..fault.value])
            else Written(store, points)
  {
    TakeAll(points);
  }

  lemma LocalExactlyIsStep(cfg: Config, usable: Usable, self: PeerId, s: ShardId, points: seq<Point>,
                           fault: Option<nat>, before: View, after: View)
    requires LocalExactly(cfg, usable, self, s, points, fault, before, after)
    ensures LocalStep(cfg, self, s, points, before, after, WriteSucceeds(usable, self, s, fault))
    ensures WriteSucceeds(usable, self, s, fault) ==> after[self][s] == Written(before[self][s], points)
  {
    TakeAll(points);
    var n := if !CanUse(usable, self, s) then 0
             else if fault.Some? && fault.value < |points| then fault.value else |points|;
    assert points[..0] == [];
    assert before[self][s := before[self][s]] == before[self];
    assert after[self] == before[self][s := Written(before[self][s], points[..n])];
  }

  // ---------- an upsert that stays on its node ----------

  /** The shards written, one after another up to the first that fails, if one does. */
  ghost predicate UpToFirstFailure(cfg: Config, usable: Usable, n: PeerId, points: seq<Point>, faults: LocalFaults,
                                   reached: set<ShardId>)
    requires n in cfg.topology
  {
    && reached <= ShardsOf(cfg.RingOf(n), points) && reached <= cfg.topology[n].Keys
    && (forall s, t :: (s in reached && t in reached && !WriteSucceeds(usable, n, s, faults.writing(s))
                        && !WriteSucceeds(usable, n, t, faults.writing(t))) ==> s == t)
    && ((cfg.topology[n].Keys != {}
         && forall s :: s in reached ==> WriteSucceeds(usable, n, s, faults.writing(s))) ==>
          reached == ShardsOf(cfg.RingOf(n), points))
  }

  /** The shards reached have the part of their group that their faults let through; the others are as before. */
  ghost predicate LocalOutcome(cfg: Config, usable: Usable, n: PeerId, points: seq<Point>, faults: LocalFaults,
                               before: Stores, after: Stores, reached: set<ShardId>)
    requires n in cfg.topology
  {
    && UpToFirstFailure(cfg, usable, n, points, faults, reached)
    && HereExactly(cfg, usable, n, points, faults, before, after, reached)
  }

  ghost predicate HereExactly(cfg: Config, usable: Usable, n: PeerId, points: seq<Point>, faults: LocalFaults,
                              before: Stores, after: Stores, reached: set<ShardId>)
    requires n in cfg.topology
  {
    && before.Keys == after.Keys == cfg.topology[n].Keys
    && forall s :: s in cfg.topology[n] ==>
         after[s] == if s in reached
                     then PartWritten(usable, n, s, before[s], Group(cfg.RingOf(n), points, s), faults.writing(s))
                     else before[s]
  }

  // ---------- calls ----------

  /** What one call does to the node called: nothing if it is lost on the way there, all of it if only the reply is. */
  ghost predicate CallEffect(cfg: Config, usable: Usable, n: PeerId, points: seq<Point>, fault: CallFault,
                             before: Stores, after: Stores)
    requires n in cfg.topology
  {
    match fault
    case Lost => after == before
    case Served(local, _) =>
      exists reached :: LocalOutcome(cfg, usable, n, Wire(points), local, before, after, reached)
  }

  ghost predicate RemoteExactly(cfg: Config, usable: Usable, n: PeerId, points: seq<Point>, fault: CallFault,
                                before: View, after: View)
  {
    && cfg.Fits(before) && cfg.Fits(after)
    && (forall m :: m in cfg.topology && m != n ==> after[m] == before[m])
    && (n in cfg.topology ==> CallEffect(cfg, usable, n, points, fault, before[n], after[n]))
  }

  /** Serving an upsert call for `points`: some shards of the node are written, and no other node changes. */
  ghost predicate ServedExactly(cfg: Config, usable: Usable, n: PeerId, points: seq<Point>, faults: LocalFaults,
                                before: View, after: View)
  {
    && n in cfg.topology && cfg.Fits(before) && cfg.Fits(after)
    && (forall m :: m in cfg.topology && m != n ==> after[m] == before[m])
    && exists reached :: LocalOutcome(cfg, usable, n, points, faults, before[n], after[n], reached)
  }

  lemma ServedCall(cfg: Config, usable: Usable, n: PeerId, points: seq<Point>, fault: CallFault, before: View,
                   after: View)
    requires fault.Served? && ServedExactly(cfg, usable, n, Wire(points), fault.local, before, after)
    ensures RemoteExactly(cfg, usable, n, points, fault, before, after)
  {
  }

  lemma NotServedExactly(cfg: Config, usable: Usable, n: PeerId, points: seq<Point>, fault: CallFault, view: View)
    requires cfg.Fits(view) && (fault.Lost? || n !in cfg.topology)
    ensures RemoteExactly(cfg, usable, n, points, fault, view, view)
  {
  }

  /** Each of the peers that is a node has been called once. */
  ghost predicate RemotesExactly(cfg: Config, usable: Usable, faults: Faults, s: ShardId, peers: seq<PeerId>,
                                 points: seq<Point>, before: View, after: View)
  {
    && cfg.Fits(before) && cfg.Fits(after)
    && forall n :: n in cfg.topology ==>
         if n in peers then CallEffect(cfg, usable, n, points, faults.calls(s, n), before[n], after[n])
         else after[n] == before[n]
  }

  lemma RemotesExactlyMore(cfg: Config, usable: Usable, faults: Faults, s: ShardId, peers: seq<PeerId>, i: nat,
                           points: seq<Point>, before: View, now: View, after: View)
    requires i < |peers| && DistinctPeers(peers)
    requires RemotesExactly(cfg, usable, faults, s, peers[..i], points, before, now)
    requires RemoteExactly(cfg, usable, peers[i], points, faults.calls(s, peers[i]), now, after)
    ensures RemotesExactly(cfg, usable, faults, s, peers[..i + 1], points, before, after)
  {
    TakeMore(peers, i);
    assert peers[i] !in peers[..i];
  }

  // ---------- an upsert shard by shard ----------

  /** One shard's write: the local part first, whatever comes of it, and then one call for each remote. */
  ghost predicate GroupEffect(cfg: Config, usable: Usable, faults: Faults, self: PeerId, s: ShardId,
                               group: seq<Point>, localOnly: bool, before: View, after: View)
  {
    && self in cfg.topology && s in cfg.topology[self] && cfg.Fits(before) && cfg.Fits(after)
    && after[self] ==
       before[self][s := PartWritten(usable, self, s, before[self][s], group, faults.local.writing(s))]
    && forall n :: n in cfg.topology && n != self ==>
         if localOnly || n !in cfg.topology[self][s] then after[n] == before[n]
         else CallEffect(cfg, usable, n, group, faults.calls(s, n), before[n], after[n])
  }

  lemma LocalIsGroup(cfg: Config, usable: Usable, faults: Faults, self: PeerId, s: ShardId, group: seq<Point>,
                     before: View, after: View)
    requires LocalExactly(cfg, usable, self, s, group, faults.local.writing(s), before, after)
    ensures GroupEffect(cfg, usable, faults, self, s, group, true, before, after)
  {
  }

  lemma LocalThenCalls(cfg: Config, usable: Usable, faults: Faults, self: PeerId, s: ShardId, group: seq<Point>,
                       before: View, written: View, after: View)
    requires LocalExactly(cfg, usable, self, s, group, faults.local.writing(s), before, written)
    requires RemotesExactly(cfg, usable, faults, s, cfg.topology[self][s], group, written, after)
    requires self !in cfg.topology[self][s]
    ensures GroupEffect(cfg, usable, faults, self, s, group, false, before, after)
  {
  }

  /** The shards an upsert took, in order, and the states it went through. */
  datatype Trail = Trail(order: seq<ShardId>, views: seq<View>) {
    predicate Fits() {
      |views| == |order| + 1
    }

    function Next(s: ShardId, after: View): (longer: Trail)
      requires Fits()
      ensures longer.Fits()
    {
      Trail(order + [s], views + [after])
    }
  }

  ghost predicate GroupAt(cfg: Config, usable: Usable, faults: Faults, self: PeerId, points: seq<Point>,
                          localOnly: bool, trail: Trail, i: nat)
    requires self in cfg.topology && trail.Fits() && i < |trail.order|
  {
    GroupEffect(cfg, usable, faults, self, trail.order[i], Group(cfg.RingOf(self), points, trail.order[i]), localOnly,
                 trail.views[i], trail.views[i + 1])
  }

  /** Each of the shards has been written, in this order. */
  ghost predicate GroupsExactly(cfg: Config, usable: Usable, faults: Faults, self: PeerId, points: seq<Point>,
                                localOnly: bool, trail: Trail)
    requires self in cfg.topology
  {
    && trail.Fits()
    && forall i :: 0 <= i < |trail.order| ==> GroupAt(cfg, usable, faults, self, points, localOnly, trail, i)
  }

  lemma GroupsExactlyMore(cfg: Config, usable: Usable, faults: Faults, self: PeerId, points: seq<Point>,
                          localOnly: bool, trail: Trail, s: ShardId, after: View)
    requires self in cfg.topology && GroupsExactly(cfg, usable, faults, self, points, localOnly, trail)
    requires GroupEffect(cfg, usable, faults, self, s, Group(cfg.RingOf(self), points, s), localOnly,
                          trail.views[|trail.order|], after)
    ensures GroupsExactly(cfg, usable, faults, self, points, localOnly, trail.Next(s, after))
  {
    var longer := trail.Next(s, after);
    forall i | 0 <= i < |longer.order|
      ensures GroupAt(cfg, usable, faults, self, points, localOnly, longer, i)
    {
      if i < |trail.order| {
        assert GroupAt(cfg, usable, faults, self, points, localOnly, trail, i);
      }
    }
  }

  /** The shards of the batch are taken one by one, each once, up to the first that does not succeed. */
  ghost predicate OrderExactly(cfg: Config, usable: Usable, faults: Faults, self: PeerId, points: seq<Point>,
                               localOnly: bool, order: seq<ShardId>, ok: bool)
  {
    && self in cfg.topology
    && (forall i, j :: 0 <= i < j < |order| ==> order[i] != order[j])
    && (forall s :: s in order ==> s in ShardsOf(cfg.RingOf(self), points) && s in cfg.topology[self])
    && (forall i :: 0 <= i < |order| && (ok || i < |order| - 1) ==>
          GroupSucceeds(cfg, usable, faults, self, order[i], Group(cfg.RingOf(self), points, order[i]), localOnly))
    && (ok ==> forall s :: s in ShardsOf(cfg.RingOf(self), points) ==> s in order)
    && (!ok ==> if cfg.topology[self].Keys == {} then points != []
                else order != []
                     && var last := order[|order| - 1];
                        !GroupSucceeds(cfg, usable, faults, self, last, Group(cfg.RingOf(self), points, last),
                                       localOnly))
  }

  /** What an upsert did: the shards it took, in order, and what that left on every node. */
  ghost predicate UpsertExactly(cfg: Config, usable: Usable, faults: Faults, self: PeerId, points: seq<Point>,
                                localOnly: bool, trail: Trail, before: View, after: View, ok: bool)
  {
    && OrderExactly(cfg, usable, faults, self, points, localOnly, trail.order, ok)
    && cfg.Fits(before) && cfg.Fits(after)
    && GroupsExactly(cfg, usable, faults, self, points, localOnly, trail)
    && trail.views[0] == before && trail.views[|trail.order|] == after
  }

  /** What one client request does to the nodes: what the upsert of its batch does, and no more. */
  ghost predicate RequestExactly(cfg: Config, usable: Usable, faults: Faults, self: PeerId, batch: seq<Point>,
                                 before: View, after: View)
  {
    exists trail :: UpsertExactly(cfg, usable, faults, self, batch, false, trail, before, after,
                                  UpsertSucceeds(cfg, usable, faults, self, batch, false))
  }

  // ---------- an upsert under way ----------

  function Shards(order: seq<ShardId>): set<ShardId> {
    set s | s in order
  }

  /** The shards of the batch outside `todo` have been written, all with success. */
  ghost predicate Tracked(cfg: Config, usable: Usable, faults: Faults, self: PeerId, points: seq<Point>,
                          localOnly: bool, trail: Trail, before: View, now: View, todo: set<ShardId>)
  {
    && self in cfg.topology && cfg.Fits(before) && cfg.Fits(now)
    && GroupsExactly(cfg, usable, faults, self, points, localOnly, trail)
    && trail.views[0] == before && trail.views[|trail.order|] == now
    && AllSucceeded(cfg, usable, faults, self, points, localOnly, trail.order, todo)
  }

  ghost predicate AllSucceeded(cfg: Config, usable: Usable, faults: Faults, self: PeerId, points: seq<Point>,
                               localOnly: bool, order: seq<ShardId>, todo: set<ShardId>)
    requires self in cfg.topology
  {
    && (forall i, j :: 0 <= i < j < |order| ==> order[i] != order[j])
    && (forall s :: s in order <==> s in ShardsOf(cfg.RingOf(self), points) && s !in todo)
    && forall s :: s in order ==>
         GroupSucceeds(cfg, usable, faults, self, s, Group(cfg.RingOf(self), points, s), localOnly)
  }

  lemma TrackedBegins(cfg: Config, usable: Usable, faults: Faults, self: PeerId, points: seq<Point>,
                      localOnly: bool, view: View)
    requires self in cfg.topology && cfg.Fits(view)
    ensures Tracked(cfg, usable, faults, self, points, localOnly, Trail([], [view]), view, view,
                    ShardsOf(cfg.RingOf(self), points))
  {
  }

  lemma TrackedMore(cfg: Config, usable: Usable, faults: Faults, self: PeerId, points: seq<Point>, localOnly: bool,
                    trail: Trail, before: View, now: View, todo: set<ShardId>, s: ShardId, after: View, ok: bool)
    requires Tracked(cfg, usable, faults, self, points, localOnly, trail, before, now, todo)
    requires s in todo && s in ShardsOf(cfg.RingOf(self), points)
    requires GroupEffect(cfg, usable, faults, self, s, Group(cfg.RingOf(self), points, s), localOnly, now, after)
    requires ok <==> GroupSucceeds(cfg, usable, faults, self, s, Group(cfg.RingOf(self), points, s), localOnly)
    ensures ok ==>
              Tracked(cfg, usable, faults, self, points, localOnly, trail.Next(s, after), before, after, todo - {s})
    ensures !ok ==>
              UpsertExactly(cfg, usable, faults, self, points, localOnly, trail.Next(s, after), before, after, false)
  {
    GroupsExactlyMore(cfg, usable, faults, self, points, localOnly, trail, s, after);
    var order, longer := trail.order, trail.order + [s];
    assert forall t :: t in longer <==> t in order || t == s;
    if ok {
      assert AllSucceeded(cfg, usable, faults, self, points, localOnly, longer, todo - {s});
    } else {
      assert OrderExactly(cfg, usable, faults, self, points, localOnly, longer, false);
    }
  }

  lemma TrackedEnds(cfg: Config, usable: Usable, faults: Faults, self: PeerId, points: seq<Point>, localOnly: bool,
                    trail: Trail, before: View, now: View)
    requires Tracked(cfg, usable, faults, self, points, localOnly, trail, before, now, {})
    ensures UpsertExactly(cfg, usable, faults, self, points, localOnly, trail, before, now, true)
  {
  }

  lemma TrackedStops(cfg: Config, usable: Usable, faults: Faults, self: PeerId, points: seq<Point>, localOnly: bool,
                     trail: Trail, before: View, now: View, todo: set<ShardId>, s: ShardId)
    requires Tracked(cfg, usable, faults, self, points, localOnly, trail, before, now, todo)
    requires s in ShardsOf(cfg.RingOf(self), points) && s !in cfg.topology[self]
    ensures UpsertExactly(cfg, usable, faults, self, points, localOnly, trail, before, now, false)
  {
    assert cfg.topology[self].Keys == {};
    assert forall t :: t in trail.order ==> t in cfg.topology[self];
  }

  /** The shards with acknowledgements recorded are those taken. */
  lemma TakenAreRecorded(cfg: Config, usable: Usable, faults: Faults, self: PeerId, points: seq<Point>,
                         localOnly: bool, trail: Trail, before: View, now: View, todo: set<ShardId>,
                         acked: map<ShardId, set<PeerId>>, calls: nat, s: ShardId, a: set<PeerId>)
    requires Tracked(cfg, usable, faults, self, points, localOnly, trail, before, now, todo)
    requires Accounts(cfg, self, localOnly, ShardsOf(cfg.RingOf(self), points), todo, acked, calls)
    ensures acked.Keys == Shards(trail.order)
    ensures acked[s := a].Keys == Shards(trail.order + [s])
  {
    UpdatedKeys(acked, s, a);
    var longer := trail.order + [s];
    assert forall t :: t in longer <==> t in trail.order || t == s;
  }


  /** An upsert that has succeeded so far, with the states it went through. */
  ghost predicate Going(cfg: Config, usable: Usable, faults: Faults, self: PeerId, points: seq<Point>, localOnly: bool,
                        before: View, now: View, todo: set<ShardId>, acked: map<ShardId, set<PeerId>>, calls: nat,
                        trail: Trail)
  {
    && Underway(cfg, self, points, localOnly, before, now, todo, acked, calls)
    && Tracked(cfg, usable, faults, self, points, localOnly, trail, before, now, todo)
  }

  /** An upsert that has failed, with the states it went through. */
  ghost predicate Failed(cfg: Config, usable: Usable, faults: Faults, self: PeerId, points: seq<Point>, localOnly: bool,
                         before: View, now: View, acked: map<ShardId, set<PeerId>>, calls: nat, trail: Trail)
  {
    && UpsertOutcome(cfg, self, points, localOnly, before, now, false, acked, calls)
    && UpsertExactly(cfg, usable, faults, self, points, localOnly, trail, before, now, false)
  }

  /** A node without shards cannot place a single point. */
  lemma NowhereToWrite(cfg: Config, usable: Usable, faults: Faults, self: PeerId, points: seq<Point>, localOnly: bool,
                       view: View)
    requires self in cfg.topology && cfg.Fits(view) && cfg.topology[self].Keys == {} && points != []
    ensures Failed(cfg, usable, faults, self, points, localOnly, view, view, map[], 0, Trail([], [view]))
    ensures !UpsertSucceeds(cfg, usable, faults, self, points, localOnly)
    ensures AckedExactly(cfg, usable, faults, self, points, localOnly, map[])
  {
    UpsertBegins(cfg, self, points, localOnly, view);
    UpsertGivesUp(cfg, self, points, localOnly, view, view, ShardsOf(cfg.RingOf(self), points), map[], 0);
  }

  lemma OneMoreGroup(cfg: Config, usable: Usable, faults: Faults, self: PeerId, points: seq<Point>, localOnly: bool,
                     before: View, now: View, after: View, todo: set<ShardId>, acked: map<ShardId, set<PeerId>>,
                     calls: nat, trail: Trail, s: ShardId, a: set<PeerId>, more: nat, ok: bool)
    requires SoundTopology(cfg.topology) && s in todo
    requires Going(cfg, usable, faults, self, points, localOnly, before, now, todo, acked, calls, trail)
    requires GroupStep(cfg, self, s, Group(cfg.RingOf(self), points, s), localOnly, now, after, a)
    requires GroupEffect(cfg, usable, faults, self, s, Group(cfg.RingOf(self), points, s), localOnly, now, after)
    requires a == Acks(cfg, usable, faults, self, s, Group(cfg.RingOf(self), points, s), localOnly)
    requires more == if localOnly then 0 else |cfg.topology[self][s]|
    requires ok ==> after[self][s] == Written(now[self][s], Group(cfg.RingOf(self), points, s))
    requires ok <==> GroupSucceeds(cfg, usable, faults, self, s, Group(cfg.RingOf(self), points, s), localOnly)
    ensures ok ==> Going(cfg, usable, faults, self, points, localOnly, before, after, todo - {s}, acked[s := a],
                         calls + more, trail.Next(s, after))
    ensures !ok ==> Failed(cfg, usable, faults, self, points, localOnly, before, after, acked[s := a], calls + more,
                           trail.Next(s, after))
    ensures acked[s := a].Keys == Shards(trail.Next(s, after).order)
  {
    TakenAreRecorded(cfg, usable, faults, self, points, localOnly, trail, before, now, todo, acked, calls, s, a);
    TrackedMore(cfg, usable, faults, self, points, localOnly, trail, before, now, todo, s, after, ok);
    if ok {
      UpsertAdvances(cfg, self, points, localOnly, before, now, after, todo, acked, calls, s, a, more);
    } else {
      UpsertStops(cfg, self, points, localOnly, before, now, after, todo, acked, calls, s, a, more);
    }
  }

  lemma NoMoreGroups(cfg: Config, usable: Usable, faults: Faults, self: PeerId, points: seq<Point>, localOnly: bool,
                     before: View, now: View, todo: set<ShardId>, acked: map<ShardId, set<PeerId>>, calls: nat,
                     trail: Trail, s: ShardId)
    requires Going(cfg, usable, faults, self, points, localOnly, before, now, todo, acked, calls, trail)
    requires s in todo && s !in cfg.topology[self]
    ensures Failed(cfg, usable, faults, self, points, localOnly, before, now, acked, calls, trail)
    ensures acked.Keys == Shards(trail.order)
  {
    TakenAreRecorded(cfg, usable, faults, self, points, localOnly, trail, before, now, todo, acked, calls, s, {});
    UpsertGivesUp(cfg, self, points, localOnly, before, now, todo, acked, calls);
    TrackedStops(cfg, usable, faults, self, points, localOnly, trail, before, now, todo, s);
  }
}
