/**
 A collection on every node of a cluster, and the calls between the nodes.

 `Net` gives, for each peer id, what that peer's read lock on the collection shows. A peer that is
 missing from it cannot be reached, or does not have the collection: either way a call to it fails.
 */
module Collections {
  import opened Types
  import opened Ring
  import opened Batches
  import opened Segments
  import opened Views
  import opened Replicas
  import opened Failures
  import opened Effects
  import opened Aftermath
  import opened Calls

  datatype Peers = Peers(holders: map<PeerId, ReplicaHolder>, place: Placement) {
    /** Every node is consistent, nodes share no segment, and no shard lists its own node or a peer twice. */
    ghost predicate Shaped() {
      && (forall n :: n in holders ==> holders[n].Shaped() && holders[n].ring.place == place)
      && (forall m, n :: m in holders && n in holders && m != n ==>
            holders[m].Footprint() !! holders[n].Footprint())
      && SoundTopology(Configured().topology)
    }

    ghost function Footprint(): set<Segment> {
      set n, segment | n in holders && segment in holders[n].Footprint() :: segment
    }

    ghost function Configured(): Config {
      Config(place, map n | n in holders :: holders[n].RemotePeers())
    }

    ghost function UsableShards(): Usable {
      map n | n in holders :: holders[n].UsableShards()
    }
  }

  type Net = peers: Peers | peers.Shaped() ghost witness Peers(map[], AnyPlacement())

  ghost function ViewOf(net: Net): View
    reads net.Footprint()
  {
    map n | n in net.holders :: net.holders[n].Contents()
  }

  lemma NetFits(net: Net)
    ensures net.Configured().Fits(ViewOf(net))
  {
  }

  twostate lemma HolderUnwritten(holder: ReplicaHolder)
    requires forall segment :: segment in holder.Footprint() ==> segment.db == old(segment.db)
    ensures holder.Contents() == old(holder.Contents())
  {
    forall s | s in holder.shards
      ensures holder.shards[s].local.Contents() == old(holder.shards[s].local.Contents())
    {
      assert holder.shards[s].local.Footprint() <= holder.Footprint();
    }
  }

  /** As long as no segment is written, the view stays what it was. */
  twostate lemma Unwritten(net: Net)
    requires forall segment :: segment in net.Footprint() ==> segment.db == old(segment.db)
    ensures ViewOf(net) == old(ViewOf(net))
  {
    forall n | n in net.holders
      ensures net.holders[n].Contents() == old(net.holders[n].Contents())
    {
      assert net.holders[n].Footprint() <= net.Footprint();
      HolderUnwritten(net.holders[n]);
    }
  }

  /** What the shape of the net says of one shard's remotes. */
  lemma RemotesAreSound(net: Net, self: PeerId, s: ShardId)
    requires self in net.holders && s in net.holders[self].shards
    ensures net.Configured().topology[self][s] == PeersOf(net.holders[self].shards[s].remotes)
    ensures DistinctPeers(PeersOf(net.holders[self].shards[s].remotes))
            && self !in PeersOf(net.holders[self].shards[s].remotes)
  {
    assert SoundTopology(net.Configured().topology);
    assert net.Configured().topology[self][s] == PeersOf(net.holders[self].shards[s].remotes);
  }

  /** Writing one node's shard leaves what the other nodes hold. */
  method WriteHolder(net: Net, self: PeerId, s: ShardId, points: seq<Point>, fault: Option<nat>)
    returns (r: Result<()>)
    requires self in net.holders && s in net.holders[self].shards
    modifies net.Footprint()
    ensures forall n :: n in net.holders && n != self ==>
              net.holders[n].Contents() == old(net.holders[n].Contents())
    ensures var was := old(net.holders[self].Contents());
            net.holders[self].Contents() ==
            was[s := PartWritten(net.UsableShards(), self, s, was[s], points, fault)]
    ensures r.Ok? <==> WriteSucceeds(net.UsableShards(), self, s, fault)
  {
    assert net.holders[self].Footprint() <= net.Footprint();
    r := net.holders[self].WriteLocal(s, points, fault);
    forall n | n in net.holders && n != self
      ensures net.holders[n].Contents() == old(net.holders[n].Contents())
    {
      assert net.holders[n].Footprint() !! net.holders[self].Footprint();
      HolderUnwritten(net.holders[n]);
    }
  }

  /** In the view, that is one cell of one node changed by what its fault lets through, and nothing else. */
  method WriteLocal(net: Net, self: PeerId, s: ShardId, points: seq<Point>, fault: Option<nat>) returns (r: Result<()>)
    requires self in net.holders && s in net.holders[self].shards
    modifies net.Footprint()
    ensures LocalExactly(net.Configured(), net.UsableShards(), self, s, points, fault, old(ViewOf(net)), ViewOf(net))
    ensures r.Ok? <==> WriteSucceeds(net.UsableShards(), self, s, fault)
  {
    NetFits(net);
    r := WriteHolder(net, self, s, points, fault);
    NetFits(net);
  }

  // ---------- the wire format ----------

  datatype GrpcPoint = GrpcPoint(id: U64, payload: string)

  /** Only numeric ids have a place in the message; other points are left out. */
  function Encode(points: seq<Point>): seq<GrpcPoint> {
    if points == [] then []
    else
      var before := Encode(points[..|points| - 1]);
      var last := points[|points| - 1];
      if last.id.Id? then before + [GrpcPoint(last.id.number, last.payload)] else before
  }

  function Decode(message: seq<GrpcPoint>): (points: seq<Point>)
    ensures |points| == |message|
  {
    seq(|message|, i requires 0 <= i < |message| => Point(Id(message[i].id), message[i].payload))
  }

  /** What arrives is what was sent, less the points whose ids are texts. */
  lemma {:induction false} WireRoundTrip(points: seq<Point>)
    ensures Decode(Encode(points)) == Wire(points)
  {
    if points != [] {
      WireRoundTrip(points[..|points| - 1]);
    }
  }

  /** Serving the message for some points is what the caller needs to know of the call. */
  lemma ServedMessage(cfg: Config, usable: Usable, n: PeerId, points: seq<Point>, fault: CallFault, before: View,
                      after: View, ok: bool)
    requires fault.Served?
    requires UpsertStep(cfg, n, Decode(Encode(points)), true, before, after, ok, map[])
    requires ServedExactly(cfg, usable, n, Decode(Encode(points)), fault.local, before, after)
    requires ok <==> AllWritesSucceed(cfg, usable, n, Decode(Encode(points)), fault.local)
    ensures RemoteStep(cfg, n, points, before, after, ok && !fault.replyLost)
    ensures RemoteExactly(cfg, usable, n, points, fault, before, after)
    ensures ok && !fault.replyLost <==> CallSucceeds(cfg, usable, n, points, fault)
  {
    WireRoundTrip(points);
    ServedStep(cfg, n, points, before, after, ok);
    ServedCall(cfg, usable, n, points, fault, before, after);
  }

  // ---------- upserts ----------

  /**
   The receiving end of an upsert call: decode, then upsert locally only. `calls` counts the calls
   this causes to other nodes.
   */
  method ServeUpsert(net: Net, self: PeerId, message: seq<GrpcPoint>, faults: LocalFaults)
    returns (r: Result<()>, calls: nat)
    requires self in net.holders
    modifies net.Footprint()
    ensures UpsertStep(net.Configured(), self, Decode(message), true, old(ViewOf(net)), ViewOf(net), r.Ok?, map[])
    ensures ServedExactly(net.Configured(), net.UsableShards(), self, Decode(message), faults, old(ViewOf(net)),
                          ViewOf(net))
    ensures r.Ok? <==> AllWritesSucceed(net.Configured(), net.UsableShards(), self, Decode(message), faults)
    ensures calls == 0
    decreases 0, 7
  {
    ghost var acked, trail;
    ghost var cfg, usable, before := net.Configured(), net.UsableShards(), ViewOf(net);
    var local := Faults(faults, (_, _) => Lost);
    LocalUpsertSucceeds(cfg, usable, local, self, Decode(message));
    r, calls, acked, trail := UpsertPoints(net, self, Decode(message), true, local);
    LocalUpsertServes(cfg, usable, local, self, Decode(message), trail, before, ViewOf(net), r.Ok?, acked);
  }

  /** The calling end: the call may be lost before it is served, or its reply after. */
  method RemoteUpsert(net: Net, remote: RemoteShard, points: seq<Point>, fault: CallFault)
    returns (r: Result<()>, calls: nat)
    modifies net.Footprint()
    ensures RemoteStep(net.Configured(), remote.peerId, points, old(ViewOf(net)), ViewOf(net), r.Ok?)
    ensures RemoteExactly(net.Configured(), net.UsableShards(), remote.peerId, points, fault, old(ViewOf(net)),
                          ViewOf(net))
    ensures r.Ok? <==> CallSucceeds(net.Configured(), net.UsableShards(), remote.peerId, points, fault)
    ensures calls == 1
    decreases 1, 0
  {
    if fault.Lost? || remote.peerId !in net.holders {
      NetFits(net);
      NotServedExactly(net.Configured(), net.UsableShards(), remote.peerId, points, fault, ViewOf(net));
      NotServed(net.Configured(), remote.peerId, points, ViewOf(net));
      return Err(ServiceError), 1;
    }
    ghost var before := ViewOf(net);
    var nested;
    r, nested := ServeUpsert(net, remote.peerId, Encode(points), fault.local);
    calls := 1 + nested;
    ServedMessage(net.Configured(), net.UsableShards(), remote.peerId, points, fault, before, ViewOf(net), r.Ok?);
    if fault.replyLost {
      r := Err(ServiceError);
    }
  }

  /** Calls a shard's remotes in order; a failed call does not stop the next. */
  method UpsertRemotes(net: Net, self: PeerId, s: ShardId, points: seq<Point>, faults: Faults)
    returns (results: seq<Result<()>>, calls: nat, ghost acked: set<PeerId>)
    requires self in net.holders && s in net.holders[self].shards
    modifies net.Footprint()
    ensures ViewOf(net)[self] == old(ViewOf(net))[self]
    ensures Called(net.Configured(), net.UsableShards(), faults, self, s, PeersOf(net.holders[self].shards[s].remotes),
                   points, old(ViewOf(net)), ViewOf(net), results, acked)
    ensures calls == |results|
    decreases 1, 1
  {
    var remotes := net.holders[self].shards[s].remotes;
    ghost var cfg, usable, before, peers := net.Configured(), net.UsableShards(), ViewOf(net), PeersOf(remotes);
    RemotesAreSound(net, self, s);
    NetFits(net);
    CalledNobody(cfg, usable, faults, self, s, points, before);
    assert peers[..0] == [];
    results, calls, acked := [], 0, {};
    for i := 0 to |remotes|
      invariant ViewOf(net)[self] == before[self] && |results| == calls
      invariant Called(cfg, usable, faults, self, s, peers[..i], points, before, ViewOf(net), results, acked)
    {
      ghost var now := ViewOf(net);
      var operationResult, more := RemoteUpsert(net, remotes[i], points, faults.calls(s, remotes[i].peerId));
      CalledOneMore(cfg, usable, faults, self, s, peers, i, points, before, now, ViewOf(net), results, acked,
                    operationResult);
      results, calls := results + [operationResult], calls + more;
      acked := if operationResult.Ok? then acked + {peers[i]} else acked;
    }
    TakeAll(peers);
  }

  /** Runs an upsert on the local replica of a shard and then, unless local only, on its remotes. */
  method ExecuteUpsert(net: Net, self: PeerId, s: ShardId, points: seq<Point>, localOnly: bool, faults: Faults)
    returns (results: seq<Result<()>>, calls: nat, ghost acked: set<PeerId>)
    requires self in net.holders && s in net.holders[self].shards
    modifies net.Footprint()
    ensures |results| == if localOnly then 1 else net.holders[self].shards[s].NumReplicas()
    ensures GroupStep(net.Configured(), self, s, points, localOnly, old(ViewOf(net)), ViewOf(net), acked)
    ensures GroupEffect(net.Configured(), net.UsableShards(), faults, self, s, points, localOnly, old(ViewOf(net)),
                        ViewOf(net))
    ensures results[0].Ok? ==> ViewOf(net)[self][s] == Written(old(ViewOf(net))[self][s], points)
    ensures results[0].Ok? <==> WriteSucceeds(net.UsableShards(), self, s, faults.local.writing(s))
    ensures acked == Acks(net.Configured(), net.UsableShards(), faults, self, s, points, localOnly)
    ensures |acked| == CountOk(results[1..])
    ensures calls == |results| - 1
    decreases if localOnly then 0 else 1, 2
  {
    ghost var cfg, before := net.Configured(), ViewOf(net);
    RemotesAreSound(net, self, s);
    var localResult := WriteLocal(net, self, s, points, faults.local.writing(s));
    ghost var written := ViewOf(net);
    if localOnly {
      ExecutedHere(cfg, net.UsableShards(), faults, self, s, points, before, written, localResult);
      return [localResult], 0, {};
    }
    var remoteResults;
    remoteResults, calls, acked := UpsertRemotes(net, self, s, points, faults);
    ExecutedEverywhere(cfg, net.UsableShards(), faults, self, s, points, before, written, ViewOf(net), localResult,
                       remoteResults, acked);
    results := [localResult] + remoteResults;
  }

  /** Writes one shard's group and judges the results: the local write must succeed, and enough others. */
  method UpsertGroup(net: Net, self: PeerId, s: ShardId, group: seq<Point>, localOnly: bool, faults: Faults)
    returns (r: Result<()>, calls: nat, ghost acked: set<PeerId>)
    requires self in net.holders && s in net.holders[self].shards
    modifies net.Footprint()
    ensures GroupStep(net.Configured(), self, s, group, localOnly, old(ViewOf(net)), ViewOf(net), acked)
    ensures GroupEffect(net.Configured(), net.UsableShards(), faults, self, s, group, localOnly, old(ViewOf(net)),
                        ViewOf(net))
    ensures r.Ok? ==> ViewOf(net)[self][s] == Written(old(ViewOf(net))[self][s], group)
    ensures acked == Acks(net.Configured(), net.UsableShards(), faults, self, s, group, localOnly)
    ensures r.Ok? <==> GroupSucceeds(net.Configured(), net.UsableShards(), faults, self, s, group, localOnly)
    ensures calls == if localOnly then 0 else |net.holders[self].shards[s].remotes|
    decreases if localOnly then 0 else 1, 3
  {
    var results;
    results, calls, acked := ExecuteUpsert(net, self, s, group, localOnly, faults);
    var totalSuccess := CountOk(results);
    CountOkSplit(results);
    if results[0].Err? {
      return Err(ServiceError), calls, acked;
    }
    var numReplicas := net.holders[self].shards[s].NumReplicas();
    var minDesiredSuccess := if localOnly then 1 else Min(numReplicas, DEFAULT_CONSISTENCY_FACTOR);
    r := if totalSuccess < minDesiredSuccess then Err(ServiceError) else Ok(());
  }

  /** Writes one more group of a batch: the last versions of the ids its shard was given. */
  method UpsertNext(net: Net, self: PeerId, points: seq<Point>, ids: seq<PointId>, localOnly: bool, faults: Faults,
                    s: ShardId, ghost before: View, ghost todo: set<ShardId>, calls: nat,
                    ghost acked: map<ShardId, set<PeerId>>, ghost trail: Trail)
    returns (r: Result<()>, allCalls: nat, ghost allAcked: map<ShardId, set<PeerId>>, ghost allTrail: Trail)
    requires self in net.holders && ids == IdsRoutedTo(net.Configured().RingOf(self), Ids(points), s)
    requires Going(net.Configured(), net.UsableShards(), faults, self, points, localOnly, before, ViewOf(net), todo,
                   acked, calls, trail) && s in todo
    modifies net.Footprint()
    ensures r.Ok? ==> Going(net.Configured(), net.UsableShards(), faults, self, points, localOnly, before, ViewOf(net),
                            todo - {s}, allAcked, allCalls, allTrail)
    ensures r.Err? ==> Failed(net.Configured(), net.UsableShards(), faults, self, points, localOnly, before,
                              ViewOf(net), allAcked, allCalls, allTrail)
    ensures Attempted(net.Configured(), net.UsableShards(), faults, self, points, localOnly, s, acked, r.Ok?, allAcked)
    ensures allAcked.Keys == Shards(allTrail.order)
    decreases if localOnly then 0 else 1, 4
  {
    ghost var cfg, usable, now := net.Configured(), net.UsableShards(), ViewOf(net);
    if s !in net.holders[self].shards {
      NoMoreGroups(cfg, usable, faults, self, points, localOnly, before, now, todo, acked, calls, trail, s);
      return Err(BadInput), calls, acked, trail;
    }
    var more;
    ghost var a;
    r, more, a := UpsertGroup(net, self, s, LookUp(PointsMap(points), ids), localOnly, faults);
    allCalls, allAcked, allTrail := calls + more, acked[s := a], trail.Next(s, ViewOf(net));
    OneMoreGroup(cfg, usable, faults, self, points, localOnly, before, now, ViewOf(net), todo, acked, calls, trail, s,
                 a, more, r.Ok?);
  }

  /** Writes every group of a batch, in any order of the shards, stopping at the first that falls short. */
  method UpsertGroups(net: Net, self: PeerId, points: seq<Point>, groups: map<ShardId, seq<PointId>>, localOnly: bool,
                      faults: Faults)
    returns (r: Result<()>, calls: nat, ghost acked: map<ShardId, set<PeerId>>, ghost trail: Trail)
    requires self in net.holders && groups.Keys == ShardsOf(net.Configured().RingOf(self), points)
    requires forall s :: s in groups ==> groups[s] == IdsRoutedTo(net.Configured().RingOf(self), Ids(points), s)
    requires Underway(net.Configured(), self, points, localOnly, ViewOf(net), ViewOf(net), groups.Keys, map[], 0)
    modifies net.Footprint()
    ensures r.Ok? ==>
            Underway(net.Configured(), self, points, localOnly, old(ViewOf(net)), ViewOf(net), {}, acked, calls)
    ensures r.Err? ==>
            UpsertOutcome(net.Configured(), self, points, localOnly, old(ViewOf(net)), ViewOf(net), false, acked, calls)
    ensures AckedExactly(net.Configured(), net.UsableShards(), faults, self, points, localOnly, acked)
    ensures r.Ok? <==> GroupsSucceed(net.Configured(), net.UsableShards(), faults, self, points, localOnly, {})
    ensures UpsertExactly(net.Configured(), net.UsableShards(), faults, self, points, localOnly, trail,
                          old(ViewOf(net)), ViewOf(net), r.Ok?)
    ensures acked.Keys == Shards(trail.order)
    decreases if localOnly then 0 else 1, 5
  {
    r, calls, acked, trail := Ok(()), 0, map[], Trail([], [ViewOf(net)]);
    ghost var before, usable := ViewOf(net), net.UsableShards();
    TrackedBegins(net.Configured(), usable, faults, self, points, localOnly, before);
    var todo := groups.Keys;
    while todo != {}
      invariant r.Ok? && todo <= groups.Keys
      invariant Going(net.Configured(), usable, faults, self, points, localOnly, before, ViewOf(net), todo, acked,
                      calls, trail)
      invariant Judged(net.Configured(), usable, faults, self, points, localOnly, todo, acked)
      invariant acked.Keys == Shards(trail.order)
      decreases |todo|
    {
      var s :| s in todo;
      RemovedOne(todo, s);
      ghost var earlier := acked;
      r, calls, acked, trail := UpsertNext(net, self, points, groups[s], localOnly, faults, s, before, todo, calls,
                                           acked, trail);
      JudgedMore(net.Configured(), usable, faults, self, points, localOnly, todo, s, earlier, r.Ok?, acked);
      if r.Err? {
        return;
      }
      todo := todo - {s};
    }
    TrackedEnds(net.Configured(), usable, faults, self, points, localOnly, trail, before, ViewOf(net));
  }

  /** Upserts a batch: group it by shard, then write every group. */
  method UpsertPoints(net: Net, self: PeerId, points: seq<Point>, localOnly: bool, faults: Faults)
    returns (r: Result<()>, calls: nat, ghost acked: map<ShardId, set<PeerId>>, ghost trail: Trail)
    requires self in net.holders
    modifies net.Footprint()
    ensures UpsertOutcome(net.Configured(), self, points, localOnly, old(ViewOf(net)), ViewOf(net), r.Ok?, acked, calls)
    ensures AckedExactly(net.Configured(), net.UsableShards(), faults, self, points, localOnly, acked)
    ensures r.Ok? <==> UpsertSucceeds(net.Configured(), net.UsableShards(), faults, self, points, localOnly)
    ensures UpsertExactly(net.Configured(), net.UsableShards(), faults, self, points, localOnly, trail,
                          old(ViewOf(net)), ViewOf(net), r.Ok?)
    ensures acked.Keys == Shards(trail.order)
    decreases if localOnly then 0 else 1, 6
  {
    var holder := net.holders[self];
    ghost var cfg, before := net.Configured(), ViewOf(net);
    assert holder.ring == cfg.RingOf(self);
    NetFits(net);
    var selected := holder.SelectShards(Ids(points));
    if selected.Err? {
      NowhereToWrite(cfg, net.UsableShards(), faults, self, points, localOnly, before);
      return Err(selected.error), 0, map[], Trail([], [before]);
    }
    AllGroupedShards(holder.ring, points, selected.value);
    UpsertBegins(cfg, self, points, localOnly, before);
    r, calls, acked, trail := UpsertGroups(net, self, points, selected.value, localOnly, faults);
    if r.Ok? {
      UpsertCompletes(cfg, self, points, localOnly, before, ViewOf(net), acked, calls);
    }
  }
}
