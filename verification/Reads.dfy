/** Reading points: by id from the local shards, and listings merged over the replicas. */
module Reads {
  import opened Types
  import opened IdOrder
  import opened Ring
  import opened Batches
  import opened Segments
  import opened Views
  import opened Replicas
  import opened Failures
  import opened Collections
  import opened Listings

  /** The local points of one shard. */
  method LocalList(net: Net, ghost view: View, self: PeerId, s: ShardId, fails: bool) returns (r: Result<seq<Point>>)
    requires view == ViewOf(net) && Keyed(view) && self in net.holders && s in net.holders[self].shards
    ensures r.Ok? ==> Answers(view, self, self, s, r.value)
    ensures r.Ok? <==> ReadSucceeds(net.UsableShards(), self, s, fails)
  {
    r := net.holders[self].shards[s].local.GetPoints(None, fails);
    if r.Ok? {
      assert WellKeyed(view[self][s]);
      LocalAnswers(view, self, s, r.value);
    }
  }

  /** The local points found in one shard for a list of ids. */
  method LocalHits(net: Net, ghost view: View, self: PeerId, s: ShardId, ids: seq<PointId>, fails: bool)
    returns (r: Result<seq<Point>>)
    requires view == ViewOf(net) && self in net.holders && s in net.holders[self].shards
    ensures r.Ok? ==> r.value == Hits(view[self][s], ids)
    ensures r.Ok? <==> ReadSucceeds(net.UsableShards(), self, s, fails)
  {
    r := net.holders[self].shards[s].local.GetPoints(Some(ids), fails);
  }

  function Numbers(ids: seq<U64>): (pointIds: seq<PointId>)
    ensures |pointIds| == |ids|
    ensures forall i :: 0 <= i < |ids| ==> pointIds[i] == Id(ids[i])
  {
    seq(|ids|, i requires 0 <= i < |ids| => Id(ids[i]))
  }

  /** The ids a request asks for; none means all points. */
  function Requested(ids: seq<U64>, returnAll: bool): (wanted: Option<seq<PointId>>)
    ensures wanted.None? <==> returnAll
    ensures wanted.Some? ==> |wanted.value| == |ids| && forall i :: 0 <= i < |ids| ==> wanted.value[i] == Id(ids[i])
  {
    if returnAll then None else Some(Numbers(ids))
  }

  /** The receiving end of a read call: local points only, and only those with numeric ids are sent back. */
  method ServeGet(net: Net, ghost view: View, self: PeerId, ids: seq<U64>, returnAll: bool, shardId: Option<ShardId>,
                  faults: LocalFaults)
    returns (r: Result<seq<GrpcPoint>>, calls: nat, ghost points: seq<Point>)
    requires view == ViewOf(net) && Keyed(view) && self in net.holders
    ensures r.Ok? ==> r.value == Encode(points)
    ensures r.Ok? ==> Got(net.Configured(), view, self, Requested(ids, returnAll), shardId, true, points)
    ensures r.Ok? <==> GetSucceeds(net.Configured(), net.UsableShards(), Faults(faults, (_, _) => Lost), self,
                                   Requested(ids, returnAll), shardId, true)
    ensures calls == 0 && view == ViewOf(net)
    decreases 0, 8
  {
    var found;
    found, calls :=
      GetPoints(net, view, self, Requested(ids, returnAll), shardId, true, Faults(faults, (_, _) => Lost));
    points := if found.Ok? then found.value else [];
    r := if found.Ok? then Ok(Encode(found.value)) else Err(found.error);
    Unwritten(net);
  }

  /** A served listing of one shard fails only if the node has the shard and cannot read it. */
  lemma ServedListingSucceeds(cfg: Config, usable: Usable, n: PeerId, s: ShardId, faults: LocalFaults)
    requires n in cfg.topology
    ensures GetSucceeds(cfg, usable, Faults(faults, (_, _) => Lost), n, None, Some(s), true) <==>
            (s in cfg.topology[n] ==> ReadSucceeds(usable, n, s, faults.reading(s)))
  {
    assert s in cfg.topology[n] ==> s in Visited(cfg, n, Some(s));
  }

  /** What comes back from a served listing answers for the remote. */
  lemma MessageAnswers(cfg: Config, view: View, self: PeerId, n: PeerId, s: ShardId, points: seq<Point>)
    requires n != self && ListStep(cfg, n, Some(s), true, view, points)
    ensures Answers(view, self, n, s, Decode(Encode(points)))
  {
    WireRoundTrip(points);
    ServedAnswers(cfg, view, self, n, s, points);
  }

  /** The calling end of a listing: asks a remote for its points of the same shard. */
  method RemoteList(net: Net, ghost view: View, self: PeerId, remote: RemoteShard, fault: CallFault)
    returns (r: Result<seq<Point>>, calls: nat)
    requires view == ViewOf(net) && Keyed(view) && remote.peerId != self
    ensures view == ViewOf(net)
    ensures r.Ok? ==> Answers(view, self, remote.peerId, remote.id, r.value)
    ensures r.Ok? <==> AnswerArrives(net.Configured(), net.UsableShards(), remote.peerId, remote.id, fault)
    ensures calls == 1
    decreases 1, 0
  {
    if fault.Lost? || remote.peerId !in net.holders {
      return Err(ServiceError), 1;
    }
    var response, nested;
    ghost var points;
    response, nested, points := ServeGet(net, view, remote.peerId, [], true, Some(remote.id), fault.local);
    ServedListingSucceeds(net.Configured(), net.UsableShards(), remote.peerId, remote.id, fault.local);
    calls := 1 + nested;
    if response.Err? || fault.replyLost {
      return Err(ServiceError), calls;
    }
    MessageAnswers(net.Configured(), view, self, remote.peerId, remote.id, points);
    r := Ok(Decode(response.value));
  }

  /** Which of the answers arrive. */
  ghost predicate Arrivals<T>(cfg: Config, usable: Usable, faults: Faults, s: ShardId, peers: seq<PeerId>,
                              results: seq<Result<T>>)
  {
    && |results| == |peers|
    && forall i :: 0 <= i < |peers| ==>
         (results[i].Ok? <==> AnswerArrives(cfg, usable, peers[i], s, faults.calls(s, peers[i])))
  }

  lemma OneMoreAnswer(cfg: Config, usable: Usable, faults: Faults, view: View, self: PeerId, s: ShardId,
                      peers: seq<PeerId>, i: nat, results: seq<Result<seq<Point>>>, answer: Result<seq<Point>>)
    requires i < |peers| && AnsweredBy(view, self, peers[..i], s, results)
    requires Arrivals(cfg, usable, faults, s, peers[..i], results)
    requires answer.Ok? ==> Answers(view, self, peers[i], s, answer.value)
    requires answer.Ok? <==> AnswerArrives(cfg, usable, peers[i], s, faults.calls(s, peers[i]))
    ensures AnsweredBy(view, self, peers[..i + 1], s, results + [answer])
    ensures Arrivals(cfg, usable, faults, s, peers[..i + 1], results + [answer])
  {
    TakeMore(peers, i);
  }

  /** Asks a shard's remotes in order; one answer per remote. */
  method ListRemotes(net: Net, ghost view: View, self: PeerId, s: ShardId, faults: Faults)
    returns (results: seq<Result<seq<Point>>>, calls: nat)
    requires view == ViewOf(net) && Keyed(view) && self in net.holders && s in net.holders[self].shards
    ensures AnsweredBy(view, self, PeersOf(net.holders[self].shards[s].remotes), s, results)
    ensures Arrivals(net.Configured(), net.UsableShards(), faults, s, PeersOf(net.holders[self].shards[s].remotes),
                     results)
    ensures view == ViewOf(net) && |results| == calls
    decreases 1, 1
  {
    var remotes := net.holders[self].shards[s].remotes;
    RemotesAreSound(net, self, s);
    ghost var peers := PeersOf(remotes);
    results, calls := [], 0;
    for i := 0 to |remotes|
      invariant view == ViewOf(net) && |results| == calls
      invariant AnsweredBy(view, self, peers[..i], s, results)
      invariant Arrivals(net.Configured(), net.UsableShards(), faults, s, peers[..i], results)
    {
      assert remotes[i] in remotes && peers[i] in peers;
      var answer, more := RemoteList(net, view, self, remotes[i], faults.calls(s, remotes[i].peerId));
      OneMoreAnswer(net.Configured(), net.UsableShards(), faults, view, self, s, peers, i, results, answer);
      results, calls := results + [answer], calls + more;
    }
    TakeAll(peers);
  }

  /** All replicas of the shard have answered exactly if every result is one. */
  lemma AllAnswered(cfg: Config, usable: Usable, faults: Faults, self: PeerId, s: ShardId,
                    localResult: Result<seq<Point>>, remoteResults: seq<Result<seq<Point>>>)
    requires self in cfg.topology && s in cfg.topology[self]
    requires localResult.Ok? <==> ReadSucceeds(usable, self, s, faults.local.reading(s))
    requires Arrivals(cfg, usable, faults, s, cfg.topology[self][s], remoteResults)
    ensures AllOk([localResult] + remoteResults) <==> ShardAnswers(cfg, usable, faults, self, s, false)
  {
    var peers, results := cfg.topology[self][s], [localResult] + remoteResults;
    if AllOk(results) {
      assert results[0] == localResult;
      forall n | n in peers
        ensures AnswerArrives(cfg, usable, n, s, faults.calls(s, n))
      {
        var i :| 0 <= i < |peers| && peers[i] == n;
        assert results[i + 1] == remoteResults[i];
      }
    }
    if ShardAnswers(cfg, usable, faults, self, s, false) {
      forall i | 0 <= i < |results|
        ensures results[i].Ok?
      {
        assert i > 0 ==> results[i] == remoteResults[i - 1] && peers[i - 1] in peers;
      }
    }
  }

  lemma AnsweredHere(cfg: Config, usable: Usable, faults: Faults, view: View, self: PeerId, s: ShardId,
                     result: Result<seq<Point>>)
    requires self in cfg.topology && s in cfg.topology[self]
    requires result.Ok? ==> Answers(view, self, self, s, result.value)
    requires result.Ok? <==> ReadSucceeds(usable, self, s, faults.local.reading(s))
    ensures AnsweredBy(view, self, Sources(cfg, self, s, true), s, [result])
    ensures AllOk([result]) <==> ShardAnswers(cfg, usable, faults, self, s, true)
  {
    assert [result][0] == result;
  }

  lemma AnsweredEverywhere(cfg: Config, usable: Usable, faults: Faults, view: View, self: PeerId, s: ShardId,
                           result: Result<seq<Point>>, remoteResults: seq<Result<seq<Point>>>)
    requires self in cfg.topology && s in cfg.topology[self]
    requires result.Ok? ==> Answers(view, self, self, s, result.value)
    requires result.Ok? <==> ReadSucceeds(usable, self, s, faults.local.reading(s))
    requires AnsweredBy(view, self, cfg.topology[self][s], s, remoteResults)
    requires Arrivals(cfg, usable, faults, s, cfg.topology[self][s], remoteResults)
    ensures AnsweredBy(view, self, Sources(cfg, self, s, false), s, [result] + remoteResults)
    ensures AllOk([result] + remoteResults) <==> ShardAnswers(cfg, usable, faults, self, s, false)
  {
    AnswersJoin(view, self, [self], cfg.topology[self][s], s, [result], remoteResults);
    AllAnswered(cfg, usable, faults, self, s, result, remoteResults);
  }

  /** Asks the local replica of a shard and then, unless local only, its remotes; one answer per replica. */
  method ExecuteList(net: Net, ghost view: View, self: PeerId, s: ShardId, localOnly: bool, faults: Faults)
    returns (results: seq<Result<seq<Point>>>, calls: nat)
    requires view == ViewOf(net) && Keyed(view) && self in net.holders && s in net.holders[self].shards
    ensures AnsweredBy(view, self, Sources(net.Configured(), self, s, localOnly), s, results)
    ensures AllOk(results) <==> ShardAnswers(net.Configured(), net.UsableShards(), faults, self, s, localOnly)
    ensures view == ViewOf(net) && |results| == 1 + calls
    decreases if localOnly then 0 else 1, 2
  {
    RemotesAreSound(net, self, s);
    var localResult := LocalList(net, view, self, s, faults.local.reading(s));
    Unwritten(net);
    if localOnly {
      AnsweredHere(net.Configured(), net.UsableShards(), faults, view, self, s, localResult);
      return [localResult], 0;
    }
    var remoteResults;
    remoteResults, calls := ListRemotes(net, view, self, s, faults);
    AnsweredEverywhere(net.Configured(), net.UsableShards(), faults, view, self, s, localResult, remoteResults);
    results := [localResult] + remoteResults;
  }

  /** Lists one shard into the map; a single failed replica fails the listing. */
  method ListShard(net: Net, ghost view: View, self: PeerId, s: ShardId, localOnly: bool, faults: Faults,
                   earlier: map<PointId, Point>)
    returns (r: Result<map<PointId, Point>>, calls: nat)
    requires view == ViewOf(net) && Keyed(view) && self in net.holders && s in net.holders[self].shards
    ensures r.Ok? ==> Merging(view, self, Sources(net.Configured(), self, s, localOnly), s, earlier, r.value)
    ensures r.Ok? ==> forall n :: n in Sources(net.Configured(), self, s, localOnly) ==> n in view
    ensures r.Ok? <==> ShardAnswers(net.Configured(), net.UsableShards(), faults, self, s, localOnly)
    ensures view == ViewOf(net)
    ensures 1 + calls == |Sources(net.Configured(), self, s, localOnly)|
    decreases if localOnly then 0 else 1, 3
  {
    var results;
    results, calls := ExecuteList(net, view, self, s, localOnly, faults);
    r := MergeAnswers(view, self, Sources(net.Configured(), self, s, localOnly), s, earlier, results);
    Unwritten(net);
  }

  /** Lists one more of the desired shards into what is listed so far. */
  method ListNext(net: Net, ghost view: View, self: PeerId, ghost only: Option<ShardId>, localOnly: bool,
                  faults: Faults,
                  s: ShardId, ghost todo: set<ShardId>, ghost order: seq<ShardId>, all: map<PointId, Point>, calls: nat)
    returns (r: Result<map<PointId, Point>>, allCalls: nat)
    requires view == ViewOf(net) && Keyed(view) && self in net.holders && s in net.holders[self].shards
    requires ListUnderway(net.Configured(), self, only, localOnly, view, todo, order, all, calls) && s in todo
    ensures view == ViewOf(net)
    ensures r.Ok? ==>
            ListUnderway(net.Configured(), self, only, localOnly, view, todo - {s}, order + [s], r.value, allCalls)
    ensures r.Err? ==> ListCost(net.Configured(), self, only, localOnly, ShardsIn(order + [s]), allCalls)
    ensures r.Ok? <==> ShardAnswers(net.Configured(), net.UsableShards(), faults, self, s, localOnly)
    decreases if localOnly then 0 else 1, 4
  {
    var more;
    r, more := ListShard(net, view, self, s, localOnly, faults, all);
    allCalls := calls + more;
    if r.Ok? {
      ListAdvances(net.Configured(), self, only, localOnly, view, todo, order, all, calls, s, r.value, more);
    } else {
      ListStops(net.Configured(), self, only, localOnly, view, todo, order, all, calls, s, more);
    }
  }

  /** The visited shards outside `todo` have all answered. */
  ghost predicate AnsweredSoFar(cfg: Config, usable: Usable, faults: Faults, self: PeerId, only: Option<ShardId>,
                                localOnly: bool, todo: set<ShardId>)
  {
    && self in cfg.topology
    && forall s :: s in Visited(cfg, self, only) && s !in todo ==> ShardAnswers(cfg, usable, faults, self, s, localOnly)
  }

  /** Lists the visited shards, in any order, into one map. */
  method ListShards(net: Net, ghost view: View, self: PeerId, only: Option<ShardId>, localOnly: bool, faults: Faults)
    returns (r: Result<map<PointId, Point>>, calls: nat, ghost order: seq<ShardId>)
    requires view == ViewOf(net) && Keyed(view) && self in net.holders
    ensures r.Ok? ==> ListUnderway(net.Configured(), self, only, localOnly, view, {}, order, r.value, calls)
    ensures r.Err? ==> ListCost(net.Configured(), self, only, localOnly, ShardsIn(order), calls)
    ensures r.Ok? <==> ListSucceeds(net.Configured(), net.UsableShards(), faults, self, only, localOnly)
    decreases if localOnly then 0 else 1, 5
  {
    ListBegins(net.Configured(), self, only, localOnly, view);
    var shards := net.holders[self].shards;
    var todo := shards.Keys;
    ghost var left := Visited(net.Configured(), self, only);
    var all: map<PointId, Point> := map[];
    calls, order := 0, [];
    while todo != {}
      invariant view == ViewOf(net) && todo <= shards.Keys
      invariant forall s :: s in left <==> s in todo && (only.None? || only.value == s)
      invariant ListUnderway(net.Configured(), self, only, localOnly, view, left, order, all, calls)
      invariant AnsweredSoFar(net.Configured(), net.UsableShards(), faults, self, only, localOnly, left)
      decreases |todo|
    {
      var s :| s in todo;
      RemovedOne(todo, s);
      todo := todo - {s};
      if only.Some? && only.value != s {
        continue;
      }
      r, calls := ListNext(net, view, self, only, localOnly, faults, s, left, order, all, calls);
      order, left := order + [s], left - {s};
      if r.Err? {
        return;
      }
      all := r.value;
    }
    assert left == {};
    r := Ok(all);
  }

  /** The shards an underway listing has visited are those it set out to visit, once none is left. */
  lemma AllVisited(cfg: Config, self: PeerId, only: Option<ShardId>, localOnly: bool, view: View, order: seq<ShardId>,
                   all: map<PointId, Point>, calls: nat)
    requires ListUnderway(cfg, self, only, localOnly, view, {}, order, all, calls)
    ensures OrderOf(order, Visited(cfg, self, only)) && ShardsIn(order) == Visited(cfg, self, only)
    ensures ListCost(cfg, self, only, localOnly, ShardsIn(order), calls)
  {
  }

  /**
   Every point of the visited shards, merged over the replicas and sorted by id: what some order of the shards
   shows.
   */
  method ListPoints(net: Net, ghost view: View, self: PeerId, only: Option<ShardId>, localOnly: bool, faults: Faults)
    returns (r: Result<seq<Point>>, calls: nat, ghost order: seq<ShardId>)
    requires view == ViewOf(net) && Keyed(view) && self in net.holders
    ensures r.Ok? ==> OrderOf(order, Visited(net.Configured(), self, only))
    ensures r.Ok? ==> ListsIn(net.Configured(), self, order, localOnly, view, r.value)
    ensures r.Ok? <==> ListSucceeds(net.Configured(), net.UsableShards(), faults, self, only, localOnly)
    ensures ListCost(net.Configured(), self, only, localOnly, ShardsIn(order), calls)
    decreases if localOnly then 0 else 1, 6
  {
    NetFits(net);
    var listed;
    listed, calls, order := ListShards(net, view, self, only, localOnly, faults);
    if listed.Err? {
      return Err(listed.error), calls, order;
    }
    AllVisited(net.Configured(), self, only, localOnly, view, order, listed.value, calls);
    ListedPointsNameTheirIds(net.Configured(), self, localOnly, view, order, listed.value);
    var values := IntoValues(listed.value);
    AllListed(net.Configured(), self, localOnly, view, order, listed.value, values);
    r := Ok(values);
  }

  /** The local hits of one group, put behind those found so far. */
  method CollectNext(net: Net, ghost view: View, self: PeerId, ghost ids: seq<PointId>, ghost done: set<ShardId>,
                     s: ShardId, group: seq<PointId>, points: seq<Point>, fails: bool)
    returns (r: Result<seq<Point>>)
    requires view == ViewOf(net) && self in net.holders && s !in done
    requires group == IdsRoutedTo(net.Configured().RingOf(self), ids, s)
    requires multiset(points) == multiset(FoundIn(net.Configured().RingOf(self), view[self], ids, done))
    ensures view == ViewOf(net)
    ensures r.Ok? ==> multiset(r.value) == multiset(FoundIn(net.Configured().RingOf(self), view[self], ids, done + {s}))
    ensures r.Ok? <==> ReadSucceeds(net.UsableShards(), self, s, fails)
  {
    var replicaSet := net.holders[self].GetReplicaSet(s);
    if replicaSet.Err? {
      return Err(replicaSet.error);
    }
    r := LocalHits(net, view, self, s, group, fails);
    Unwritten(net);
    if r.Ok? {
      FoundInMore(net.Configured().RingOf(self), view[self], ids, done, s);
      r := Ok(points + r.value);
    }
  }

  /** The local hits of every group, in any order of the shards. */
  method CollectHits(net: Net, ghost view: View, self: PeerId, ghost ids: seq<PointId>,
                     groups: map<ShardId, seq<PointId>>, faults: LocalFaults)
    returns (r: Result<seq<Point>>)
    requires view == ViewOf(net) && self in net.holders
    requires forall s :: s in groups ==> groups[s] == IdsRoutedTo(net.Configured().RingOf(self), ids, s)
    ensures r.Ok? ==>
            multiset(r.value) == multiset(FoundIn(net.Configured().RingOf(self), view[self], ids, groups.Keys))
    ensures r.Ok? <==> forall s :: s in groups ==> ReadSucceeds(net.UsableShards(), self, s, faults.reading(s))
  {
    ghost var ring, stores, usable := net.Configured().RingOf(self), view[self], net.UsableShards();
    var points: seq<Point> := [];
    var todo := groups.Keys;
    ghost var done: set<ShardId> := {};
    FoundInNone(ring, stores, ids);
    while todo != {}
      invariant view == ViewOf(net)
      invariant (forall s :: s in groups <==> s in todo || s in done) && (forall s :: s in todo ==> s !in done)
      invariant multiset(points) == multiset(FoundIn(ring, stores, ids, done))
      invariant forall s :: s in done ==> ReadSucceeds(usable, self, s, faults.reading(s))
      decreases |todo|
    {
      var s :| s in todo;
      RemovedOne(todo, s);
      r := CollectNext(net, view, self, ids, done, s, groups[s], points, faults.reading(s));
      if r.Err? {
        return;
      }
      points, done, todo := r.value, done + {s}, todo - {s};
    }
    assert done == groups.Keys;
    r := Ok(points);
  }

  /** The shards an id list is grouped into are those its ids lead to. */
  lemma GroupsLedTo(ring: HashRing, ids: seq<PointId>, groups: map<ShardId, seq<PointId>>)
    requires forall s :: s in groups <==> IdsRoutedTo(ring, ids, s) != []
    ensures forall id :: id in ids ==> ring.At(id) in groups
    ensures forall s :: s in groups ==> exists id :: id in ids && ring.At(id) == s
  {
    forall id | id in ids
      ensures ring.At(id) in groups
    {
      RoutedIdsExactly(ring, ids, ring.At(id));
      assert id in IdsRoutedTo(ring, ids, ring.At(id));
    }
    forall s | s in groups
      ensures exists id :: id in ids && ring.At(id) == s
    {
      RoutedIdsExactly(ring, ids, s);
      assert IdsRoutedTo(ring, ids, s)[0] in IdsRoutedTo(ring, ids, s);
    }
  }

  /** The local points an id list leads to, shard by shard. */
  method FindPoints(net: Net, ghost view: View, self: PeerId, ids: seq<PointId>, faults: LocalFaults)
    returns (r: Result<seq<Point>>)
    requires view == ViewOf(net) && self in net.holders
    ensures r.Ok? ==> multiset(r.value) == multiset(Found(net.Configured().RingOf(self), view[self], ids))
    ensures r.Ok? <==> FindSucceeds(net.Configured(), net.UsableShards(), faults, self, ids)
  {
    var holder := net.holders[self];
    assert holder.ring == net.Configured().RingOf(self);
    var selected := holder.SelectShards(ids);
    Unwritten(net);
    if selected.Err? {
      return Err(selected.error);
    }
    GroupsLedTo(holder.ring, ids, selected.value);
    r := CollectHits(net, view, self, ids, selected.value, faults);
    FoundInAll(holder.ring, view[self], ids, selected.value.Keys);
  }

  /**
   What a successful read returns: a listing, one shard's hits, or the local hits of all ids in any order of
   the shards.
   */
  ghost predicate Got(cfg: Config, view: View, self: PeerId, ids: Option<seq<PointId>>, shardId: Option<ShardId>,
                      localOnly: bool, points: seq<Point>)
  {
    if ids.None? then ListStep(cfg, self, shardId, localOnly, view, points)
    else self in cfg.topology && self in view
         && if shardId.Some? then shardId.value in view[self] && points == Hits(view[self][shardId.value], ids.value)
            else multiset(points) == multiset(Found(cfg.RingOf(self), view[self], ids.value))
  }

  /** Reads points: a listing when no ids are given, otherwise local lookups and no calls at all. */
  method GetPoints(net: Net, ghost view: View, self: PeerId, ids: Option<seq<PointId>>, shardId: Option<ShardId>,
                   localOnly: bool, faults: Faults)
    returns (r: Result<seq<Point>>, calls: nat)
    requires view == ViewOf(net) && Keyed(view) && self in net.holders
    ensures r.Ok? ==> Got(net.Configured(), view, self, ids, shardId, localOnly, r.value)
    ensures r.Ok? <==> GetSucceeds(net.Configured(), net.UsableShards(), faults, self, ids, shardId, localOnly)
    ensures ids.Some? && shardId.Some? && shardId.value !in view[self] ==> r == Err(BadInput)
    ensures ids.Some? || localOnly ==> calls == 0
    ensures ids.None? ==> exists reached :: ListCost(net.Configured(), self, shardId, localOnly, reached, calls)
    decreases if localOnly then 0 else 1, 7
  {
    calls := 0;
    match ids
    case None =>
      ghost var order;
      r, calls, order := ListPoints(net, view, self, shardId, localOnly, faults);
    case Some(wanted) =>
      match shardId
      case Some(s) =>
        var replicaSet := net.holders[self].GetReplicaSet(s);
        if replicaSet.Err? {
          return Err(replicaSet.error), calls;
        }
        r := LocalHits(net, view, self, s, wanted, faults.local.reading(s));
      case None =>
        r := FindPoints(net, view, self, wanted, faults.local);
  }
}
