/** The results of one shard's write, at the node itself and at the remotes it calls. */
module Calls {
  import opened Types
  import opened Batches
  import opened Views
  import opened Failures
  import opened Effects

  function CountOk<T>(results: seq<Result<T>>): nat {
    if results == [] then 0
    else CountOk(results[..|results| - 1]) + if results[|results| - 1].Ok? then 1 else 0
  }

  lemma {:induction false} CountOkSplit<T>(results: seq<Result<T>>)
    requires results != []
    ensures CountOk(results) == (if results[0].Ok? then 1 else 0) + CountOk(results[1..])
  {
    if |results| > 1 {
      CountOkSplit(results[..|results| - 1]);
      assert results[..|results| - 1][1..] == results[1..][..|results| - 2];
    } else {
      assert results[..0] == [] && results[1..] == [];
    }
  }

  lemma CountOkAdd<T>(results: seq<Result<T>>, last: Result<T>)
    ensures CountOk(results + [last]) == CountOk(results) + if last.Ok? then 1 else 0
  {
    assert (results + [last])[..|results|] == results;
  }

  /** The remotes among `peers` whose call succeeds. */
  ghost function AcksAmong(cfg: Config, usable: Usable, faults: Faults, s: ShardId, peers: seq<PeerId>,
                           points: seq<Point>): set<PeerId>
  {
    set n | n in peers && CallSucceeds(cfg, usable, n, points, faults.calls(s, n))
  }

  lemma AcksAmongMore(cfg: Config, usable: Usable, faults: Faults, s: ShardId, peers: seq<PeerId>, n: PeerId,
                      points: seq<Point>)
    requires n !in peers
    ensures var before := AcksAmong(cfg, usable, faults, s, peers, points);
            && n !in before
            && AcksAmong(cfg, usable, faults, s, peers + [n], points) ==
                 if CallSucceeds(cfg, usable, n, points, faults.calls(s, n)) then before + {n} else before
  {
  }

  /** One result per remote called, in the order of the calls. */
  ghost predicate CallResults(cfg: Config, usable: Usable, faults: Faults, s: ShardId, peers: seq<PeerId>,
                              points: seq<Point>, results: seq<Result<()>>)
  {
    && |results| == |peers|
    && forall i :: 0 <= i < |peers| ==>
         (results[i].Ok? <==> CallSucceeds(cfg, usable, peers[i], points, faults.calls(s, peers[i])))
  }

  /** What the calls returned: who succeeded, in order, and so who is counted. */
  ghost predicate Answered(cfg: Config, usable: Usable, faults: Faults, s: ShardId, peers: seq<PeerId>,
                           points: seq<Point>, results: seq<Result<()>>, acked: set<PeerId>)
  {
    && CallResults(cfg, usable, faults, s, peers, points, results)
    && acked == AcksAmong(cfg, usable, faults, s, peers, points) && |acked| == CountOk(results)
  }

  lemma AnsweredOneMore(cfg: Config, usable: Usable, faults: Faults, s: ShardId, peers: seq<PeerId>, n: PeerId,
                        points: seq<Point>, results: seq<Result<()>>, acked: set<PeerId>, result: Result<()>)
    requires Answered(cfg, usable, faults, s, peers, points, results, acked) && n !in peers
    requires result.Ok? <==> CallSucceeds(cfg, usable, n, points, faults.calls(s, n))
    ensures Answered(cfg, usable, faults, s, peers + [n], points, results + [result],
                     if result.Ok? then acked + {n} else acked)
  {
    AcksAmongMore(cfg, usable, faults, s, peers, n, points);
    CountOkAdd(results, result);
    if result.Ok? {
      AddedOne(acked, n);
    }
  }

  /** The remotes in `peers` have been called: what each call returned, who acknowledged, and what it did. */
  ghost predicate Called(cfg: Config, usable: Usable, faults: Faults, self: PeerId, s: ShardId, peers: seq<PeerId>,
                         points: seq<Point>, before: View, now: View, results: seq<Result<()>>, acked: set<PeerId>)
  {
    && RemotesStep(cfg, self, peers, points, before, now, acked)
    && Answered(cfg, usable, faults, s, peers, points, results, acked)
    && RemotesExactly(cfg, usable, faults, s, peers, points, before, now)
  }

  lemma CalledNobody(cfg: Config, usable: Usable, faults: Faults, self: PeerId, s: ShardId, points: seq<Point>,
                     view: View)
    requires cfg.Fits(view)
    ensures Called(cfg, usable, faults, self, s, [], points, view, view, [], {})
  {
  }

  lemma CalledOneMore(cfg: Config, usable: Usable, faults: Faults, self: PeerId, s: ShardId, peers: seq<PeerId>, i: nat,
                      points: seq<Point>, before: View, now: View, after: View, results: seq<Result<()>>,
                      acked: set<PeerId>, result: Result<()>)
    requires self in cfg.topology && i < |peers| && self !in peers && DistinctPeers(peers)
    requires Called(cfg, usable, faults, self, s, peers[..i], points, before, now, results, acked)
    requires RemoteStep(cfg, peers[i], points, now, after, result.Ok?)
    requires RemoteExactly(cfg, usable, peers[i], points, faults.calls(s, peers[i]), now, after)
    requires result.Ok? <==> CallSucceeds(cfg, usable, peers[i], points, faults.calls(s, peers[i]))
    ensures Called(cfg, usable, faults, self, s, peers[..i + 1], points, before, after, results + [result],
                   if result.Ok? then acked + {peers[i]} else acked)
    ensures after[self] == now[self]
  {
    TakeMore(peers, i);
    RemotesExactlyMore(cfg, usable, faults, s, peers, i, points, before, now, after);
    RemotesExtend(cfg, self, peers, i, points, before, now, after, acked, result.Ok?);
    AnsweredOneMore(cfg, usable, faults, s, peers[..i], peers[i], points, results, acked, result);
  }

  /** The local write alone: one result, and nobody else to acknowledge. */
  lemma ExecutedHere(cfg: Config, usable: Usable, faults: Faults, self: PeerId, s: ShardId, points: seq<Point>,
                     before: View, after: View, result: Result<()>)
    requires LocalExactly(cfg, usable, self, s, points, faults.local.writing(s), before, after)
    requires result.Ok? <==> WriteSucceeds(usable, self, s, faults.local.writing(s))
    ensures GroupStep(cfg, self, s, points, true, before, after, {})
    ensures GroupEffect(cfg, usable, faults, self, s, points, true, before, after)
    ensures Acks(cfg, usable, faults, self, s, points, true) == {} && CountOk([result][1..]) == 0
    ensures result.Ok? ==> after[self][s] == Written(before[self][s], points)
  {
    LocalExactlyIsStep(cfg, usable, self, s, points, faults.local.writing(s), before, after);
    LocalAlone(cfg, self, s, points, before, after, result.Ok?);
    LocalIsGroup(cfg, usable, faults, self, s, points, before, after);
  }

  /** The local write and then the calls: one result for each, the local one first. */
  lemma ExecutedEverywhere(cfg: Config, usable: Usable, faults: Faults, self: PeerId, s: ShardId, points: seq<Point>,
                           before: View, written: View, after: View, result: Result<()>,
                           remoteResults: seq<Result<()>>, acked: set<PeerId>)
    requires LocalExactly(cfg, usable, self, s, points, faults.local.writing(s), before, written)
    requires result.Ok? <==> WriteSucceeds(usable, self, s, faults.local.writing(s))
    requires Called(cfg, usable, faults, self, s, cfg.topology[self][s], points, written, after, remoteResults, acked)
    requires self !in cfg.topology[self][s] && after[self] == written[self]
    ensures GroupStep(cfg, self, s, points, false, before, after, acked)
    ensures GroupEffect(cfg, usable, faults, self, s, points, false, before, after)
    ensures acked == Acks(cfg, usable, faults, self, s, points, false)
    ensures |acked| == CountOk(([result] + remoteResults)[1..])
    ensures result.Ok? ==> after[self][s] == Written(before[self][s], points)
  {
    LocalExactlyIsStep(cfg, usable, self, s, points, faults.local.writing(s), before, written);
    LocalThenCalls(cfg, usable, faults, self, s, points, before, written, after);
    LocalThenRemotes(cfg, self, s, points, before, written, after, result.Ok?, acked);
    assert ([result] + remoteResults)[1..] == remoteResults;
  }
}
