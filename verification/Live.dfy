/**
 One collection while clients write to it and nodes join: the join protocol decides who lists whom, the
 upserts run against the lists as they are at that moment.
 */
module Live {
  import opened Types
  import opened Ring
  import opened Batches
  import opened Views
  import opened Join
  import opened JoinRuns
  import Guarantees

  /** `writes[i]` is the upsert served in step `i`, or what the join step `i` is to the collection. */
  datatype LiveRun = LiveRun(name: CollectionName, place: Placement, join: JoinRun, views: seq<View>,
                             writes: seq<Runs.Event>) {
    ghost function At(i: nat): Runs.System
      requires i < |join.states| == |views|
    {
      Runs.System(Config(place, TopologyOf(join.states[i], name)), views[i])
    }

    ghost predicate Valid() {
      && join.Valid() && |views| == |join.states| && |writes| == |join.events| && views[0] == map[]
      && forall i :: 0 <= i < |writes| ==> Served(i)
    }

    ghost predicate Served(i: nat)
      requires i < |writes| == |join.events| && |join.states| == |views| == |writes| + 1
    {
      if join.events[i].Serve?
      then writes[i].Upsert? && writes[i].self == join.events[i].n && Runs.Step(At(i), writes[i], At(i + 1))
      else IsRunEvent(join.events[i], name, place, writes[i]) && views[i + 1] == ViewAfter(views[i], writes[i])
    }

    /** The run as the data operations see it. */
    ghost function Observed(): Runs.Run
      requires |join.states| == |views|
    {
      Runs.Run(seq(|views|, i requires 0 <= i < |views| => At(i)), writes)
    }
  }

  lemma StepObserved(live: LiveRun, i: nat)
    requires live.Valid() && i < |live.writes|
    ensures Runs.Step(live.At(i), live.writes[i], live.At(i + 1))
  {
    assert live.Served(i);
    SoundAlways(live.join, i);
    if !live.join.events[i].Serve? {
      JoinStepIsRunStep(live.join.states[i], live.join.events[i], live.name, live.place, live.views[i],
                        live.writes[i]);
    }
  }

  /** However joins and writes interleave, the collection goes through a run in the sense of `Runs`. */
  lemma LiveIsRun(live: LiveRun)
    requires live.Valid()
    ensures live.Observed().Valid()
  {
    var run := live.Observed();
    forall i | 0 <= i < |run.events|
      ensures Runs.Step(run.states[i], run.events[i], run.states[i + 1])
    {
      StepObserved(live, i);
    }
    assert live.At(0) == Runs.System(Config(live.place, map[]), map[]);
  }

  /** A shard that lists a peer is a shard whose remotes the operations call. */
  lemma ListedIsRemote(c: Cluster, n: PeerId, name: CollectionName, p: PeerId, s: ShardId)
    requires LinkedAt(c, n, name, p) && n in TopologyOf(c, name) && s in TopologyOf(c, name)[n]
    ensures p in TopologyOf(c, name)[n][s]
  {
  }

  /**
   End to end: once node `r` lists node `n` for the collection, every numeric id of a batch that `n`
   acknowledged, as the node that ran it or as a remote, before or after, is in every later successful full
   listing at `r`, provided `r` has the shard in which `n` keeps the id.
   */
  lemma LinkedNodeListsAcknowledged(live: LiveRun, i: nat, j: nat, k: nat, n: PeerId, r: PeerId, id: PointId,
                                    listing: seq<Point>)
    requires live.Valid() && live.Observed().Canonical() && i < k < |live.views| && j <= k
    requires Runs.Acknowledges(live.At(i), live.writes[i], n, id)
    requires live.writes[i].ok && id in Numeric(PointsMap(live.writes[i].points))
    requires LinkedAt(live.join.states[j], r, live.name, n)
    requires r in live.At(k).cfg.topology && live.At(i).cfg.RingOf(n).At(id) in live.At(k).cfg.topology[r]
    requires ListStep(live.At(k).cfg, r, None, false, live.At(k).view, listing)
    ensures HasId(listing, id)
  {
    LiveIsRun(live);
    LinksLast(live.join, j, k, r, live.name, n);
    ListedIsRemote(live.join.states[k], r, live.name, n, live.At(i).cfg.RingOf(n).At(id));
    Runs.AcknowledgedIsListed(live.Observed(), i, k, r, n, id, listing);
  }

  /** In particular once `r` has worked through `n` in the reply it got, for a collection it had then. */
  lemma JoinedNodeListsAcknowledged(live: LiveRun, i: nat, j: nat, k: nat, n: PeerId, r: PeerId, id: PointId,
                                    listing: seq<Point>)
    requires live.Valid() && live.Observed().Canonical() && i < k < |live.views| && j < k
    requires Runs.Acknowledges(live.At(i), live.writes[i], n, id)
    requires live.writes[i].ok && id in Numeric(PointsMap(live.writes[i].points))
    requires live.join.events[j] == AbsorbNext(r) && live.join.states[j].joiners[r].phase.peer == n
    requires live.name in live.join.states[j].nodes[r].collections
    requires r in live.At(k).cfg.topology && live.At(i).cfg.RingOf(n).At(id) in live.At(k).cfg.topology[r]
    requires ListStep(live.At(k).cfg, r, None, false, live.At(k).view, listing)
    ensures HasId(listing, id)
  {
    AbsorbedPeerIsLinked(live.join, j, r, live.name);
    LinkedNodeListsAcknowledged(live, i, j, k, n, r, id, listing);
  }

  /** And the quorum holds at every acknowledged upsert, whatever joins are under way. */
  lemma LiveQuorum(live: LiveRun, i: nat, id: PointId) returns (nodes: set<PeerId>)
    requires live.Valid() && i < |live.writes| && live.writes[i].Upsert? && live.writes[i].ok
    requires live.writes[i].self in live.At(i).cfg.topology && id in Numeric(PointsMap(live.writes[i].points))
    requires Guarantees.Spared(live.At(i).cfg.RingOf(live.writes[i].self), live.writes[i].points,
                               live.writes[i].acked, id)
    ensures var cfg, self := live.At(i).cfg, live.writes[i].self;
            var s := cfg.RingOf(self).At(id);
            && s in cfg.topology[self] && |nodes| >= Enough(cfg, self, s)
            && Guarantees.HeldBy(cfg, live.views[i + 1], PointsMap(live.writes[i].points)[id], nodes)
  {
    var a, e, b := live.At(i), live.writes[i], live.At(i + 1);
    StepObserved(live, i);
    SoundAlways(live.join, i);
    SoundMeansSoundTopology(live.join.states[i], live.name);
    nodes := Guarantees.QuorumOnDistinctNodes(a.cfg, e.self, e.points, a.view, b.view, e.acked, id);
  }
}
