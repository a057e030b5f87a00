/**
 Whole runs of a cluster: client upserts, one at a time but failing in any way, between membership steps
 that change remotes, add nodes, or reload a node.
 */
module Runs {
  import opened Types
  import opened IdText
  import opened Ring
  import opened Batches
  import opened Listings
  import opened Views
  import opened IdMaps
  import opened Guarantees
  import opened ListingLaws

  datatype System = System(cfg: Config, view: View)

  /**
   `Rewire` stands for every step that changes remotes only: adding a remote to a collection's shards, or
   reloading a node, which finds the same shard directories and points but no remotes. A node that starts
   brings what it has stored, nothing or what it finds on its disk, each point where its ring and key put it.
   */
  datatype Event =
    | Upsert(self: PeerId, points: seq<Point>, ok: bool, acked: map<ShardId, set<PeerId>>)
    | Rewire
    | Start(node: PeerId, stores: Stores)

  ghost predicate CanonicalEvent(e: Event) {
    && (e.Upsert? ==> CanonicalBatch(e.points))
    && (e.Start? ==> AllCanonical(e.stores))
  }

  function EmptyStores(shards: set<ShardId>): Stores {
    map s | s in shards :: map[]
  }

  ghost predicate Step(a: System, e: Event, b: System) {
    && b.cfg.place == a.cfg.place
    && match e
       case Upsert(self, points, ok, acked) =>
         b.cfg == a.cfg && UpsertStep(a.cfg, self, points, false, a.view, b.view, ok, acked)
       case Rewire =>
         && SoundTopology(b.cfg.topology)
         && b.view == a.view && b.cfg.topology.Keys == a.cfg.topology.Keys
         && forall n :: n in a.cfg.topology ==> b.cfg.topology[n].Keys == a.cfg.topology[n].Keys
       case Start(node, stores) =>
         && SoundTopology(b.cfg.topology) && Routed(HashRing(stores.Keys, a.cfg.place), stores)
         && node !in a.cfg.topology
         && b.cfg.topology.Keys == a.cfg.topology.Keys + {node} && b.cfg.topology[node].Keys == stores.Keys
         && b.view == a.view[node := stores]
         && forall n :: n in a.cfg.topology ==> b.cfg.topology[n].Keys == a.cfg.topology[n].Keys
  }

  datatype Run = Run(states: seq<System>, events: seq<Event>) {
    ghost predicate Valid() {
      && |states| == |events| + 1
      && states[0].view == map[] && states[0].cfg.topology == map[]
      && forall i :: 0 <= i < |events| ==> Step(states[i], events[i], states[i + 1])
    }

    /** All ids that come in, with upserts or with nodes that start, are canonical. */
    ghost predicate Canonical() {
      forall i :: 0 <= i < |events| ==> CanonicalEvent(events[i])
    }
  }

  // ---------- the routing invariant ----------

  lemma StepKeepsRouting(a: System, e: Event, b: System)
    requires RoutedView(a.cfg, a.view) && Step(a, e, b)
    ensures RoutedView(b.cfg, b.view)
  {
    forall n | n in b.cfg.topology
      ensures Routed(b.cfg.RingOf(n), b.view[n])
    {
      if n in a.cfg.topology {
        assert Routed(a.cfg.RingOf(n), a.view[n]);
        assert b.cfg.RingOf(n) == a.cfg.RingOf(n);
        if e.Upsert? {
          PointsMapIds(e.points);
          if n == e.self {
            TouchedStaysRouted(a.cfg.RingOf(n), PointsMap(e.points), a.view[n], b.view[n]);
          } else {
            TouchedByOthers(a.cfg, e.self, e.points, a.view, b.view, n);
            TouchedStaysRouted(a.cfg.RingOf(n), Numeric(PointsMap(e.points)), a.view[n], b.view[n]);
          }
        }
      }
    }
  }

  /** In every state of every run, on every node, each point is where that node's ring and key put it. */
  lemma {:induction false} RoutingAlways(run: Run, i: nat)
    requires run.Valid() && i < |run.states|
    ensures RoutedView(run.states[i].cfg, run.states[i].view)
    ensures Keyed(run.states[i].view) && SoundTopology(run.states[i].cfg.topology)
  {
    if i > 0 {
      RoutingAlways(run, i - 1);
      assert Step(run.states[i - 1], run.events[i - 1], run.states[i]);
      StepKeepsRouting(run.states[i - 1], run.events[i - 1], run.states[i]);
    }
    RoutedIsKeyed(run.states[i].cfg, run.states[i].view);
  }

  lemma RoutedIsKeyed(cfg: Config, view: View)
    requires RoutedView(cfg, view)
    ensures Keyed(view)
  {
    forall n, s, k | n in view && s in view[n] && k in view[n][s]
      ensures IntoString(view[n][s][k].id) == k
    {
      assert Routed(cfg.RingOf(n), view[n]);
      assert Lands(cfg.RingOf(n), view[n][s][k].id, s, k);
    }
  }

  /** So the quorum holds at every successful upsert of every run. */
  lemma QuorumAlways(run: Run, i: nat, id: PointId) returns (nodes: set<PeerId>)
    requires run.Valid() && i < |run.events| && run.events[i].Upsert? && run.events[i].ok
    requires run.events[i].self in run.states[i].cfg.topology
    requires id in Numeric(PointsMap(run.events[i].points))
    requires Spared(run.states[i].cfg.RingOf(run.events[i].self), run.events[i].points, run.events[i].acked, id)
    ensures var a, e := run.states[i], run.events[i];
            var s := a.cfg.RingOf(e.self).At(id);
            && s in a.cfg.topology[e.self]
            && |nodes| >= Enough(a.cfg, e.self, s)
            && HeldBy(a.cfg, run.states[i + 1].view, PointsMap(e.points)[id], nodes)
  {
    RoutingAlways(run, i);
    var a, e, b := run.states[i], run.events[i], run.states[i + 1];
    assert Step(a, e, b);
    nodes := QuorumOnDistinctNodes(a.cfg, e.self, e.points, a.view, b.view, e.acked, id);
  }

  /** And which ids of a batch have the quorum that was reported, at any of them. */
  lemma QuorumExactlyAlways(run: Run, i: nat, id: PointId)
    requires run.Valid() && i < |run.events| && run.events[i].Upsert? && run.events[i].ok
    requires run.events[i].self in run.states[i].cfg.topology
    requires id in PointsMap(run.events[i].points) && Canonical(id)
    requires !Shadowed(run.states[i].cfg.RingOf(run.events[i].self), run.events[i].points, id)
    ensures var a, e := run.states[i], run.events[i];
            var p, s := PointsMap(e.points)[id], a.cfg.RingOf(e.self).At(id);
            && s in a.cfg.topology[e.self]
            && (AtQuorum(a.cfg, e.self, run.states[i + 1].view, p) <==>
                id.Id? || a.cfg.topology[e.self][s] == [] || HeldElsewhere(a.cfg, e.self, a.view, p))
  {
    RoutingAlways(run, i);
    var a, e, b := run.states[i], run.events[i], run.states[i + 1];
    assert Step(a, e, b);
    QuorumExactly(a.cfg, e.self, e.points, a.view, b.view, e.acked, id);
  }

  // ---------- ids stay ----------

  /** Node `n` finds some version of `id` in shard `s`. */
  ghost predicate Known(state: System, n: PeerId, s: ShardId, id: PointId) {
    n in state.view && s in state.view[n] && FindById(state.view[n][s], id).Some?
  }

  lemma StepKeepsKnown(a: System, e: Event, b: System, n: PeerId, s: ShardId, id: PointId)
    requires RoutedView(a.cfg, a.view) && Step(a, e, b)
    requires e.Upsert? ==> CanonicalBatch(e.points)
    requires Canonical(id) && Known(a, n, s, id)
    ensures Known(b, n, s, id)
  {
    if e.Upsert? {
      CanonicalVersions(e.points);
      var versions := if n == e.self then PointsMap(e.points) else Numeric(PointsMap(e.points));
      if n != e.self {
        TouchedByOthers(a.cfg, e.self, e.points, a.view, b.view, n);
      }
      var k := IntoString(id);
      assert OldOrVersion(a.cfg.RingOf(n), versions, s, k, Get(a.view[n][s], k), Get(b.view[n][s], k));
      forall other | other in versions && Lands(a.cfg.RingOf(n), other, s, k)
        ensures other == id
      {
        KeysAreInjective(other, id);
      }
    }
  }

  lemma {:induction false} KnownAlways(run: Run, i: nat, j: nat, n: PeerId, s: ShardId, id: PointId)
    requires run.Valid() && run.Canonical() && i <= j < |run.states|
    requires Canonical(id) && Known(run.states[i], n, s, id)
    ensures Known(run.states[j], n, s, id)
  {
    if i < j {
      KnownAlways(run, i, j - 1, n, s, id);
      RoutingAlways(run, j - 1);
      assert Step(run.states[j - 1], run.events[j - 1], run.states[j]);
      StepKeepsKnown(run.states[j - 1], run.events[j - 1], run.states[j], n, s, id);
    }
  }

  /** A node that is asked, and knows the id, puts the id into the listing. */
  lemma AskedAndKnownIsListed(state: System, m: PeerId, n: PeerId, s: ShardId, id: PointId, listing: seq<Point>)
    requires ListStep(state.cfg, m, None, false, state.view, listing)
    requires s in state.cfg.topology[m] && (n == m || n in state.cfg.topology[m][s])
    requires Known(state, n, s, id) && id.Id?
    ensures HasId(listing, id)
  {
    var sources := Sources(state.cfg, m, s, false);
    ListStepShows(state.cfg, m, None, false, state.view, listing);
    assert n in sources;
    var i :| 0 <= i < |sources| && sources[i] == n;
    assert Offer(state.view, m, sources[i], s, id).Some?;
    FirstOfferIsFirst(state.view, m, sources, s, id, Point(id, ""));
    assert Listed(state.cfg, state.view, m, s, false, id).Some?;
  }

  /** Node `n` ran the upsert, or acknowledged it for the shard of `id`. */
  predicate Acknowledges(a: System, e: Event, n: PeerId, id: PointId) {
    && e.Upsert? && e.self in a.cfg.topology && n in a.cfg.topology
    && (n == e.self || (a.cfg.RingOf(e.self).At(id) in e.acked && n in e.acked[a.cfg.RingOf(e.self).At(id)]))
  }

  /** Every node of the quorum has the id afterwards, in the shard its own ring gives it. */
  lemma AcknowledgerKnows(a: System, e: Event, b: System, n: PeerId, id: PointId)
    requires Step(a, e, b) && Acknowledges(a, e, n, id) && e.ok
    requires CanonicalBatch(e.points) && id in Numeric(PointsMap(e.points))
    ensures Known(b, n, a.cfg.RingOf(n).At(id), id)
    ensures FindById(b.view[n][a.cfg.RingOf(n).At(id)], id) == Some(PointsMap(e.points)[id])
  {
    CanonicalVersions(e.points);
    if n == e.self {
      CanonicalUnshadowed(a.cfg.RingOf(n), e.points, id);
      ShadowedIsLostHere(a.cfg, n, e.points, false, a.view, b.view, e.acked, id);
    } else {
      assert HoldsNumeric(a.cfg, b.view, n, a.cfg.RingOf(e.self), a.cfg.RingOf(e.self).At(id), PointsMap(e.points));
    }
  }

  lemma RoutedStep(run: Run, i: nat)
    requires run.Valid() && i < |run.events|
    ensures RoutedView(run.states[i].cfg, run.states[i].view)
    ensures Step(run.states[i], run.events[i], run.states[i + 1])
    ensures run.Canonical() ==> CanonicalEvent(run.events[i])
  {
    RoutingAlways(run, i);
  }

  lemma RunStep(run: Run, i: nat)
    requires run.Valid() && i < |run.events|
    ensures Step(run.states[i], run.events[i], run.states[i + 1])
  {
  }

  lemma QuorumKnows(run: Run, i: nat, n: PeerId, id: PointId)
    requires run.Valid() && run.Canonical() && i < |run.events|
    requires Acknowledges(run.states[i], run.events[i], n, id)
    requires run.events[i].ok && id in Numeric(PointsMap(run.events[i].points))
    ensures var s := run.states[i].cfg.RingOf(n).At(id);
            && Known(run.states[i + 1], n, s, id)
            && FindById(run.states[i + 1].view[n][s], id) == Some(PointsMap(run.events[i].points)[id])
  {
    RunStep(run, i);
    AcknowledgerKnows(run.states[i], run.events[i], run.states[i + 1], n, id);
  }

  /** Every node of the quorum keeps the id from then on. */
  lemma AcknowledgedIsKnown(run: Run, i: nat, j: nat, n: PeerId, id: PointId)
    requires run.Valid() && run.Canonical() && i < j < |run.states|
    requires Acknowledges(run.states[i], run.events[i], n, id)
    requires run.events[i].ok && id in Numeric(PointsMap(run.events[i].points))
    ensures Known(run.states[j], n, run.states[i].cfg.RingOf(n).At(id), id)
  {
    var s := run.states[i].cfg.RingOf(n).At(id);
    QuorumKnows(run, i, n, id);
    CanonicalVersions(run.events[i].points);
    KnownAlways(run, i + 1, j, n, s, id);
  }

  /**
   Once an upsert at step `i` succeeded, every later full listing that succeeds at any node `m` contains
   each numeric id of that batch, provided `m` is a node that acknowledged it, the one that ran it or another
   of the quorum, or has such a node among its remotes for the shard where that node keeps the id, whatever
   joins, reloads and other upserts came between.
   */
  lemma AcknowledgedIsListed(run: Run, i: nat, j: nat, m: PeerId, n: PeerId, id: PointId, listing: seq<Point>)
    requires run.Valid() && run.Canonical() && i < j < |run.states|
    requires Acknowledges(run.states[i], run.events[i], n, id)
    requires run.events[i].ok && id in Numeric(PointsMap(run.events[i].points)) && m in run.states[j].cfg.topology
    requires ListStep(run.states[j].cfg, m, None, false, run.states[j].view, listing)
    requires var remotes, s := run.states[j].cfg.topology[m], run.states[i].cfg.RingOf(n).At(id);
             s in remotes && (n == m || n in remotes[s])
    ensures HasId(listing, id)
  {
    AcknowledgedIsKnown(run, i, j, n, id);
    AskedAndKnownIsListed(run.states[j], m, n, run.states[i].cfg.RingOf(n).At(id), id, listing);
  }

  // ---------- versions stay ----------

  /** From state `i` to state `j` no batch has the id. */
  ghost predicate NotUpserted(run: Run, id: PointId, i: nat, j: nat)
    requires i <= j <= |run.events|
  {
    forall l :: i <= l < j && run.events[l].Upsert? ==> id !in PointsMap(run.events[l].points)
  }

  lemma AttemptKeepsOthers(a: System, e: Event, b: System, n: PeerId, s: ShardId, id: PointId)
    requires Step(a, e, b) && e.Upsert? && CanonicalBatch(e.points) && a.cfg.Fits(a.view)
    requires n in a.cfg.topology && s in a.cfg.topology[n] && Canonical(id)
    requires !(id in PointsMap(e.points) && a.cfg.RingOf(n).At(id) == s)
    ensures FindById(b.view[n][s], id) == FindById(a.view[n][s], id)
  {
    CanonicalVersions(e.points);
    var versions, k := if n == e.self then PointsMap(e.points) else Numeric(PointsMap(e.points)), IntoString(id);
    if n != e.self {
      TouchedByOthers(a.cfg, e.self, e.points, a.view, b.view, n);
    }
    assert OldOrVersion(a.cfg.RingOf(n), versions, s, k, Get(a.view[n][s], k), Get(b.view[n][s], k));
    forall other | other in versions && Lands(a.cfg.RingOf(n), other, s, k)
      ensures false
    {
      KeysAreInjective(other, id);
    }
  }

  /** What node `n` finds for the id in its shard `s`. */
  ghost predicate Finds(state: System, n: PeerId, s: ShardId, id: PointId, version: Option<Point>) {
    && n in state.cfg.topology && s in state.cfg.topology[n] && n in state.view && s in state.view[n]
    && FindById(state.view[n][s], id) == version
  }

  lemma StepKeepsVersion(a: System, e: Event, b: System, n: PeerId, s: ShardId, id: PointId, version: Option<Point>)
    requires RoutedView(a.cfg, a.view) && Step(a, e, b) && CanonicalEvent(e) && Canonical(id)
    requires e.Upsert? ==> id !in PointsMap(e.points)
    requires Finds(a, n, s, id, version)
    ensures Finds(b, n, s, id, version)
  {
    if e.Upsert? {
      AttemptKeepsOthers(a, e, b, n, s, id);
    }
  }

  /** A version stays found as long as no batch has its id. */
  lemma {:induction false} VersionLasts(run: Run, i: nat, j: nat, n: PeerId, s: ShardId, id: PointId,
                                        version: Option<Point>)
    requires run.Valid() && run.Canonical() && i <= j < |run.states| && Canonical(id) && NotUpserted(run, id, i, j)
    requires Finds(run.states[i], n, s, id, version)
    ensures Finds(run.states[j], n, s, id, version)
  {
    if i < j {
      VersionLasts(run, i, j - 1, n, s, id, version);
      RoutedStep(run, j - 1);
      StepKeepsVersion(run.states[j - 1], run.events[j - 1], run.states[j], n, s, id, version);
    }
  }

  /** A node keeps its shards, and with them its ring. */
  lemma {:induction false} RingLasts(run: Run, i: nat, j: nat, n: PeerId)
    requires run.Valid() && i <= j < |run.states| && n in run.states[i].cfg.topology
    ensures n in run.states[j].cfg.topology && run.states[j].cfg.RingOf(n) == run.states[i].cfg.RingOf(n)
  {
    if i < j {
      RingLasts(run, i, j - 1, n);
      RunStep(run, j - 1);
    }
  }

  /** Every node of the quorum keeps the version it acknowledged until a batch has the id again. */
  lemma AcknowledgedVersionLasts(run: Run, i: nat, j: nat, n: PeerId, id: PointId)
    requires run.Valid() && run.Canonical() && i < j < |run.states|
    requires Acknowledges(run.states[i], run.events[i], n, id)
    requires run.events[i].ok && id in Numeric(PointsMap(run.events[i].points)) && NotUpserted(run, id, i + 1, j)
    ensures var s := run.states[i].cfg.RingOf(n).At(id);
            Finds(run.states[j], n, s, id, Some(PointsMap(run.events[i].points)[id]))
    ensures run.states[j].cfg.RingOf(n) == run.states[i].cfg.RingOf(n)
  {
    QuorumKnows(run, i, n, id);
    RoutingAlways(run, i + 1);
    RingLasts(run, i, i + 1, n);
    RingLasts(run, i, j, n);
    VersionLasts(run, i + 1, j, n, run.states[i].cfg.RingOf(n).At(id), id, Some(PointsMap(run.events[i].points)[id]));
  }

  /** Where a node is asked, in the order a listing asks the replicas of a shard. */
  lemma AskedAt(cfg: Config, m: PeerId, n: PeerId, s: ShardId) returns (l: nat)
    requires SoundTopology(cfg.topology) && m in cfg.topology && s in cfg.topology[m]
    requires n == m || n in cfg.topology[m][s]
    ensures l < |Sources(cfg, m, s, false)| && Sources(cfg, m, s, false)[l] == n && (n == m ==> l == 0)
  {
    if n == m {
      l := 0;
    } else {
      var i :| 0 <= i < |cfg.topology[m][s]| && cfg.topology[m][s][i] == n;
      l := i + 1;
    }
  }

  /** A version found at a node that is asked is listed exactly if no replica asked before has another. */
  lemma AskedAndFoundIsListed(state: System, m: PeerId, n: PeerId, s: ShardId, p: Point, listing: seq<Point>)
    returns (l: nat)
    requires RoutedView(state.cfg, state.view) && SoundTopology(state.cfg.topology) && UniformShards(state.cfg)
    requires ListStep(state.cfg, m, None, false, state.view, listing)
    requires Finds(state, n, s, p.id, Some(p)) && p.id.Id? && s == state.cfg.RingOf(n).At(p.id)
    requires s in state.cfg.topology[m] && (n == m || n in state.cfg.topology[m][s])
    ensures var sources := Sources(state.cfg, m, s, false);
            && l < |sources| && sources[l] == n && (n == m ==> l == 0)
            && var earlier := FirstOffer(state.view, m, sources[..l], s, p.id);
               p in listing <==> earlier.None? || earlier == Some(p)
  {
    assert state.cfg.RingOf(m) == state.cfg.RingOf(n);
    l := AskedAt(state.cfg, m, n, s);
    FirstOfferUpTo(state.view, m, Sources(state.cfg, m, s, false), l, s, p.id);
    ListingByShard(state.cfg, m, state.view, listing, p);
  }

  /**
   Which version that is, when the nodes have the same shards and no batch has had the id since: the acknowledged
   one, exactly if none of the replicas asked before `n` has another. A node of the quorum shows it always; a
   node with an older copy of its own shows that one (`OwnVersionIsListed`).
   */
  lemma AcknowledgedVersionIsListed(run: Run, i: nat, j: nat, m: PeerId, n: PeerId, id: PointId, listing: seq<Point>)
    returns (l: nat)
    requires run.Valid() && run.Canonical() && i < j < |run.states|
    requires Acknowledges(run.states[i], run.events[i], n, id)
    requires run.events[i].ok && id in Numeric(PointsMap(run.events[i].points)) && m in run.states[j].cfg.topology
    requires UniformShards(run.states[j].cfg) && NotUpserted(run, id, i + 1, j)
    requires ListStep(run.states[j].cfg, m, None, false, run.states[j].view, listing)
    requires var remotes, s := run.states[j].cfg.topology[m], run.states[i].cfg.RingOf(n).At(id);
             s in remotes && (n == m || n in remotes[s])
    ensures n == m ==> PointsMap(run.events[i].points)[id] in listing
    ensures var b, p, s := run.states[j], PointsMap(run.events[i].points)[id], run.states[i].cfg.RingOf(n).At(id);
            var sources := Sources(b.cfg, m, s, false);
            && l < |sources| && sources[l] == n
            && var earlier := FirstOffer(b.view, m, sources[..l], s, id);
               p in listing <==> earlier.None? || earlier == Some(p)
  {
    PointsMapIds(run.events[i].points);
    AcknowledgedVersionLasts(run, i, j, n, id);
    RoutingAlways(run, j);
    l := AskedAndFoundIsListed(run.states[j], m, n, run.states[i].cfg.RingOf(n).At(id),
                               PointsMap(run.events[i].points)[id], listing);
  }

  // ---------- text ids ----------

  lemma StepKeepsTextHome(a: System, e: Event, b: System, n: PeerId, s: ShardId, k: string)
    requires Step(a, e, b) && a.cfg.Fits(a.view) && n in b.view && s in b.view[n] && k in b.view[n][s]
             && b.view[n][s][k].id.Uuid?
    ensures (e.Upsert? && e.self == n && b.view[n][s][k] in e.points)
            || (e.Start? && e.node == n && e.stores == b.view[n])
            || (n in a.view && s in a.view[n] && k in a.view[n][s] && a.view[n][s][k] == b.view[n][s][k])
  {
    if e.Upsert? {
      PointsMapIds(e.points);
      var versions := if n == e.self then PointsMap(e.points) else Numeric(PointsMap(e.points));
      if n != e.self {
        TouchedByOthers(a.cfg, e.self, e.points, a.view, b.view, n);
      }
      assert OldOrVersion(a.cfg.RingOf(n), versions, s, k, Get(a.view[n][s], k), Get(b.view[n][s], k));
    }
  }

  /**
   A point with a text id is stored only on nodes that ran an upsert with it, or had it when they started: no
   remote ever receives one, though remotes acknowledge upserts that contain it.
   */
  lemma {:induction false} TextIdsStayHome(run: Run, i: nat, n: PeerId, s: ShardId, k: string) returns (j: nat)
    requires run.Valid() && i < |run.states|
    requires n in run.states[i].view && s in run.states[i].view[n] && k in run.states[i].view[n][s]
    requires run.states[i].view[n][s][k].id.Uuid?
    ensures j < i
    ensures var e, p := run.events[j], run.states[i].view[n][s][k];
            || (e.Upsert? && e.self == n && p in e.points)
            || (e.Start? && e.node == n && s in e.stores && Get(e.stores[s], k) == Some(p))
  {
    var a, e, b := run.states[i - 1], run.events[i - 1], run.states[i];
    assert Step(a, e, b);
    RoutingAlways(run, i - 1);
    StepKeepsTextHome(a, e, b, n, s, k);
    if (e.Upsert? && e.self == n && b.view[n][s][k] in e.points)
       || (e.Start? && e.node == n && e.stores == b.view[n]) {
      j := i - 1;
    } else {
      j := TextIdsStayHome(run, i - 1, n, s, k);
    }
  }

  // ---------- canonical ids only ----------

  ghost predicate CanonicalView(view: View) {
    forall n :: n in view ==> AllCanonical(view[n])
  }

  lemma StepKeepsCanonical(a: System, e: Event, b: System)
    requires Step(a, e, b) && a.cfg.Fits(a.view) && CanonicalView(a.view) && CanonicalEvent(e)
    ensures CanonicalView(b.view)
  {
    if e.Upsert? {
      CanonicalVersions(e.points);
      forall n | n in b.view
        ensures AllCanonical(b.view[n])
      {
        if n == e.self {
          TouchedStaysCanonical(a.cfg.RingOf(n), PointsMap(e.points), a.view[n], b.view[n]);
        } else {
          TouchedByOthers(a.cfg, e.self, e.points, a.view, b.view, n);
          TouchedStaysCanonical(a.cfg.RingOf(n), Numeric(PointsMap(e.points)), a.view[n], b.view[n]);
        }
      }
    }
  }

  /** If only canonical ids ever come in, only canonical ids are ever stored, failed upserts and remotes included. */
  lemma {:induction false} CanonicalAlways(run: Run, i: nat)
    requires run.Valid() && run.Canonical() && i < |run.states|
    ensures CanonicalView(run.states[i].view)
  {
    if i > 0 {
      CanonicalAlways(run, i - 1);
      RoutingAlways(run, i - 1);
      assert Step(run.states[i - 1], run.events[i - 1], run.states[i]);
      StepKeepsCanonical(run.states[i - 1], run.events[i - 1], run.states[i]);
    }
  }

  /**
   At every successful upsert of such a run, what the node reads by ids afterwards is its map updated by the
   batch.
   */
  lemma ReadYourWritesAlways(run: Run, i: nat, ids: seq<PointId>)
    requires run.Valid() && run.Canonical() && i < |run.events| && run.events[i].Upsert? && run.events[i].ok
    requires run.events[i].self in run.states[i].cfg.topology && forall id :: id in ids ==> Canonical(id)
    ensures var a, b, e := run.states[i], run.states[i + 1], run.events[i];
            var ring := a.cfg.RingOf(e.self);
            && e.self in a.view && e.self in b.view
            && Found(ring, b.view[e.self], ids) == LookUp(IdMap(ring, a.view[e.self]) + PointsMap(e.points), ids)
  {
    var a, e := run.states[i], run.events[i];
    assert Step(a, e, run.states[i + 1]);
    RoutingAlways(run, i);
    CanonicalAlways(run, i);
    assert Routed(a.cfg.RingOf(e.self), a.view[e.self]);
    ReadYourWrites(a.cfg.RingOf(e.self), a.view[e.self], e.points, ids);
  }

  /** And its counts go up by the number of distinct ids of the batch that it did not have. */
  lemma CountsAlways(run: Run, i: nat)
    requires run.Valid() && run.Canonical() && i < |run.events| && run.events[i].Upsert? && run.events[i].ok
    requires run.events[i].self in run.states[i].cfg.topology
    ensures var a, b, e := run.states[i], run.states[i + 1], run.events[i];
            && e.self in a.view && e.self in b.view
            && var had := IdMap(a.cfg.RingOf(e.self), a.view[e.self]).Keys;
               Total(Counts(b.view[e.self])) == Total(Counts(a.view[e.self])) + |PointsMap(e.points).Keys - had|
  {
    var a, e := run.states[i], run.events[i];
    assert Step(a, e, run.states[i + 1]);
    RoutingAlways(run, i);
    CanonicalAlways(run, i);
    assert Routed(a.cfg.RingOf(e.self), a.view[e.self]);
    CanonicalMeansNoCollision(a.cfg.RingOf(e.self), a.view[e.self], e.points);
    CountConservation(a.cfg.RingOf(e.self), a.view[e.self], e.points);
  }

  // ---------- agreement ----------

  /** An upsert of canonical ids that every other node acknowledged in full. */
  ghost predicate FullUpsert(a: System, e: Event) {
    && e.Upsert? && e.ok && CanonicalBatch(e.points) && e.self in a.cfg.topology
    && forall n :: n in a.cfg.topology && n != e.self ==> FullyAcked(a.cfg, e.self, e.points, e.acked, n)
  }

  lemma FullUpsertKeepsAgreement(a: System, e: Event, b: System)
    requires Step(a, e, b) && FullUpsert(a, e)
    requires UniformShards(a.cfg) && Agreed(a.cfg, a.view)
    ensures b.cfg == a.cfg && Agreed(b.cfg, b.view)
  {
    AgreementIsKept(a.cfg, e.self, e.points, a.view, b.view, e.acked);
  }

  /** From state `i` to state `j` there is nothing but full upserts. */
  ghost predicate OnlyFullUpserts(run: Run, i: nat, j: nat)
    requires run.Valid() && i <= j < |run.states|
  {
    i == j || (OnlyFullUpserts(run, i, j - 1) && FullUpsert(run.states[j - 1], run.events[j - 1]))
  }

  /** If, from `i` on, nothing happens but such upserts between nodes with the same shards, agreement lasts. */
  lemma {:induction false} AgreementLasts(run: Run, i: nat, j: nat)
    requires run.Valid() && i <= j < |run.states|
    requires UniformShards(run.states[i].cfg) && Agreed(run.states[i].cfg, run.states[i].view)
    requires OnlyFullUpserts(run, i, j)
    ensures run.states[j].cfg == run.states[i].cfg
    ensures Agreed(run.states[j].cfg, run.states[j].view)
  {
    if i < j {
      AgreementLasts(run, i, j - 1);
      assert Step(run.states[j - 1], run.events[j - 1], run.states[j]);
      FullUpsertKeepsAgreement(run.states[j - 1], run.events[j - 1], run.states[j]);
    }
  }

  /** Nodes that have nothing stored agree. */
  lemma EmptyAgrees(cfg: Config, view: View)
    requires cfg.Fits(view) && forall n, s :: n in view && s in view[n] ==> view[n][s] == map[]
    ensures Agreed(cfg, view)
  {
  }

  /** From empty stores, full upserts leave every shard with the same numeric-id contents on every node. */
  lemma ReplicasAgree(run: Run, i: nat, j: nat)
    requires run.Valid() && i <= j < |run.states|
    requires UniformShards(run.states[i].cfg)
    requires forall n, s :: n in run.states[i].view && s in run.states[i].view[n] ==> run.states[i].view[n][s] == map[]
    requires OnlyFullUpserts(run, i, j)
    ensures Agreed(run.states[j].cfg, run.states[j].view)
  {
    RoutingAlways(run, i);
    EmptyAgrees(run.states[i].cfg, run.states[i].view);
    AgreementLasts(run, i, j);
  }

  /** From state `i` to state `j` there is nothing but attempts at this batch, through any nodes, ending in any way. */
  ghost predicate OnlyAttempts(run: Run, points: seq<Point>, i: nat, j: nat)
    requires run.Valid() && i <= j < |run.states|
  {
    i == j || (OnlyAttempts(run, points, i, j - 1) && run.events[j - 1].Upsert? && run.events[j - 1].points == points)
  }

  /** Attempts change what is found only for the ids of the batch, in the shards they are routed to. */
  lemma {:induction false} AttemptsKeepOthers(run: Run, points: seq<Point>, i: nat, j: nat, n: PeerId, s: ShardId,
                                              id: PointId)
    requires run.Valid() && i <= j < |run.states| && OnlyAttempts(run, points, i, j) && CanonicalBatch(points)
    requires n in run.states[i].cfg.topology && s in run.states[i].cfg.topology[n] && Canonical(id)
    requires !(id in PointsMap(points) && run.states[i].cfg.RingOf(n).At(id) == s)
    ensures run.states[j].cfg == run.states[i].cfg && run.states[j].cfg.Fits(run.states[j].view)
    ensures run.states[i].cfg.Fits(run.states[i].view)
    ensures FindById(run.states[j].view[n][s], id) == FindById(run.states[i].view[n][s], id)
  {
    RoutingAlways(run, i);
    RoutingAlways(run, j);
    if i < j {
      AttemptsKeepOthers(run, points, i, j - 1, n, s, id);
      assert Step(run.states[j - 1], run.events[j - 1], run.states[j]);
      AttemptKeepsOthers(run.states[j - 1], run.events[j - 1], run.states[j], n, s, id);
    }
  }

  lemma {:induction false} AttemptsKeepConfig(run: Run, points: seq<Point>, i: nat, j: nat)
    requires run.Valid() && i <= j < |run.states| && OnlyAttempts(run, points, i, j)
    ensures run.states[j].cfg == run.states[i].cfg
  {
    if i < j {
      AttemptsKeepConfig(run, points, i, j - 1);
      assert Step(run.states[j - 1], run.events[j - 1], run.states[j]);
    }
  }

  /**
   Agreement is restored: nodes that agreed before any number of attempts at a batch, through any nodes and
   ending in any way, agree again after one attempt that every other node acknowledges in full.
   */
  lemma RetryRestoresAgreement(run: Run, points: seq<Point>, i: nat, j: nat)
    requires run.Valid() && i <= j < |run.events|
    requires UniformShards(run.states[i].cfg) && Agreed(run.states[i].cfg, run.states[i].view)
    requires OnlyAttempts(run, points, i, j) && FullUpsert(run.states[j], run.events[j])
             && run.events[j].points == points
    ensures Agreed(run.states[j + 1].cfg, run.states[j + 1].view)
  {
    var start, a, e, b := run.states[i], run.states[j], run.events[j], run.states[j + 1];
    assert Step(a, e, b);
    AttemptsKeepConfig(run, points, i, j);
    RoutingAlways(run, j + 1);
    forall m, n, s, id: PointId | m in b.cfg.topology && n in b.cfg.topology && s in b.cfg.topology[m]
                                  && s in b.cfg.topology[n] && id.Id?
      ensures FindById(b.view[m][s], id) == FindById(b.view[n][s], id)
    {
      FoundAfterRetry(run, points, i, j, m, s, id);
      FoundAfterRetry(run, points, i, j, n, s, id);
      assert FindById(start.view[m][s], id) == FindById(start.view[n][s], id);
    }
  }

  /** After the full attempt a node finds the batch's version, or what it found before the first attempt. */
  lemma FoundAfterRetry(run: Run, points: seq<Point>, i: nat, j: nat, n: PeerId, s: ShardId, id: PointId)
    requires run.Valid() && i <= j < |run.events| && id.Id?
    requires UniformShards(run.states[i].cfg) && OnlyAttempts(run, points, i, j)
    requires FullUpsert(run.states[j], run.events[j]) && run.events[j].points == points
    requires n in run.states[i].cfg.topology && s in run.states[i].cfg.topology[n]
    ensures run.states[i].cfg.Fits(run.states[i].view) && run.states[j + 1].cfg == run.states[i].cfg
    ensures run.states[j + 1].cfg.Fits(run.states[j + 1].view)
    ensures FindById(run.states[j + 1].view[n][s], id) ==
            if id in PointsMap(points) && run.states[i].cfg.RingOf(n).At(id) == s then Some(PointsMap(points)[id])
            else FindById(run.states[i].view[n][s], id)
  {
    var a, e, b := run.states[j], run.events[j], run.states[j + 1];
    assert Step(a, e, b);
    RoutingAlways(run, i);
    RoutingAlways(run, j + 1);
    AttemptsKeepConfig(run, points, i, j);
    assert a.cfg.RingOf(n) == a.cfg.RingOf(e.self);
    FindAfterAckedUpsert(a.cfg, e.self, e.points, a.view, b.view, e.acked, n, s, id);
    if !(id in PointsMap(points) && a.cfg.RingOf(n).At(id) == s) {
      AttemptsKeepOthers(run, points, i, j, n, s, id);
    }
  }
}
