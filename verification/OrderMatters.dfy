/** A run of the cluster after which one node's listings depend on the order it visits its shards in. */
module OrderMatters {
  import opened Types
  import opened Ring
  import opened Views
  import opened ListingLaws
  import opened Runs
  import opened RunBuilding

  lemma OneSource(cfg: Config, view: View, m: PeerId, n: PeerId, s: ShardId, id: PointId)
    requires m in cfg.topology && s in cfg.topology[m] && cfg.topology[m][s] == [n]
    ensures Listed(cfg, view, m, s, false, id) ==
            if Offer(view, m, m, s, id).Some? then Offer(view, m, m, s, id) else Offer(view, m, n, s, id)
  {
    assert Sources(cfg, m, s, false) == [m, n] && [m, n][..1] == [m] && [m][..0] == [];
    assert FirstOffer(view, m, [m], s, id) == Offer(view, m, m, s, id);
  }

  /** The two nodes of the example: node 1 has shards 0 and 1, node 2 only shard `t`. */
  function Apart(t: ShardId, remotes: seq<PeerId>): Topology {
    map[1 := map[0 := remotes, 1 := remotes], 2 := map[t := []]]
  }

  /** Both nodes started, with nothing stored. */
  function Started(place: Placement, t: ShardId): System {
    System(Config(place, Apart(t, [])), map[1 := EmptyStores({0, 1}), 2 := EmptyStores({t})])
  }

  lemma StartedApart(place: Placement, t: ShardId) returns (run: Run)
    ensures run.Valid() && run.Canonical() && LastOf(run) == Started(place, t)
  {
    var nothing := System(Config(place, map[]), map[]);
    var first := System(Config(place, map[1 := map[0 := [], 1 := []]]), map[1 := EmptyStores({0, 1})]);
    run := Run([nothing], []);
    assert first.cfg.topology[1].Keys == {0, 1};
    run := Extended(run, Start(1, EmptyStores({0, 1})), first);
    assert Apart(t, [])[1].Keys == {0, 1} && Apart(t, [])[2].Keys == {t};
    run := Extended(run, Start(2, EmptyStores({t})), Started(place, t));
  }

  /** Node 2 becomes a remote of node 1. */
  lemma ApartRewired(place: Placement, t: ShardId, view: View)
    ensures Step(System(Config(place, Apart(t, [])), view), Rewire, System(Config(place, Apart(t, [2])), view))
  {
    assert Apart(t, [])[1].Keys == {0, 1} && Apart(t, [2])[1].Keys == {0, 1};
  }

  /** What the two nodes store once each has been given its version. */
  function Versions1And2(s: ShardId, t: ShardId, local: Point, remote: Point): View
    requires s in {0, 1}
  {
    map[1 := Put(EmptyStores({0, 1}), s, local), 2 := Put(EmptyStores({t}), t, remote)]
  }

  lemma StartedFits(place: Placement, t: ShardId, view: View)
    requires view.Keys == {1, 2} && view[1].Keys == {0, 1} && view[2].Keys == {t}
    ensures var cfg := Config(place, Apart(t, []));
            && cfg.Fits(view) && cfg.topology.Keys == {1, 2}
            && cfg.RingOf(1) == HashRing({0, 1}, place) && cfg.RingOf(2) == HashRing({t}, place)
            && forall n, s :: n in cfg.topology && s in cfg.topology[n] ==> cfg.topology[n][s] == []
  {
    assert Apart(t, [])[1].Keys == {0, 1} && Apart(t, [])[2].Keys == {t};
  }

  lemma OnePut(place: Placement, s: ShardId, t: ShardId, local: Point) returns (run: Run)
    requires local.id.Id? && s == place({0, 1}, local.id) && s in {0, 1}
    ensures run.Valid() && run.Canonical()
    ensures LastOf(run) ==
            System(Config(place, Apart(t, [])), map[1 := Put(EmptyStores({0, 1}), s, local), 2 := EmptyStores({t})])
  {
    run := StartedApart(place, t);
    StartedFits(place, t, LastOf(run).view);
    var put;
    run, put := ExtendedByPut(run, 1, local);
  }

  lemma TwoPuts(place: Placement, s: ShardId, t: ShardId, local: Point, remote: Point) returns (run: Run)
    requires local.id == remote.id && local.id.Id?
    requires s == place({0, 1}, local.id) && t == place({t}, local.id) && s in {0, 1}
    ensures run.Valid() && run.Canonical()
    ensures LastOf(run) == System(Config(place, Apart(t, [])), Versions1And2(s, t, local, remote))
  {
    run := OnePut(place, s, t, local);
    StartedFits(place, t, LastOf(run).view);
    var put;
    run, put := ExtendedByPut(run, 2, remote);
  }

  /**
   Node 1 starts with two shards, node 2 with the one of them that the id does not go to at node 1; each is
   given its own version of the id, and then node 2 becomes a remote of node 1.
   */
  lemma TwoVersionsRun(place: Placement, n: U64, local: Point, remote: Point) returns (run: Run, s: ShardId, t: ShardId)
    requires local.id == remote.id == Id(n)
    ensures s in {0, 1} && t == 1 - s && run.Valid() && run.Canonical()
    ensures LastOf(run) == System(Config(place, Apart(t, [2])), Versions1And2(s, t, local, remote))
  {
    s := place({0, 1}, Id(n));
    t := 1 - s;
    assert place({t}, Id(n)) in {t};
    run := TwoPuts(place, s, t, local, remote);
    ApartRewired(place, t, Versions1And2(s, t, local, remote));
    run := Extended(run, Rewire, System(Config(place, Apart(t, [2])), Versions1And2(s, t, local, remote)));
  }

  /** Node 1 lists its own version for one shard and the remote's for the other. */
  lemma ListedApart(cfg: Config, s: ShardId, t: ShardId, local: Point, remote: Point)
    requires s in {0, 1} && t == 1 - s && local.id == remote.id && local.id.Id? && cfg.topology == Apart(t, [2])
    ensures Listed(cfg, Versions1And2(s, t, local, remote), 1, s, false, local.id) == Some(local)
    ensures Listed(cfg, Versions1And2(s, t, local, remote), 1, t, false, local.id) == Some(remote)
  {
    OneSource(cfg, Versions1And2(s, t, local, remote), 1, 2, s, local.id);
    OneSource(cfg, Versions1And2(s, t, local, remote), 1, 2, t, local.id);
  }

  /**
   The routing invariant alone does not make listings independent of the order: after this run, in which every
   point is routed rightly, node 1 visiting its shards in two orders gives two different listings.
   */
  lemma UnequalShardsTwoListings(place: Placement, n: U64)
    returns (run: Run, o: seq<ShardId>, q: seq<ShardId>, a: seq<Point>, b: seq<Point>)
    ensures run.Valid() && run.Canonical()
    ensures var last := LastOf(run);
            && RoutedView(last.cfg, last.view)
            && 1 in last.cfg.topology
            && OrderOf(o, Visited(last.cfg, 1, None)) && OrderOf(q, Visited(last.cfg, 1, None))
            && ListsIn(last.cfg, 1, o, false, last.view, a) && ListsIn(last.cfg, 1, q, false, last.view, b)
            && a != b
  {
    var local, remote, s, t := Point(Id(n), "local"), Point(Id(n), "remote"), 0, 1;
    run, s, t := TwoVersionsRun(place, n, local, remote);
    RoutingAlways(run, |run.states| - 1);
    var cfg, view := LastOf(run).cfg, LastOf(run).view;
    ListedApart(cfg, s, t, local, remote);
    o, q, a, b := TwoOrders(cfg, 1, None, false, view, s, t, Id(n));
  }
}
