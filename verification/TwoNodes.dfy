/** Two nodes with the same shards, one a remote of the other: what acknowledgements and listings can leave out. */
module TwoNodes {
  import opened Types
  import opened IdText
  import opened Ring
  import opened Batches
  import opened Views
  import opened Guarantees
  import opened ListingLaws
  import opened Runs
  import opened RunBuilding

  /** Both nodes have shards 0 and 1, as a created collection has; node 1 lists the given remotes. */
  function Twins(remotes: seq<PeerId>): Topology {
    map[1 := map[0 := remotes, 1 := remotes], 2 := map[0 := [], 1 := []]]
  }

  lemma TwinsFit(place: Placement, remotes: seq<PeerId>, view: View)
    requires view.Keys == {1, 2} && view[1].Keys == {0, 1} && view[2].Keys == {0, 1}
    ensures var cfg := Config(place, Twins(remotes));
            && cfg.Fits(view) && cfg.topology.Keys == {1, 2} && UniformShards(cfg)
            && cfg.RingOf(1) == cfg.RingOf(2) == HashRing({0, 1}, place)
  {
    assert Twins(remotes)[1].Keys == {0, 1} && Twins(remotes)[2].Keys == {0, 1};
  }

  lemma TwinsRewired(place: Placement, view: View)
    ensures Step(System(Config(place, Twins([])), view), Rewire, System(Config(place, Twins([2])), view))
  {
    assert Twins([])[1].Keys == {0, 1} && Twins([2])[1].Keys == {0, 1};
  }

  function NothingStored(): View {
    map[1 := EmptyStores({0, 1}), 2 := EmptyStores({0, 1})]
  }

  lemma StartedTwins(place: Placement) returns (run: Run)
    ensures run.Valid() && run.Canonical() && LastOf(run) == System(Config(place, Twins([])), NothingStored())
  {
    var nothing := System(Config(place, map[]), map[]);
    var first := System(Config(place, map[1 := map[0 := [], 1 := []]]), map[1 := EmptyStores({0, 1})]);
    run := Run([nothing], []);
    assert first.cfg.topology[1].Keys == {0, 1};
    run := Extended(run, Start(1, EmptyStores({0, 1})), first);
    assert Twins([])[1].Keys == {0, 1} && Twins([])[2].Keys == {0, 1};
    run := Extended(run, Start(2, EmptyStores({0, 1})), System(Config(place, Twins([])), NothingStored()));
  }

  lemma LinkedTwins(place: Placement) returns (run: Run)
    ensures run.Valid() && run.Canonical() && LastOf(run) == System(Config(place, Twins([2])), NothingStored())
  {
    run := StartedTwins(place);
    TwinsRewired(place, NothingStored());
    run := Extended(run, Rewire, System(Config(place, Twins([2])), NothingStored()));
  }

  // ---------- a text is acknowledged by a node that never gets it ----------

  /** One text more, put at node 1 and acknowledged by node 2, to which nothing is sent. */
  function TextPut(place: Placement, p: Point): Event {
    Upsert(1, [p], true, map[place({0, 1}, p.id) := {2}])
  }

  /** Nothing but one point, at node 1. */
  function OnePut(s: ShardId, first: Point): View
    requires s in {0, 1}
  {
    map[1 := Put(EmptyStores({0, 1}), s, first), 2 := EmptyStores({0, 1})]
  }

  lemma OneAdded(s: ShardId, p: Point)
    requires s in {0, 1}
    ensures s in NothingStored()[1] && NothingStored()[1 := Put(NothingStored()[1], s, p)] == OnePut(s, p)
  {
  }

  lemma OneText(ring: HashRing, stores: Stores, p: Point)
    requires p.id.Uuid? && ring.At(p.id) in stores
    ensures UpsertEach(ring, stores, [p]) == Put(stores, ring.At(p.id), p)
    ensures Touched(ring, PointsMap([p]), stores, Put(stores, ring.At(p.id), p))
    ensures Numeric(PointsMap([p])) == map[] && ShardsOf(ring, [p]) == {ring.At(p.id)}
  {
    assert [p][..|[p]| - 1] == [] && UpsertEach(ring, stores, []) == stores;
    UpsertEachTouches(ring, stores, [p]);
    assert PointsMap([p]) == map[p.id := p];
  }

  /** A text stored at one node alone is a successful upsert, whoever of its remotes acknowledged it. */
  lemma TextAlone(cfg: Config, self: PeerId, p: Point, view: View, after: View, remotes: set<PeerId>)
    requires cfg.Fits(view) && self in cfg.topology && p.id.Uuid?
    requires var s := cfg.RingOf(self).At(p.id);
             && s in cfg.topology[self] && after == view[self := Put(view[self], s, p)]
             && (forall n :: n in remotes ==> n in cfg.topology[self][s] && n in cfg.topology)
             && 1 + |remotes| >= Enough(cfg, self, s)
    ensures UpsertStep(cfg, self, [p], false, view, after, true, map[cfg.RingOf(self).At(p.id) := remotes])
  {
    OneText(cfg.RingOf(self), view[self], p);
    forall n | n in cfg.topology && n != self
      ensures Touched(cfg.RingOf(n), Numeric(PointsMap([p])), view[n], after[n])
    {
      TouchedSelf(cfg.RingOf(n), Numeric(PointsMap([p])), view[n]);
    }
    assert OthersTouched(cfg, self, [p], false, view, after);
  }

  lemma TextPutIsStep(place: Placement, p: Point)
    requires p.id.Uuid?
    ensures place({0, 1}, p.id) in {0, 1}
    ensures Step(System(Config(place, Twins([2])), NothingStored()), TextPut(place, p),
                 System(Config(place, Twins([2])), OnePut(place({0, 1}, p.id), p)))
  {
    var cfg, view := Config(place, Twins([2])), NothingStored();
    TwinsFit(place, [2], view);
    var s := cfg.RingOf(1).At(p.id);
    assert s in {0, 1} && cfg.topology[1][s] == [2];
    OneAdded(s, p);
    TextAlone(cfg, 1, p, view, OnePut(s, p), {2});
  }

  /** A shard with remotes has no quorum for a point that only one node has. */
  lemma OneIsNoQuorum(cfg: Config, self: PeerId, view: View, p: Point)
    requires self in cfg.topology && cfg.Fits(view)
    requires forall n, s :: n in view && n != self && s in view[n] ==> view[n][s] == map[]
    requires cfg.RingOf(self).At(p.id) in cfg.topology[self] && cfg.topology[self][cfg.RingOf(self).At(p.id)] != []
    ensures !AtQuorum(cfg, self, view, p)
  {
    forall n | n != self
      ensures !HeldBy(cfg, view, p, {n})
    {
      assert n in {n};
    }
    if AtQuorum(cfg, self, view, p) {
      QuorumHasAnother(cfg, self, view, p);
      assert false;
    }
  }

  lemma OnlyNodeOneHasIt(place: Placement, p: Point)
    requires place({0, 1}, p.id) in {0, 1}
    ensures var cfg, view := Config(place, Twins([2])), OnePut(place({0, 1}, p.id), p);
            && cfg.Fits(view) && cfg.topology.Keys == {1, 2} && view[2] == EmptyStores({0, 1})
            && cfg.topology[1].Keys == {0, 1} && cfg.RingOf(1).At(p.id) in {0, 1}
            && cfg.topology[1][cfg.RingOf(1).At(p.id)] == [2]
  {
    TwinsFit(place, [2], OnePut(place({0, 1}, p.id), p));
    assert Twins([2])[1].Keys == {0, 1};
  }

  lemma TextRun(place: Placement, p: Point) returns (run: Run, a: System, b: System)
    requires p.id.Uuid? && Canonical(p.id)
    ensures run.Valid() && run.Canonical() && EndsWith(run, a, TextPut(place, p), b)
    ensures place({0, 1}, p.id) in {0, 1} && b == System(a.cfg, OnePut(place({0, 1}, p.id), p))
    ensures a.cfg == Config(place, Twins([2]))
  {
    run := LinkedTwins(place);
    TextPutIsStep(place, p);
    a := LastOf(run);
    b := System(a.cfg, OnePut(place({0, 1}, p.id), p));
    run := Extended(run, TextPut(place, p), b);
  }

  /**
   A quorum is reported and not there: in this run node 1 upserts one text with success, node 2 having
   acknowledged it, and only node 1 has the point. Such a call succeeds whenever it gets through
   (`TextsAreAcknowledgedUnread`).
   */
  lemma TextIsNotReplicated(place: Placement, p: Point) returns (run: Run, a: System, e: Event, b: System)
    requires p.id.Uuid? && Canonical(p.id)
    ensures run.Valid() && run.Canonical() && EndsWith(run, a, e, b)
    ensures a.cfg == b.cfg == Config(place, Twins([2])) && e == TextPut(place, p)
    ensures 1 in b.cfg.topology && !AtQuorum(b.cfg, 1, b.view, p)
  {
    run, a, b := TextRun(place, p);
    e := TextPut(place, p);
    OnlyNodeOneHasIt(place, p);
    OneIsNoQuorum(b.cfg, 1, b.view, p);
  }

  // ---------- an older copy hides an acknowledged version ----------

  function BothPut(s: ShardId, first: Point, second: Point): View
    requires s in {0, 1}
  {
    map[1 := Put(EmptyStores({0, 1}), s, first), 2 := Put(EmptyStores({0, 1}), s, second)]
  }

  lemma SecondAdded(s: ShardId, first: Point, second: Point)
    requires s in {0, 1}
    ensures s in OnePut(s, first)[2]
    ensures OnePut(s, first)[2 := Put(OnePut(s, first)[2], s, second)] == BothPut(s, first, second)
  {
  }

  lemma FirstPut(place: Placement, s: ShardId, first: Point) returns (run: Run)
    requires first.id.Id? && s == place({0, 1}, first.id) && s in {0, 1}
    ensures run.Valid() && run.Canonical()
    ensures LastOf(run) == System(Config(place, Twins([])), OnePut(s, first))
  {
    run := StartedTwins(place);
    TwinsFit(place, [], NothingStored());
    var put;
    run, put := ExtendedByPut(run, 1, first);
    OneAdded(s, first);
  }

  lemma SecondPut(place: Placement, s: ShardId, first: Point, second: Point) returns (run: Run, put: Event)
    requires first.id == second.id && first.id.Id? && s == place({0, 1}, first.id) && s in {0, 1}
    ensures run.Valid() && run.Canonical() && put.Upsert? && put.self == 2 && put.points == [second] && put.ok
    ensures LastOf(run) == System(Config(place, Twins([])), BothPut(s, first, second))
    ensures run.events != [] && run.events[|run.events| - 1] == put
    ensures 2 in run.states[|run.events| - 1].cfg.topology
  {
    run := FirstPut(place, s, first);
    TwinsFit(place, [], OnePut(s, first));
    run, put := ExtendedByPut(run, 2, second);
    SecondAdded(s, first, second);
  }

  /** Node 1 is given one version of an id, then node 2 another, and then node 2 becomes a remote of node 1. */
  lemma ThenLinked(place: Placement, s: ShardId, first: Point, second: Point) returns (run: Run, j: nat)
    requires first.id == second.id && first.id.Id? && s == place({0, 1}, first.id) && s in {0, 1}
    ensures run.Valid() && run.Canonical()
    ensures LastOf(run) == System(Config(place, Twins([2])), BothPut(s, first, second))
    ensures |run.events| == j + 2 && run.events[j + 1] == Rewire && 2 in run.states[j].cfg.topology
    ensures var put := run.events[j];
            put.Upsert? && put.self == 2 && put.points == [second] && put.ok
  {
    var put;
    run, put := SecondPut(place, s, first, second);
    j := |run.events| - 1;
    TwinsRewired(place, BothPut(s, first, second));
    run := Extended(run, Rewire, System(Config(place, Twins([2])), BothPut(s, first, second)));
  }

  lemma FirstIsHeld(place: Placement, s: ShardId, first: Point, second: Point)
    requires s in {0, 1} && s == place({0, 1}, first.id)
    ensures var cfg, view := Config(place, Twins([2])), BothPut(s, first, second);
            && 1 in cfg.topology && UniformShards(cfg) && 1 in view && Holds(cfg.RingOf(1), view[1], first)
            && AllReachable(cfg, 1, None, false, view)
  {
    TwinsFit(place, [2], BothPut(s, first, second));
  }

  lemma SecondIsAcknowledged(run: Run, j: nat, second: Point)
    requires |run.states| == |run.events| + 1 && |run.events| == j + 2 && run.events[j + 1] == Rewire
    requires var put := run.events[j];
             put.Upsert? && put.self == 2 && put.points == [second] && put.ok && 2 in run.states[j].cfg.topology
    ensures Acknowledges(run.states[j], run.events[j], 2, second.id)
    ensures Get(PointsMap(run.events[j].points), second.id) == Some(second)
    ensures NotUpserted(run, second.id, j + 1, |run.events|)
  {
    assert PointsMap([second]) == map[second.id := second];
  }

  /**
   A listing need not show the version that was acknowledged last: after this run node 2 has acknowledged the
   second one, no batch had the id since, and node 1, which asks node 2 when it lists, shows its own first one.
   */
  lemma OlderVersionIsListed(place: Placement, n: U64)
    returns (run: Run, j: nat, first: Point, second: Point, listing: seq<Point>)
    ensures run.Valid() && run.Canonical() && first.id == second.id == Id(n) && j < |run.events|
    ensures var e := run.events[j];
            && Acknowledges(run.states[j], e, 2, Id(n)) && e.ok && Get(PointsMap(e.points), Id(n)) == Some(second)
            && NotUpserted(run, Id(n), j + 1, |run.events|)
    ensures var b := LastOf(run);
            && b.cfg == Config(place, Twins([2])) && ListStep(b.cfg, 1, None, false, b.view, listing)
            && first in listing && second !in listing
  {
    first, second := Point(Id(n), "first"), Point(Id(n), "second");
    var s := place({0, 1}, Id(n));
    assert s in {0, 1};
    run, j := ThenLinked(place, s, first, second);
    RoutingAlways(run, |run.states| - 1);
    SecondIsAcknowledged(run, j, second);
    FirstIsHeld(place, s, first, second);
    listing := OwnVersionHides(LastOf(run).cfg, 1, LastOf(run).view, first, second);
  }
}
