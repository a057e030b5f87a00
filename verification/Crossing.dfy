/** Two upserts of one id that overlap, both acknowledged by all nodes, after which the nodes differ for good. */
module Crossing {
  import opened Types
  import opened IdText
  import opened Ring
  import opened Batches
  import opened Views
  import opened IdMaps
  import opened Guarantees
  import opened Overlap
  import opened OverlapAgreement

  function LastOf(run: OverlapRun): State
    requires run.states != []
  {
    run.states[|run.states| - 1]
  }

  /** The run with one more step. */
  lemma Extended(run: OverlapRun, e: Event, b: State) returns (longer: OverlapRun)
    requires run.Valid() && run.Canonical() && Step(LastOf(run), e, b) && CanonicalEvent(e)
    ensures longer.Valid() && longer.Canonical() && LastOf(longer) == b
  {
    longer := OverlapRun(run.states + [b], run.events + [e]);
    forall i: nat | i < |longer.events|
      ensures longer.StepsAt(i) && CanonicalEvent(longer.events[i])
    {
      if i < |run.events| {
        assert run.StepsAt(i);
        assert longer.states[i] == run.states[i] && longer.events[i] == run.events[i]
               && longer.states[i + 1] == run.states[i + 1];
      }
    }
  }

  /** Two nodes with one shard, each a remote of the other. */
  function Pair(place: Placement): Config {
    Config(place, map[1 := map[0 := [2]], 2 := map[0 := [1]]])
  }

  function Holding(place: Placement, x: Store, y: Store, ops: map<OpId, Op>): State {
    State(Pair(place), map[1 := map[0 := x], 2 := map[0 := y]], ops)
  }

  lemma PairShards(place: Placement)
    ensures var cfg := Pair(place);
            && cfg.topology.Keys == {1, 2} && cfg.topology[1].Keys == {0} && cfg.topology[2].Keys == {0}
            && cfg.RingOf(1) == cfg.RingOf(2) == HashRing({0}, place) && SoundTopology(cfg.topology)
            && UniformShards(cfg) && forall id :: HashRing({0}, place).At(id) == 0
  {
    forall id
      ensures HashRing({0}, place).At(id) == 0
    {
      assert HashRing({0}, place).At(id) in {0};
    }
  }

  /** Both nodes started, not yet linked. */
  function Unlinked(place: Placement): State {
    State(Config(place, map[1 := map[0 := []], 2 := map[0 := []]]), map[1 := map[0 := map[]], 2 := map[0 := map[]]],
          map[])
  }

  lemma BothStart(place: Placement) returns (run: OverlapRun)
    ensures run.Valid() && run.Canonical() && LastOf(run) == Unlinked(place)
  {
    var nothing := State(Config(place, map[]), map[], map[]);
    var first := State(Config(place, map[1 := map[0 := []]]), map[1 := map[0 := map[]]], map[]);
    run := OverlapRun([nothing], []);
    run := Extended(run, Start(1, map[0 := map[]]), first);
    run := Extended(run, Start(2, map[0 := map[]]), Unlinked(place));
  }

  lemma PairStarts(place: Placement) returns (run: OverlapRun)
    ensures run.Valid() && run.Canonical() && LastOf(run) == Holding(place, map[], map[], map[])
  {
    PairShards(place);
    run := BothStart(place);
    run := Extended(run, Rewire, Holding(place, map[], map[], map[]));
  }

  /** The upsert of one point through node `self`, with the other node to call. */
  function Putting(place: Placement, self: PeerId, p: Point, written: set<(PeerId, PointId)>, phase: Phase): Op {
    Op(self, [p], HashRing({0}, place), map[0 := [if self == 1 then 2 else 1]], written, phase)
  }

  lemma OnePoint(p: Point)
    requires p.id.Id?
    ensures PointsMap([p]) == map[p.id := p] && CanonicalBatch([p])
  {
  }

  lemma PairBegins(place: Placement, x: Store, y: Store, ops: map<OpId, Op>, op: OpId, self: PeerId, p: Point)
    requires op !in ops && self in {1, 2}
    ensures Step(Holding(place, x, y, ops), Begin(op, self, [p]),
                 Holding(place, x, y, ops[op := Putting(place, self, p, {}, Open)]))
  {
    PairShards(place);
  }

  lemma PairInserted(place: Placement, x: Store, y: Store, n: PeerId, p: Point)
    requires n == 1 || n == 2
    ensures var view, ring, k := Holding(place, x, y, map[]).view, HashRing({0}, place), IntoString(p.id);
            view[n := Inserted(ring, view[n], p)] ==
            Holding(place, if n == 1 then x[k := p] else x, if n == 1 then y else y[k := p], map[]).view
  {
    PairShards(place);
    var store, ring := if n == 1 then x else y, HashRing({0}, place);
    assert Inserted(ring, map[0 := store], p) == map[0 := store[IntoString(p.id) := p]];
    if n == 1 {
      assert map[1 := map[0 := x], 2 := map[0 := y]][1 := map[0 := x[IntoString(p.id) := p]]] ==
             map[1 := map[0 := x[IntoString(p.id) := p]], 2 := map[0 := y]];
    } else {
      assert map[1 := map[0 := x], 2 := map[0 := y]][2 := map[0 := y[IntoString(p.id) := p]]] ==
             map[1 := map[0 := x], 2 := map[0 := y[IntoString(p.id) := p]]];
    }
  }

  lemma PairWrites(place: Placement, x: Store, y: Store, ops: map<OpId, Op>, op: OpId, n: PeerId, self: PeerId,
                   p: Point, written: set<(PeerId, PointId)>)
    requires op in ops && ops[op] == Putting(place, self, p, written, Open) && p.id.Id?
    requires (n == 1 || n == 2) && (self == 1 || self == 2)
    ensures Step(Holding(place, x, y, ops), Write(op, n, p.id),
                 Holding(place, if n == 1 then x[IntoString(p.id) := p] else x,
                         if n == 1 then y else y[IntoString(p.id) := p],
                         ops[op := Putting(place, self, p, written + {(n, p.id)}, Open)]))
  {
    PairShards(place);
    OnePoint(p);
    PairInserted(place, x, y, n, p);
    assert n != self ==> n == if self == 1 then 2 else 1;
    assert ops[op].MayWrite(n, p.id);
  }

  lemma PairEnds(place: Placement, x: Store, y: Store, ops: map<OpId, Op>, op: OpId, self: PeerId, p: Point)
    requires op in ops && ops[op] == Putting(place, self, p, {(1, p.id), (2, p.id)}, Open) && p.id.Id? && self in {1, 2}
    ensures Step(Holding(place, x, y, ops), End(op, true, map[0 := {if self == 1 then 2 else 1}]),
                 Holding(place, x, y,
                         ops[op := Putting(place, self, p, {(1, p.id), (2, p.id)},
                                           Ended(true, map[0 := {if self == 1 then 2 else 1}]))]))
  {
    PairShards(place);
    OnePoint(p);
  }

  /** Both upserts have begun, neither has written anything. */
  lemma BothBegin(place: Placement, p: Point, q: Point) returns (run: OverlapRun)
    requires p.id == q.id && p.id.Id?
    ensures run.Valid() && run.Canonical()
    ensures LastOf(run) == Holding(place, map[], map[],
                                   map[0 := Putting(place, 1, p, {}, Open), 1 := Putting(place, 2, q, {}, Open)])
  {
    OnePoint(p);
    OnePoint(q);
    run := PairStarts(place);
    PairBegins(place, map[], map[], map[], 0, 1, p);
    run := Extended(run, Begin(0, 1, [p]), Holding(place, map[], map[], map[0 := Putting(place, 1, p, {}, Open)]));
    PairBegins(place, map[], map[], map[0 := Putting(place, 1, p, {}, Open)], 1, 2, q);
    run := Extended(run, Begin(1, 2, [q]),
                    Holding(place, map[], map[],
                            map[0 := Putting(place, 1, p, {}, Open), 1 := Putting(place, 2, q, {}, Open)]));
  }

  /** The first has written its version at its own node, */
  lemma OneWritesHere(place: Placement, p: Point, q: Point) returns (run: OverlapRun)
    requires p.id == q.id && p.id.Id?
    ensures run.Valid() && run.Canonical()
    ensures LastOf(run) == Holding(place, map[IntoString(p.id) := p], map[],
                                   map[0 := Putting(place, 1, p, {(1, p.id)}, Open),
                                       1 := Putting(place, 2, q, {}, Open)])
  {
    run := BothBegin(place, p, q);
    var ops := LastOf(run).ops;
    PairWrites(place, map[], map[], ops, 0, 1, 1, p, {});
    assert {} + {(1, p.id)} == {(1, p.id)};
    run := Extended(run, Write(0, 1, p.id),
                    Holding(place, map[IntoString(p.id) := p], map[],
                            ops[0 := Putting(place, 1, p, {(1, p.id)}, Open)]));
  }

  /** and so has the second. */
  lemma BothWriteHere(place: Placement, p: Point, q: Point) returns (run: OverlapRun)
    requires p.id == q.id && p.id.Id?
    ensures run.Valid() && run.Canonical()
    ensures var k := IntoString(p.id);
            LastOf(run) == Holding(place, map[k := p], map[k := q],
                                   map[0 := Putting(place, 1, p, {(1, p.id)}, Open),
                                       1 := Putting(place, 2, q, {(2, p.id)}, Open)])
  {
    var k := IntoString(p.id);
    run := OneWritesHere(place, p, q);
    var ops := LastOf(run).ops;
    PairWrites(place, map[k := p], map[], ops, 1, 2, 2, q, {});
    assert {} + {(2, p.id)} == {(2, p.id)};
    run := Extended(run, Write(1, 2, p.id),
                    Holding(place, map[k := p], map[k := q], ops[1 := Putting(place, 2, q, {(2, p.id)}, Open)]));
  }

  /** And then at the other: the versions have crossed. */
  lemma BothWriteThere(place: Placement, p: Point, q: Point) returns (run: OverlapRun)
    requires p.id == q.id && p.id.Id?
    ensures run.Valid() && run.Canonical()
    ensures var k, all := IntoString(p.id), {(1, p.id), (2, p.id)};
            LastOf(run) == Holding(place, map[k := q], map[k := p],
                                   map[0 := Putting(place, 1, p, all, Open), 1 := Putting(place, 2, q, all, Open)])
  {
    var k := IntoString(p.id);
    run := BothWriteHere(place, p, q);
    var ops := LastOf(run).ops;
    PairWrites(place, map[k := p], map[k := q], ops, 0, 2, 1, p, {(1, p.id)});
    var after := ops[0 := Putting(place, 1, p, {(1, p.id)} + {(2, p.id)}, Open)];
    assert map[k := q][k := p] == map[k := p] && map[k := p][k := q] == map[k := q];
    run := Extended(run, Write(0, 2, p.id), Holding(place, map[k := p], map[k := p], after));
    PairWrites(place, map[k := p], map[k := p], after, 1, 1, 2, q, {(2, p.id)});
    run := Extended(run, Write(1, 1, p.id),
                    Holding(place, map[k := q], map[k := p],
                            after[1 := Putting(place, 2, q, {(2, p.id)} + {(1, p.id)}, Open)]));
    assert {(1, p.id)} + {(2, p.id)} == {(2, p.id)} + {(1, p.id)} == {(1, p.id), (2, p.id)};
  }

  /** Both have ended with success, acknowledged by both nodes. */
  function BothEnded(place: Placement, p: Point, q: Point): map<OpId, Op> {
    map[0 := Putting(place, 1, p, {(1, p.id), (2, p.id)}, Ended(true, map[0 := {2}])),
        1 := Putting(place, 2, q, {(1, p.id), (2, p.id)}, Ended(true, map[0 := {1}]))]
  }

  /**
   That all nodes acknowledge every upsert does not keep them in agreement when upserts with different versions of
   an id overlap, whatever the versions: in this run node 1 puts one and node 2 the other, each reaches its own node
   first and the other node second, both succeed everywhere, and then each node holds the other's version.
   */
  lemma CrossingUpsertsDisagree(place: Placement, p: Point, q: Point) returns (run: OverlapRun)
    requires p.id == q.id && p.id.Id? && p != q
    ensures run.Valid() && run.Canonical()
    ensures LastOf(run) ==
            Holding(place, map[IntoString(p.id) := q], map[IntoString(p.id) := p], BothEnded(place, p, q))
    ensures NoneOpen(LastOf(run)) && EndsAreOver(LastOf(run)) && UniformShards(LastOf(run).cfg)
    ensures !Agreed(LastOf(run).cfg, LastOf(run).view)
  {
    var k, all := IntoString(p.id), {(1, p.id), (2, p.id)};
    run := BothWriteThere(place, p, q);
    var ops := LastOf(run).ops;
    PairEnds(place, map[k := q], map[k := p], ops, 0, 1, p);
    var after := ops[0 := Putting(place, 1, p, all, Ended(true, map[0 := {2}]))];
    run := Extended(run, End(0, true, map[0 := {2}]), Holding(place, map[k := q], map[k := p], after));
    PairEnds(place, map[k := q], map[k := p], after, 1, 2, q);
    run := Extended(run, End(1, true, map[0 := {1}]), Holding(place, map[k := q], map[k := p], BothEnded(place, p, q)));
    CrossedDisagree(place, p, q);
  }

  lemma CrossedDisagree(place: Placement, p: Point, q: Point)
    requires p.id == q.id && p.id.Id? && p != q
    ensures var a := Holding(place, map[IntoString(p.id) := q], map[IntoString(p.id) := p], BothEnded(place, p, q));
            && NoneOpen(a) && EndsAreOver(a) && UniformShards(a.cfg) && !Agreed(a.cfg, a.view)
  {
    PairShards(place);
    var a := Holding(place, map[IntoString(p.id) := q], map[IntoString(p.id) := p], BothEnded(place, p, q));
    assert FindById(a.view[1][0], p.id) == Some(q) && FindById(a.view[2][0], p.id) == Some(p);
  }
}
