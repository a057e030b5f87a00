/**
 Upserts that overlap. A collection is only read-locked while it is written, so any number of upserts may be
 under way, at one node or at several. Each inserts the last versions of its batch one at a time, at its own
 node and at the remotes it calls, while others do the same.

 A step here is one insertion. An upsert may insert a version where it may at all in any order and any number
 of times: which part a failing one gets done, and in which order the shards come, is left open that way.
 */
module Overlap {
  import opened Types
  import opened IdText
  import opened Ring
  import opened Batches
  import opened Views
  import opened IdMaps
  import opened ListingLaws

  type OpId = nat

  /** An upsert has ended once its caller has the result; `acked` are the remotes whose calls succeeded. */
  datatype Phase = Open | Ended(ok: bool, acked: map<ShardId, set<PeerId>>)

  /** An upsert through node `self`, with the ring and the remotes its read lock showed it. */
  datatype Op = Op(self: PeerId, points: seq<Point>, ring: HashRing, remotes: Remotes,
                   written: set<(PeerId, PointId)>, phase: Phase) {
    function Version(id: PointId): Point
      requires id in PointsMap(points)
    {
      PointsMap(points)[id]
    }

    /** Remote `n` is called for the shard of the id, and sent it if it is a number. */
    predicate Sends(n: PeerId, id: PointId) {
      && id in PointsMap(points) && id.Id?
      && ring.At(id) in remotes && n in remotes[ring.At(id)]
    }

    /** Whoever acknowledged a shard has written all it was sent for it. */
    predicate AcksAreTrue(acked: map<ShardId, set<PeerId>>) {
      forall s, n :: s in acked && n in acked[s] ==>
        && s in remotes && n in remotes[s]
        && forall id :: id in PointsMap(points) && id.Id? && ring.At(id) == s ==> (n, id) in written
    }

    /** A success: everything is written here, and each shard has enough acknowledgements. */
    predicate Complete(acked: map<ShardId, set<PeerId>>) {
      && (forall id :: id in PointsMap(points) ==> (self, id) in written)
      && (points != [] ==> ring.nodes != {})
      && forall s :: s in ShardsOf(ring, points) ==>
           s in remotes && s in acked && 1 + |acked[s]| >= Min(|remotes[s]| + 1, DEFAULT_CONSISTENCY_FACTOR)
    }

    /**
     Here it writes while it is open. At a remote a call may go on after its caller gave it up, but not after
     it was acknowledged.
     */
    predicate MayWrite(n: PeerId, id: PointId) {
      if n == self then id in PointsMap(points) && phase.Open?
      else Sends(n, id)
           && (phase.Ended? ==> !(ring.At(id) in phase.acked && n in phase.acked[ring.At(id)]))
    }
  }

  datatype State = State(cfg: Config, view: View, ops: map<OpId, Op>)

  datatype Event =
    | Begin(op: OpId, self: PeerId, points: seq<Point>)
    | Write(op: OpId, n: PeerId, id: PointId)
    | End(op: OpId, ok: bool, acked: map<ShardId, set<PeerId>>)
    | Rewire
    | Start(node: PeerId, stores: Stores)

  function Begun(cfg: Config, self: PeerId, points: seq<Point>): Op
    requires self in cfg.topology
  {
    Op(self, points, cfg.RingOf(self), cfg.topology[self], {}, Open)
  }

  /** A node's stores with the point inserted where its own ring puts it. */
  function Inserted(ring: HashRing, stores: Stores, p: Point): Stores {
    var s := ring.At(p.id);
    if s in stores then stores[s := stores[s][IntoString(p.id) := p]] else stores
  }

  ghost predicate Enabled(a: State, e: Event) {
    match e
    case Begin(op, self, points) => op !in a.ops && self in a.cfg.topology
    case Write(op, n, id) =>
      && op in a.ops && a.ops[op].MayWrite(n, id)
      && n in a.view && n in a.cfg.topology && a.cfg.topology[n].Keys != {}
    case End(op, ok, acked) =>
      && op in a.ops && a.ops[op].phase.Open? && a.ops[op].AcksAreTrue(acked)
      && (forall s, n :: s in acked && n in acked[s] ==> n in a.cfg.topology)
      && (ok ==> a.ops[op].Complete(acked))
    case Rewire => true
    case Start(node, stores) => node !in a.cfg.topology && Routed(HashRing(stores.Keys, a.cfg.place), stores)
  }

  /** Remotes change, but not under an upsert that holds the read lock. */
  ghost predicate Rewired(a: State, b: State) {
    && b.cfg.place == a.cfg.place && SoundTopology(b.cfg.topology) && b.cfg.topology.Keys == a.cfg.topology.Keys
    && (forall n :: n in a.cfg.topology ==> b.cfg.topology[n].Keys == a.cfg.topology[n].Keys)
    && (forall op :: op in a.ops && a.ops[op].phase.Open? && a.ops[op].self in a.cfg.topology ==>
          b.cfg.topology[a.ops[op].self] == a.cfg.topology[a.ops[op].self])
  }

  ghost predicate Step(a: State, e: Event, b: State) {
    && Enabled(a, e)
    && match e
       case Begin(op, self, points) => b == a.(ops := a.ops[op := Begun(a.cfg, self, points)])
       case Write(op, n, id) =>
         var o := a.ops[op];
         && b.cfg == a.cfg
         && b.view == a.view[n := Inserted(a.cfg.RingOf(n), a.view[n], o.Version(id))]
         && b.ops == a.ops[op := o.(written := o.written + {(n, id)})]
       case End(op, ok, acked) => b == a.(ops := a.ops[op := a.ops[op].(phase := Ended(ok, acked))])
       case Rewire => Rewired(a, b) && b.view == a.view && b.ops == a.ops
       case Start(node, stores) =>
         && b.cfg.place == a.cfg.place && SoundTopology(b.cfg.topology) && b.ops == a.ops
         && b.view == a.view[node := stores]
         && b.cfg.topology.Keys == a.cfg.topology.Keys + {node} && b.cfg.topology[node].Keys == stores.Keys
         && forall n :: n in a.cfg.topology ==> b.cfg.topology[n] == a.cfg.topology[n]
  }

  ghost predicate CanonicalEvent(e: Event) {
    && (e.Begin? ==> CanonicalBatch(e.points))
    && (e.Start? ==> AllCanonical(e.stores))
  }

  datatype OverlapRun = OverlapRun(states: seq<State>, events: seq<Event>) {
    ghost predicate Valid() {
      && |states| == |events| + 1
      && states[0] == State(Config(states[0].cfg.place, map[]), map[], map[])
      && forall i :: 0 <= i < |events| ==> StepsAt(i)
    }

    ghost predicate StepsAt(i: nat)
      requires i < |events| == |states| - 1
    {
      Step(states[i], events[i], states[i + 1])
    }

    ghost predicate Canonical() {
      forall i :: 0 <= i < |events| ==> CanonicalEvent(events[i])
    }
  }

  // ---------- the routing invariant ----------

  lemma InsertedStaysRouted(ring: HashRing, stores: Stores, p: Point)
    requires Routed(ring, stores)
    ensures Routed(ring, Inserted(ring, stores, p))
  {
    var after := Inserted(ring, stores, p);
    assert after.Keys == stores.Keys;
    forall s, k | s in after && k in after[s]
      ensures Lands(ring, after[s][k].id, s, k)
    {
      if s != ring.At(p.id) || k != IntoString(p.id) {
        assert stores[s][k] == after[s][k];
      }
    }
  }

  lemma StepKeepsRouting(a: State, e: Event, b: State)
    requires RoutedView(a.cfg, a.view) && Step(a, e, b)
    ensures RoutedView(b.cfg, b.view)
  {
    forall n | n in b.cfg.topology
      ensures b.view[n].Keys == b.cfg.topology[n].Keys && Routed(b.cfg.RingOf(n), b.view[n])
    {
      if n in a.cfg.topology {
        assert Routed(a.cfg.RingOf(n), a.view[n]);
        assert b.cfg.RingOf(n) == a.cfg.RingOf(n);
        if e.Write? && n == e.n {
          InsertedStaysRouted(a.cfg.RingOf(n), a.view[n], a.ops[e.op].Version(e.id));
        }
      }
    }
  }

  /** However upserts overlap, each point is where its node's ring and its own key put it. */
  lemma {:induction false} RoutingAlways(run: OverlapRun, i: nat)
    requires run.Valid() && i < |run.states|
    ensures RoutedView(run.states[i].cfg, run.states[i].view) && SoundTopology(run.states[i].cfg.topology)
  {
    if i > 0 {
      RoutingAlways(run, i - 1);
      assert run.StepsAt(i - 1);
      StepKeepsRouting(run.states[i - 1], run.events[i - 1], run.states[i]);
    }
  }

  /** Every state comes from the one before by a step that keeps to these rules. */
  lemma StepAt(run: OverlapRun, i: nat)
    requires run.Valid() && i < |run.events|
    ensures RoutedView(run.states[i].cfg, run.states[i].view) && SoundTopology(run.states[i].cfg.topology)
    ensures Step(run.states[i], run.events[i], run.states[i + 1])
    ensures run.Canonical() ==> CanonicalEvent(run.events[i])
  {
    RoutingAlways(run, i);
    assert run.StepsAt(i);
  }

  // ---------- upserts under way ----------

  /** An upsert runs at a node, on its ring; what it has written it was to write. */
  ghost predicate OpSound(cfg: Config, o: Op) {
    && o.self in cfg.topology && o.ring == cfg.RingOf(o.self) && o.remotes.Keys == o.ring.nodes
    && (forall s :: s in o.remotes ==> o.self !in o.remotes[s])
    && forall n, id :: (n, id) in o.written ==> n in cfg.topology && id in PointsMap(o.points)
  }

  ghost predicate OpsSound(a: State) {
    forall op :: op in a.ops ==> OpSound(a.cfg, a.ops[op])
  }

  lemma StepKeepsOps(a: State, e: Event, b: State)
    requires OpsSound(a) && SoundTopology(a.cfg.topology) && Step(a, e, b)
    ensures OpsSound(b)
  {
    forall op | op in b.ops
      ensures OpSound(b.cfg, b.ops[op])
    {
      if op in a.ops {
        assert OpSound(a.cfg, a.ops[op]);
        assert b.cfg.RingOf(b.ops[op].self) == a.cfg.RingOf(b.ops[op].self);
      }
    }
  }

  lemma {:induction false} OpsSoundAlways(run: OverlapRun, i: nat)
    requires run.Valid() && i < |run.states|
    ensures OpsSound(run.states[i])
  {
    if i > 0 {
      OpsSoundAlways(run, i - 1);
      StepAt(run, i - 1);
      StepKeepsOps(run.states[i - 1], run.events[i - 1], run.states[i]);
    }
  }

  lemma StepKeepsRing(a: State, e: Event, b: State, n: PeerId)
    requires Step(a, e, b) && n in a.cfg.topology
    ensures n in b.cfg.topology && b.cfg.RingOf(n) == a.cfg.RingOf(n)
  {
  }

  lemma {:induction false} RingLasts(run: OverlapRun, i: nat, j: nat, n: PeerId)
    requires run.Valid() && i <= j < |run.states| && n in run.states[i].cfg.topology
    ensures n in run.states[j].cfg.topology && run.states[j].cfg.RingOf(n) == run.states[i].cfg.RingOf(n)
  {
    if i < j {
      RingLasts(run, i, j - 1, n);
      StepAt(run, j - 1);
      StepKeepsRing(run.states[j - 1], run.events[j - 1], run.states[j], n);
    }
  }

  ghost predicate CanonicalOps(a: State) {
    forall op :: op in a.ops ==> CanonicalBatch(a.ops[op].points)
  }

  lemma StepKeepsCanonicalOps(a: State, e: Event, b: State)
    requires CanonicalOps(a) && Step(a, e, b) && CanonicalEvent(e)
    ensures CanonicalOps(b)
  {
  }

  lemma {:induction false} CanonicalOpsAlways(run: OverlapRun, i: nat)
    requires run.Valid() && run.Canonical() && i < |run.states|
    ensures CanonicalOps(run.states[i])
  {
    if i > 0 {
      CanonicalOpsAlways(run, i - 1);
      StepAt(run, i - 1);
      StepKeepsCanonicalOps(run.states[i - 1], run.events[i - 1], run.states[i]);
    }
  }

  /** An upsert stays what it is; it only gets further. */
  lemma {:induction false} OpStays(run: OverlapRun, i: nat, j: nat, op: OpId)
    requires run.Valid() && i <= j < |run.states| && op in run.states[i].ops
    ensures op in run.states[j].ops
    ensures var o, later := run.states[i].ops[op], run.states[j].ops[op];
            && later == o.(written := later.written, phase := later.phase) && o.written <= later.written
            && (o.phase.Ended? ==> later.phase == o.phase)
  {
    if i < j {
      OpStays(run, i, j - 1, op);
      StepAt(run, j - 1);
    }
  }

  /** What an upsert counts as written it did insert, in one of its steps. */
  lemma {:induction false} WrittenWhen(run: OverlapRun, i: nat, op: OpId, n: PeerId, id: PointId) returns (l: nat)
    requires run.Valid() && i < |run.states| && op in run.states[i].ops && (n, id) in run.states[i].ops[op].written
    ensures l < i && run.events[l] == Write(op, n, id)
    ensures op in run.states[l].ops && run.states[l].ops[op].points == run.states[i].ops[op].points
  {
    StepAt(run, i - 1);
    var e := run.events[i - 1];
    if e == Write(op, n, id) {
      l := i - 1;
    } else {
      l := WrittenWhen(run, i - 1, op, n, id);
    }
  }

  // ---------- the last insertion into a cell is what it holds ----------

  /** Step `l` inserts a point into cell (s, k) of node `n`. */
  ghost predicate WritesCell(run: OverlapRun, l: nat, n: PeerId, s: ShardId, k: string) {
    && l < |run.events| == |run.states| - 1 && run.events[l].Write? && run.events[l].n == n
    && run.events[l].op in run.states[l].ops
    && run.events[l].id in PointsMap(run.states[l].ops[run.events[l].op].points)
    && n in run.states[l].cfg.topology && Lands(run.states[l].cfg.RingOf(n), run.events[l].id, s, k)
  }

  /** The point it inserts: the last version, in the batch of an upsert under way, of an id that belongs there. */
  ghost function InsertedBy(run: OverlapRun, l: nat, n: PeerId, s: ShardId, k: string): Point
    requires WritesCell(run, l, n, s, k)
  {
    run.states[l].ops[run.events[l].op].Version(run.events[l].id)
  }

  ghost predicate HasCell(a: State, n: PeerId, s: ShardId) {
    n in a.cfg.topology && s in a.cfg.topology[n] && n in a.view && s in a.view[n]
  }

  lemma StepAtCell(run: OverlapRun, i: nat, n: PeerId, s: ShardId, k: string)
    requires run.Valid() && i < |run.events| && HasCell(run.states[i], n, s)
    ensures HasCell(run.states[i + 1], n, s)
    ensures Get(run.states[i + 1].view[n][s], k) ==
            if WritesCell(run, i, n, s, k) then Some(InsertedBy(run, i, n, s, k)) else Get(run.states[i].view[n][s], k)
  {
    StepAt(run, i);
    var a, e := run.states[i], run.events[i];
    if e.Write? {
      PointsMapIds(a.ops[e.op].points);
    }
  }

  /**
   Between any two states a cell of any node, whoever writes it, holds what the last insertion into it put there,
   or what it held if there was none.
   */
  lemma {:induction false} LastInsertionCounts(run: OverlapRun, i: nat, j: nat, n: PeerId, s: ShardId, k: string)
    returns (l: int)
    requires run.Valid() && i <= j < |run.states| && HasCell(run.states[i], n, s)
    ensures HasCell(run.states[j], n, s) && (l == -1 || i <= l < j)
    ensures forall m :: i <= m < j && l < m ==> !WritesCell(run, m, n, s, k)
    ensures l != -1 ==> WritesCell(run, l, n, s, k)
    ensures Get(run.states[j].view[n][s], k) ==
            if l == -1 then Get(run.states[i].view[n][s], k) else Some(InsertedBy(run, l, n, s, k))
  {
    if i == j {
      l := -1;
    } else {
      l := LastInsertionCounts(run, i, j - 1, n, s, k);
      StepAtCell(run, j - 1, n, s, k);
      if WritesCell(run, j - 1, n, s, k) {
        l := j - 1;
      }
    }
  }
}
