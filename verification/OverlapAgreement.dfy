/** When overlapping upserts leave all nodes with the same contents. */
module OverlapAgreement {
  import opened Types
  import opened IdText
  import opened Ring
  import opened Batches
  import opened Views
  import opened IdMaps
  import opened Guarantees
  import opened ListingLaws
  import opened Overlap

  /** What node `n` finds for an id where its own ring puts it. */
  function FoundAt(a: State, n: PeerId, id: PointId): Option<Point>
    requires n in a.cfg.topology
  {
    var s := a.cfg.RingOf(n).At(id);
    if n in a.view && s in a.view[n] then FindById(a.view[n][s], id) else None
  }

  ghost predicate AllFind(a: State, id: PointId, version: Option<Point>) {
    forall n :: n in a.cfg.topology ==> FoundAt(a, n, id) == version
  }

  /** An open upsert that has the id. */
  predicate OpenFor(a: State, op: OpId, id: PointId) {
    op in a.ops && a.ops[op].phase.Open? && id in PointsMap(a.ops[op].points)
  }

  /** One of the upserts under way has been at the node with the id. */
  ghost predicate BeenAt(a: State, n: PeerId, id: PointId) {
    exists op :: OpenFor(a, op, id) && (n, id) in a.ops[op].written
  }

  /**
   The upserts of the id that are under way all have this version of it; the nodes they have been at find it, and
   the others all find the same as before.
   */
  ghost predicate PartlyFound(a: State, id: PointId, version: Point, before: Option<Point>) {
    && (forall op :: OpenFor(a, op, id) ==> a.ops[op].Version(id) == version)
    && forall n :: n in a.cfg.topology ==> FoundAt(a, n, id) == if BeenAt(a, n, id) then Some(version) else before
  }

  /** The nodes agree on the id, or differ just as far as the upserts of it that are under way have got. */
  ghost predicate Settling(a: State, id: PointId) {
    exists version, before :: PartlyFound(a, id, version, before)
  }

  /** Every other node acknowledged every shard of the batch. */
  ghost predicate AllAcked(cfg: Config, o: Op, acked: map<ShardId, set<PeerId>>) {
    forall n, s :: n in cfg.topology && n != o.self && s in ShardsOf(o.ring, o.points) ==> s in acked && n in acked[s]
  }

  /** Upserts that have ended were acknowledged by all, so they are over. */
  ghost predicate EndsAreOver(a: State) {
    forall op :: op in a.ops && a.ops[op].phase.Ended? ==>
      a.ops[op].phase.ok && AllAcked(a.cfg, a.ops[op], a.ops[op].phase.acked)
  }

  /**
   No node joins, all nodes acknowledge an upsert that ends, and one that begins has no number in another version
   than an upsert under way has it.
   */
  ghost predicate Compatible(a: State, e: Event) {
    && !e.Start?
    && (e.Begin? ==> forall op, id :: OpenFor(a, op, id) && id in PointsMap(e.points) && id.Id? ==>
          a.ops[op].Version(id) == PointsMap(e.points)[id])
    && (e.End? && e.op in a.ops ==> e.ok && AllAcked(a.cfg, a.ops[e.op], e.acked))
  }

  lemma StepKeepsOver(a: State, e: Event, b: State)
    requires EndsAreOver(a) && Compatible(a, e) && Step(a, e, b)
    ensures EndsAreOver(b)
  {
    forall op | op in b.ops && b.ops[op].phase.Ended?
      ensures b.ops[op].phase.ok && AllAcked(b.cfg, b.ops[op], b.ops[op].phase.acked)
    {
      if !a.ops[op].phase.Ended? {
        assert e.End? && e.op == op;
      } else {
        assert AllAcked(a.cfg, a.ops[op], a.ops[op].phase.acked);
      }
    }
  }

  // ---------- one id through one step ----------

  lemma FindAfterInserted(ring: HashRing, stores: Stores, p: Point, id: PointId)
    requires Canonical(id) && Canonical(p.id) && ring.At(p.id) in stores && ring.At(id) in stores
    ensures ring.At(id) in Inserted(ring, stores, p)
    ensures FindById(Inserted(ring, stores, p)[ring.At(id)], id) ==
            if id == p.id then Some(p) else FindById(stores[ring.At(id)], id)
  {
    if ring.At(id) == ring.At(p.id) && IntoString(id) == IntoString(p.id) {
      KeysAreInjective(id, p.id);
    }
  }

  /** An insertion changes what is found for its own id, at its own node, and nothing else. */
  lemma InsertedIsFound(a: State, e: Event, b: State, n: PeerId, id: PointId)
    requires a.cfg.Fits(a.view) && Step(a, e, b) && e.Write? && n in a.cfg.topology && Canonical(id)
    requires CanonicalBatch(a.ops[e.op].points)
    ensures n in b.cfg.topology
    ensures FoundAt(b, n, id) == if n == e.n && id == e.id then Some(a.ops[e.op].Version(id)) else FoundAt(a, n, id)
  {
    CanonicalVersions(a.ops[e.op].points);
    var p := a.ops[e.op].Version(e.id);
    if n == e.n {
      assert b.view[n] == Inserted(a.cfg.RingOf(n), a.view[n], p);
      FindAfterInserted(a.cfg.RingOf(n), a.view[n], p, id);
    } else {
      assert b.view[n] == a.view[n];
    }
  }

  lemma UnwrittenStays(a: State, e: Event, b: State, n: PeerId, id: PointId)
    requires Step(a, e, b) && !e.Write? && !e.Start? && n in a.cfg.topology
    ensures n in b.cfg.topology && FoundAt(b, n, id) == FoundAt(a, n, id)
  {
    StepKeepsRing(a, e, b, n);
  }

  /** Nothing changed for the id: what is found, which upserts of it are under way, and how far they are. */
  ghost predicate SameFor(a: State, b: State, id: PointId) {
    && SameFound(a, b, id)
    && (forall op :: OpenFor(b, op, id) <==> OpenFor(a, op, id))
    && forall op :: OpenFor(a, op, id) ==> SameProgress(a.ops[op], b.ops[op], id)
  }

  ghost predicate SameFound(a: State, b: State, id: PointId) {
    && b.cfg.topology.Keys == a.cfg.topology.Keys
    && forall n :: n in a.cfg.topology ==> FoundAt(b, n, id) == FoundAt(a, n, id)
  }

  ghost predicate SameProgress(o: Op, later: Op, id: PointId) {
    && later.points == o.points
    && forall n :: (n, id) in later.written <==> (n, id) in o.written
  }

  lemma SameForSettles(a: State, b: State, id: PointId)
    requires SameFor(a, b, id) && Settling(a, id)
    ensures Settling(b, id)
  {
    var version, before :| PartlyFound(a, id, version, before);
    forall n
      ensures BeenAt(b, n, id) <==> BeenAt(a, n, id)
    {
      SameReached(a, b, n, id);
    }
    assert PartlyFound(b, id, version, before);
  }

  lemma SameReached(a: State, b: State, n: PeerId, id: PointId)
    requires SameFor(a, b, id)
    ensures BeenAt(b, n, id) <==> BeenAt(a, n, id)
  {
    if BeenAt(a, n, id) {
      var op :| OpenFor(a, op, id) && (n, id) in a.ops[op].written;
      assert OpenFor(b, op, id) && (n, id) in b.ops[op].written;
    }
    if BeenAt(b, n, id) {
      var op :| OpenFor(b, op, id) && (n, id) in b.ops[op].written;
      assert OpenFor(a, op, id) && (n, id) in a.ops[op].written;
    }
  }

  lemma UnwrittenFound(a: State, e: Event, b: State, id: PointId)
    requires Step(a, e, b) && !e.Write? && !e.Start?
    ensures SameFound(a, b, id)
  {
    forall n | n in a.cfg.topology
      ensures n in b.cfg.topology && FoundAt(b, n, id) == FoundAt(a, n, id)
    {
      UnwrittenStays(a, e, b, n, id);
    }
  }

  /** The event is none for this id. */
  ghost predicate Beside(a: State, e: Event, id: PointId) {
    match e
    case Begin(_, _, points) => id !in PointsMap(points)
    case Write(_, _, other) => other != id
    case End(op, _, _) => !OpenFor(a, op, id)
    case Rewire => true
    case Start(_, _) => false
  }

  lemma OpBeside(a: State, e: Event, b: State, id: PointId, op: OpId)
    requires Step(a, e, b) && Beside(a, e, id)
    ensures OpenFor(b, op, id) <==> OpenFor(a, op, id)
    ensures OpenFor(a, op, id) ==> SameProgress(a.ops[op], b.ops[op], id)
  {
  }

  lemma BesideIsSame(a: State, e: Event, b: State, id: PointId)
    requires a.cfg.Fits(a.view) && CanonicalOps(a) && Step(a, e, b) && Beside(a, e, id) && Canonical(id)
    ensures SameFor(a, b, id)
  {
    if e.Write? {
      forall n | n in a.cfg.topology
        ensures FoundAt(b, n, id) == FoundAt(a, n, id)
      {
        InsertedIsFound(a, e, b, n, id);
      }
    } else {
      UnwrittenFound(a, e, b, id);
    }
    forall op: OpId
      ensures OpenFor(b, op, id) <==> OpenFor(a, op, id)
      ensures OpenFor(a, op, id) ==> SameProgress(a.ops[op], b.ops[op], id)
    {
      OpBeside(a, e, b, id, op);
    }
  }

  // ---------- the steps that are for the id ----------

  /** Upserts that ended are over: whoever writes is under way. */
  lemma WriterIsOpen(a: State, e: Event)
    requires OpsSound(a) && EndsAreOver(a) && Enabled(a, e) && e.Write?
    ensures OpenFor(a, e.op, e.id)
  {
    var o := a.ops[e.op];
    PointsMapIds(o.points);
    assert o.Version(e.id) in o.points;
    assert o.ring.At(e.id) in ShardsOf(o.ring, o.points);
    if o.phase.Ended? {
      assert AllAcked(a.cfg, o, o.phase.acked);
    }
  }

  lemma WriteReaches(a: State, e: Event, b: State, n: PeerId)
    requires Step(a, e, b) && e.Write? && OpenFor(a, e.op, e.id)
    ensures BeenAt(b, n, e.id) <==> n == e.n || BeenAt(a, n, e.id)
  {
    assert OpenFor(b, e.op, e.id);
    if BeenAt(a, n, e.id) {
      var op :| OpenFor(a, op, e.id) && (n, e.id) in a.ops[op].written;
      assert OpenFor(b, op, e.id) && (n, e.id) in b.ops[op].written;
    }
    if n == e.n {
      assert (n, e.id) in b.ops[e.op].written;
    } else if BeenAt(b, n, e.id) {
      var op :| OpenFor(b, op, e.id) && (n, e.id) in b.ops[op].written;
      assert OpenFor(a, op, e.id) && (n, e.id) in a.ops[op].written;
    }
  }

  lemma WriteSettles(a: State, e: Event, b: State)
    requires a.cfg.Fits(a.view) && CanonicalOps(a) && Step(a, e, b) && e.Write? && OpenFor(a, e.op, e.id)
    requires Settling(a, e.id) && e.id.Id?
    ensures Settling(b, e.id)
  {
    var version, before :| PartlyFound(a, e.id, version, before);
    forall n | n in b.cfg.topology
      ensures FoundAt(b, n, e.id) == if BeenAt(b, n, e.id) then Some(version) else before
    {
      InsertedIsFound(a, e, b, n, e.id);
      WriteReaches(a, e, b, n);
    }
    forall op | OpenFor(b, op, e.id)
      ensures b.ops[op].Version(e.id) == version
    {
      assert OpenFor(a, op, e.id);
    }
    assert PartlyFound(b, e.id, version, before);
  }

  /** A new upsert has been nowhere yet. */
  lemma BeginReachesNobody(a: State, e: Event, b: State, n: PeerId, id: PointId)
    requires Step(a, e, b) && e.Begin?
    ensures BeenAt(b, n, id) <==> BeenAt(a, n, id)
  {
    if BeenAt(a, n, id) {
      var op :| OpenFor(a, op, id) && (n, id) in a.ops[op].written;
      assert OpenFor(b, op, id) && (n, id) in b.ops[op].written;
    }
    if BeenAt(b, n, id) {
      var op :| OpenFor(b, op, id) && (n, id) in b.ops[op].written;
      assert OpenFor(a, op, id) && (n, id) in a.ops[op].written;
    }
  }

  lemma BeginSettles(a: State, e: Event, b: State, id: PointId)
    requires Compatible(a, e) && Step(a, e, b) && Settling(a, id) && id.Id?
    requires e.Begin? && id in PointsMap(e.points)
    ensures Settling(b, id)
  {
    var version, before :| PartlyFound(a, id, version, before);
    UnwrittenFound(a, e, b, id);
    var v := PointsMap(e.points)[id];
    forall op | OpenFor(b, op, id)
      ensures b.ops[op].Version(id) == v
    {
      if op != e.op {
        assert OpenFor(a, op, id);
      }
    }
    forall n | n in b.cfg.topology
      ensures FoundAt(b, n, id) == if BeenAt(b, n, id) then Some(v) else before
    {
      BeginReachesNobody(a, e, b, n, id);
    }
    assert PartlyFound(b, id, v, before);
  }

  /** An upsert that all nodes acknowledged has put its version everywhere. */
  lemma EndedIsEverywhere(a: State, e: Event, id: PointId, version: Point, before: Option<Point>)
    requires OpsSound(a) && Enabled(a, e) && Compatible(a, e) && e.End? && id.Id?
    requires OpenFor(a, e.op, id) && PartlyFound(a, id, version, before)
    ensures AllFind(a, id, Some(version))
  {
    var o := a.ops[e.op];
    PointsMapIds(o.points);
    assert o.Version(id) in o.points;
    assert o.ring.At(id) in ShardsOf(o.ring, o.points);
    forall n | n in a.cfg.topology
      ensures BeenAt(a, n, id)
    {
      if n != o.self {
        assert o.ring.At(id) in e.acked && n in e.acked[o.ring.At(id)];
      }
      assert (n, id) in o.written;
    }
  }

  lemma EndSettles(a: State, e: Event, b: State, id: PointId)
    requires OpsSound(a) && Compatible(a, e) && Step(a, e, b) && Settling(a, id) && id.Id?
    requires e.End? && OpenFor(a, e.op, id)
    ensures Settling(b, id)
  {
    var version, before :| PartlyFound(a, id, version, before);
    EndedIsEverywhere(a, e, id, version, before);
    UnwrittenFound(a, e, b, id);
    forall op | OpenFor(b, op, id)
      ensures b.ops[op].Version(id) == version
    {
      assert OpenFor(a, op, id);
    }
    assert PartlyFound(b, id, version, Some(version));
  }

  lemma StepSettles(a: State, e: Event, b: State, id: PointId)
    requires a.cfg.Fits(a.view) && OpsSound(a) && CanonicalOps(a) && EndsAreOver(a)
    requires Compatible(a, e) && Step(a, e, b) && Settling(a, id) && id.Id?
    ensures Settling(b, id)
  {
    if Beside(a, e, id) {
      BesideIsSame(a, e, b, id);
      SameForSettles(a, b, id);
    } else if e.Begin? {
      BeginSettles(a, e, b, id);
    } else if e.Write? {
      WriterIsOpen(a, e);
      WriteSettles(a, e, b);
    } else {
      EndSettles(a, e, b, id);
    }
  }

  // ---------- whole runs ----------

  lemma StepKeepsUniform(a: State, e: Event, b: State)
    requires UniformShards(a.cfg) && Step(a, e, b) && !e.Start?
    ensures UniformShards(b.cfg)
  {
    forall m, n | m in b.cfg.topology && n in b.cfg.topology
      ensures b.cfg.topology[m].Keys == b.cfg.topology[n].Keys
    {
      StepKeepsRing(a, e, b, m);
      StepKeepsRing(a, e, b, n);
      assert a.cfg.topology[m].Keys == a.cfg.topology[n].Keys;
    }
  }

  lemma FoundWhereRouted(a: State, n: PeerId, s: ShardId, id: PointId)
    requires RoutedView(a.cfg, a.view) && n in a.cfg.topology && s in a.cfg.topology[n]
    ensures FindById(a.view[n][s], id) == if s == a.cfg.RingOf(n).At(id) then FoundAt(a, n, id) else None
  {
    assert Routed(a.cfg.RingOf(n), a.view[n]);
    if FindById(a.view[n][s], id).Some? {
      assert Lands(a.cfg.RingOf(n), a.view[n][s][IntoString(id)].id, s, IntoString(id));
    }
  }

  lemma AgreedIsFound(a: State, id: PointId)
    requires Agreed(a.cfg, a.view) && UniformShards(a.cfg) && id.Id?
    ensures exists version :: AllFind(a, id, version)
  {
    if a.cfg.topology.Keys == {} {
      assert AllFind(a, id, None);
    } else {
      var m :| m in a.cfg.topology;
      forall n | n in a.cfg.topology
        ensures FoundAt(a, n, id) == FoundAt(a, m, id)
      {
        assert a.cfg.RingOf(n) == a.cfg.RingOf(m);
      }
      assert AllFind(a, id, FoundAt(a, m, id));
    }
  }

  lemma FoundIsAgreed(a: State)
    requires RoutedView(a.cfg, a.view) && UniformShards(a.cfg)
    requires forall id: PointId :: id.Id? ==> exists version :: AllFind(a, id, version)
    ensures Agreed(a.cfg, a.view)
  {
    forall m, n, s, id: PointId | m in a.cfg.topology && n in a.cfg.topology && s in a.cfg.topology[m]
                                  && s in a.cfg.topology[n] && id.Id?
      ensures FindById(a.view[m][s], id) == FindById(a.view[n][s], id)
    {
      var version :| AllFind(a, id, version);
      assert a.cfg.RingOf(m) == a.cfg.RingOf(n);
      FoundWhereRouted(a, m, s, id);
      FoundWhereRouted(a, n, s, id);
    }
  }

  /** From state `i` to state `j` every step is like that. */
  ghost predicate OnlyCompatible(run: OverlapRun, i: nat, j: nat)
    requires i <= j < |run.states| == |run.events| + 1
  {
    forall l :: i <= l < j ==> Compatible(run.states[l], run.events[l])
  }

  lemma {:induction false} OverLasts(run: OverlapRun, i: nat, j: nat)
    requires run.Valid() && i <= j < |run.states| && OnlyCompatible(run, i, j)
    requires EndsAreOver(run.states[i]) && UniformShards(run.states[i].cfg)
    ensures EndsAreOver(run.states[j]) && UniformShards(run.states[j].cfg)
  {
    if i < j {
      OverLasts(run, i, j - 1);
      StepAt(run, j - 1);
      assert Compatible(run.states[j - 1], run.events[j - 1]);
      StepKeepsOver(run.states[j - 1], run.events[j - 1], run.states[j]);
      StepKeepsUniform(run.states[j - 1], run.events[j - 1], run.states[j]);
    }
  }

  lemma SettlesAt(run: OverlapRun, l: nat, id: PointId)
    requires run.Valid() && run.Canonical() && l < |run.events| && Compatible(run.states[l], run.events[l])
    requires EndsAreOver(run.states[l]) && Settling(run.states[l], id) && id.Id?
    ensures Settling(run.states[l + 1], id)
  {
    StepAt(run, l);
    OpsSoundAlways(run, l);
    CanonicalOpsAlways(run, l);
    StepSettles(run.states[l], run.events[l], run.states[l + 1], id);
  }

  /** One id through a whole run: at any time the nodes differ on it only as far as its upserts have got. */
  lemma {:induction false} SettlingLasts(run: OverlapRun, i: nat, j: nat, id: PointId)
    requires run.Valid() && run.Canonical() && i <= j < |run.states| && OnlyCompatible(run, i, j)
    requires EndsAreOver(run.states[i]) && UniformShards(run.states[i].cfg)
    requires Settling(run.states[i], id) && id.Id?
    ensures Settling(run.states[j], id)
  {
    if i < j {
      SettlingLasts(run, i, j - 1, id);
      OverLasts(run, i, j - 1);
      assert Compatible(run.states[j - 1], run.events[j - 1]);
      SettlesAt(run, j - 1, id);
    }
  }

  predicate NoneOpen(a: State) {
    forall op :: op in a.ops ==> a.ops[op].phase.Ended?
  }

  lemma FoundIsSettling(a: State, id: PointId, version: Option<Point>)
    requires NoneOpen(a) && AllFind(a, id, version)
    ensures Settling(a, id)
  {
    forall n
      ensures !BeenAt(a, n, id)
    {
    }
    assert PartlyFound(a, id, Point(id, ""), version);
  }

  lemma SettlingIsFound(a: State, id: PointId)
    requires NoneOpen(a) && Settling(a, id)
    ensures exists version :: AllFind(a, id, version)
  {
    var version, before :| PartlyFound(a, id, version, before);
    forall n
      ensures !BeenAt(a, n, id)
    {
    }
    assert AllFind(a, id, before);
  }

  /**
   Upserts may overlap in any way as long as no two of them have different versions of a number: if nodes with the
   same shards agree, and all of them acknowledge every upsert, they agree again whenever none is under way.
   */
  lemma CompatibleUpsertsKeepAgreement(run: OverlapRun, i: nat, j: nat)
    requires run.Valid() && run.Canonical() && i <= j < |run.states| && OnlyCompatible(run, i, j)
    requires EndsAreOver(run.states[i]) && NoneOpen(run.states[i])
    requires UniformShards(run.states[i].cfg) && Agreed(run.states[i].cfg, run.states[i].view)
    requires NoneOpen(run.states[j])
    ensures Agreed(run.states[j].cfg, run.states[j].view)
  {
    forall id: PointId | id.Id?
      ensures exists version :: AllFind(run.states[j], id, version)
    {
      AgreedIsFound(run.states[i], id);
      var version :| AllFind(run.states[i], id, version);
      FoundIsSettling(run.states[i], id, version);
      SettlingLasts(run, i, j, id);
      SettlingIsFound(run.states[j], id);
    }
    OverLasts(run, i, j);
    RoutingAlways(run, j);
    FoundIsAgreed(run.states[j]);
  }
}
