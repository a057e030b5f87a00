/** What clients can rely on when upserts overlap. */
module OverlapLaws {
  import opened Types
  import opened IdText
  import opened Batches
  import opened Views
  import opened IdMaps
  import opened Overlap
  import Runs

  /** The collection as a listing finds it. */
  function Seen(a: State): Runs.System {
    Runs.System(a.cfg, a.view)
  }

  // ---------- ids stay ----------

  lemma StepKeepsKnown(run: OverlapRun, i: nat, n: PeerId, s: ShardId, id: PointId)
    requires run.Valid() && run.Canonical() && i < |run.events| && HasCell(run.states[i], n, s)
    requires Canonical(id) && Runs.Known(Seen(run.states[i]), n, s, id)
    ensures HasCell(run.states[i + 1], n, s) && Runs.Known(Seen(run.states[i + 1]), n, s, id)
  {
    var k := IntoString(id);
    StepAtCell(run, i, n, s, k);
    if WritesCell(run, i, n, s, k) {
      OnlyItsOwnId(run, i, n, s, id);
    }
  }

  /** What is inserted into the cell of a canonical id is a version of that id. */
  lemma OnlyItsOwnId(run: OverlapRun, l: nat, n: PeerId, s: ShardId, id: PointId)
    requires run.Valid() && run.Canonical() && Canonical(id) && WritesCell(run, l, n, s, IntoString(id))
    ensures InsertedBy(run, l, n, s, IntoString(id)).id == id && run.events[l].id == id
  {
    CanonicalOpsAlways(run, l);
    var points := run.states[l].ops[run.events[l].op].points;
    CanonicalVersions(points);
    KeysAreInjective(run.events[l].id, id);
  }

  /** An id, once stored, stays, however upserts overlap. */
  lemma {:induction false} KnownAlways(run: OverlapRun, i: nat, j: nat, n: PeerId, s: ShardId, id: PointId)
    requires run.Valid() && run.Canonical() && i <= j < |run.states| && HasCell(run.states[i], n, s)
    requires Canonical(id) && Runs.Known(Seen(run.states[i]), n, s, id)
    ensures HasCell(run.states[j], n, s) && Runs.Known(Seen(run.states[j]), n, s, id)
  {
    if i < j {
      KnownAlways(run, i, j - 1, n, s, id);
      StepKeepsKnown(run, j - 1, n, s, id);
    }
  }

  // ---------- texts ----------

  /** A cell that is new to a node came when it started. */
  lemma NewCell(run: OverlapRun, i: nat, n: PeerId, s: ShardId)
    requires run.Valid() && i < |run.events| && HasCell(run.states[i + 1], n, s) && !HasCell(run.states[i], n, s)
    ensures var e := run.events[i];
            e.Start? && e.node == n && s in e.stores && e.stores[s] == run.states[i + 1].view[n][s]
  {
    StepAt(run, i);
  }

  /** A text is only inserted by an upsert at its own node. */
  lemma TextInserted(run: OverlapRun, i: nat, n: PeerId, s: ShardId, k: string)
    requires run.Valid() && WritesCell(run, i, n, s, k) && InsertedBy(run, i, n, s, k).id.Uuid?
    ensures var o := run.states[i].ops[run.events[i].op];
            o.self == n && InsertedBy(run, i, n, s, k) in o.points
  {
    StepAt(run, i);
    PointsMapIds(run.states[i].ops[run.events[i].op].points);
  }

  /** A point with a text id is stored only on nodes that run an upsert with it, or had it when they started. */
  lemma {:induction false} TextIdsStayHome(run: OverlapRun, i: nat, n: PeerId, s: ShardId, k: string) returns (j: nat)
    requires run.Valid() && i < |run.states| && HasCell(run.states[i], n, s) && k in run.states[i].view[n][s]
    requires run.states[i].view[n][s][k].id.Uuid?
    ensures j < i
    ensures var e, p := run.events[j], run.states[i].view[n][s][k];
            || (e.Write? && e.n == n && e.op in run.states[j].ops
                && run.states[j].ops[e.op].self == n && p in run.states[j].ops[e.op].points)
            || (e.Start? && e.node == n && s in e.stores && Get(e.stores[s], k) == Some(p))
  {
    if !HasCell(run.states[i - 1], n, s) {
      NewCell(run, i - 1, n, s);
      j := i - 1;
    } else {
      StepAtCell(run, i - 1, n, s, k);
      if WritesCell(run, i - 1, n, s, k) {
        TextInserted(run, i - 1, n, s, k);
        j := i - 1;
      } else {
        j := TextIdsStayHome(run, i - 1, n, s, k);
      }
    }
  }

  // ---------- acknowledgements ----------

  /** The upsert has ended, and node `n` is the one that ran it with success, or acknowledged the shard of the id. */
  predicate Acknowledged(a: State, op: OpId, n: PeerId, id: PointId) {
    && op in a.ops && a.ops[op].phase.Ended? && id in PointsMap(a.ops[op].points) && id.Id?
    && var o := a.ops[op];
       if n == o.self then o.phase.ok
       else o.ring.At(id) in o.phase.acked && n in o.phase.acked[o.ring.At(id)]
  }

  ghost predicate EndsAreTrue(a: State) {
    forall op :: op in a.ops && a.ops[op].phase.Ended? ==>
      a.ops[op].AcksAreTrue(a.ops[op].phase.acked) && (a.ops[op].phase.ok ==> a.ops[op].Complete(a.ops[op].phase.acked))
  }

  lemma StepKeepsEnds(a: State, e: Event, b: State)
    requires EndsAreTrue(a) && Step(a, e, b)
    ensures EndsAreTrue(b)
  {
    forall op | op in b.ops && b.ops[op].phase.Ended?
      ensures b.ops[op].AcksAreTrue(b.ops[op].phase.acked)
      ensures b.ops[op].phase.ok ==> b.ops[op].Complete(b.ops[op].phase.acked)
    {
      if a.ops[op].phase.Ended? {
        assert a.ops[op].AcksAreTrue(a.ops[op].phase.acked);
      }
    }
  }

  lemma {:induction false} EndsAreTrueAlways(run: OverlapRun, i: nat)
    requires run.Valid() && i < |run.states|
    ensures EndsAreTrue(run.states[i])
  {
    if i > 0 {
      EndsAreTrueAlways(run, i - 1);
      StepAt(run, i - 1);
      StepKeepsEnds(run.states[i - 1], run.events[i - 1], run.states[i]);
    }
  }

  /** Whoever acknowledged an id had inserted this upsert's version of it by then. */
  lemma AcknowledgedIsInserted(run: OverlapRun, i: nat, op: OpId, n: PeerId, id: PointId) returns (l: nat)
    requires run.Valid() && i < |run.states| && Acknowledged(run.states[i], op, n, id)
    ensures l < i && run.events[l] == Write(op, n, id) && n in run.states[l].cfg.topology
    ensures var s := run.states[l].cfg.RingOf(n).At(id);
            && HasCell(run.states[l], n, s) && HasCell(run.states[l + 1], n, s)
            && WritesCell(run, l, n, s, IntoString(id))
            && InsertedBy(run, l, n, s, IntoString(id)) == PointsMap(run.states[i].ops[op].points)[id]
  {
    EndsAreTrueAlways(run, i);
    l := WrittenWhen(run, i, op, n, id);
    StepAt(run, l);
    StepAtCell(run, l, n, run.states[l].cfg.RingOf(n).At(id), IntoString(id));
  }

  /**
   What such a node holds in the id's cell, at any time after: what the last insertion there put, and that is
   this upsert's or a later one. So an acknowledged version is only ever replaced by one that was inserted
   after it, of an upsert that overlapped with this one or came later.
   */
  lemma AcknowledgedOrLater(run: OverlapRun, i: nat, j: nat, op: OpId, n: PeerId, id: PointId)
    returns (s: ShardId, l: nat, last: nat)
    requires run.Valid() && i <= j < |run.states| && Acknowledged(run.states[i], op, n, id)
    ensures l < i && run.events[l] == Write(op, n, id) && l <= last < j && HasCell(run.states[j], n, s)
    ensures n in run.states[l].cfg.topology && s == run.states[l].cfg.RingOf(n).At(id)
    ensures WritesCell(run, last, n, s, IntoString(id))
    ensures forall m :: last < m < j ==> !WritesCell(run, m, n, s, IntoString(id))
    ensures Get(run.states[j].view[n][s], IntoString(id)) == Some(InsertedBy(run, last, n, s, IntoString(id)))
    ensures last == l ==> InsertedBy(run, last, n, s, IntoString(id)) == PointsMap(run.states[i].ops[op].points)[id]
  {
    l := AcknowledgedIsInserted(run, i, op, n, id);
    s := run.states[l].cfg.RingOf(n).At(id);
    var w := LastInsertionCounts(run, l, j, n, s, IntoString(id));
    assert w != -1;
    last := w;
  }

  /** For canonical ids that is a version of the same id, so the node has it from then on. */
  lemma AcknowledgedIsKnown(run: OverlapRun, i: nat, j: nat, op: OpId, n: PeerId, id: PointId) returns (s: ShardId)
    requires run.Valid() && run.Canonical() && i <= j < |run.states| && Acknowledged(run.states[i], op, n, id)
    ensures HasCell(run.states[j], n, s) && Runs.Known(Seen(run.states[j]), n, s, id)
    ensures n in run.states[i].cfg.topology && s == run.states[i].cfg.RingOf(n).At(id)
  {
    var l, last;
    s, l, last := AcknowledgedOrLater(run, i, j, op, n, id);
    OnlyItsOwnId(run, last, n, s, id);
    RingLasts(run, l, i, n);
  }

  /** The quorum of a successful upsert: enough different nodes that acknowledged the id, each of which keeps it. */
  lemma QuorumAlways(run: OverlapRun, i: nat, op: OpId, id: PointId) returns (nodes: set<PeerId>)
    requires run.Valid() && i < |run.states| && op in run.states[i].ops
    requires run.states[i].ops[op].phase.Ended? && run.states[i].ops[op].phase.ok
    requires id in PointsMap(run.states[i].ops[op].points) && id.Id?
    ensures var o := run.states[i].ops[op];
            var s := o.ring.At(id);
            && s in o.remotes && |nodes| >= Min(|o.remotes[s]| + 1, DEFAULT_CONSISTENCY_FACTOR)
    ensures forall n :: n in nodes ==> Acknowledged(run.states[i], op, n, id)
  {
    EndsAreTrueAlways(run, i);
    OpsSoundAlways(run, i);
    var o := run.states[i].ops[op];
    PointsMapIds(o.points);
    assert o.Version(id) in o.points;
    assert o.ring.At(id) in ShardsOf(o.ring, o.points);
    AddedOne(o.phase.acked[o.ring.At(id)], o.self);
    nodes := o.phase.acked[o.ring.At(id)] + {o.self};
  }

  /**
   Once an upsert has succeeded, every later full listing has each of its numeric ids, at any node that
   acknowledged it or has one that did among its remotes for the shard, however upserts overlap, then and since.
   */
  lemma AcknowledgedIsListed(run: OverlapRun, i: nat, j: nat, op: OpId, m: PeerId, n: PeerId, id: PointId,
                             listing: seq<Point>)
    requires run.Valid() && run.Canonical() && i <= j < |run.states| && Acknowledged(run.states[i], op, n, id)
    requires ListStep(run.states[j].cfg, m, None, false, run.states[j].view, listing)
    requires n in run.states[i].cfg.topology && m in run.states[j].cfg.topology
    requires var remotes, s := run.states[j].cfg.topology[m], run.states[i].cfg.RingOf(n).At(id);
             s in remotes && (n == m || n in remotes[s])
    ensures HasId(listing, id)
  {
    var s := AcknowledgedIsKnown(run, i, j, op, n, id);
    Runs.AskedAndKnownIsListed(Seen(run.states[j]), m, n, s, id, listing);
  }
}
