/** An upsert that runs alone is the single step that `Runs` takes it to be. */
module OverlapAlone {
  import opened Types
  import opened IdText
  import opened Batches
  import opened Views
  import opened IdMaps
  import opened Overlap

  /** Between its beginning at step `i` and its end at step `j` only this upsert does anything. */
  ghost predicate Alone(run: OverlapRun, i: nat, j: nat, op: OpId) {
    && run.Valid() && i < j < |run.events|
    && run.events[i].Begin? && run.events[i].op == op && run.events[j].End? && run.events[j].op == op
    && forall l :: i < l < j ==> run.events[l].Write? && run.events[l].op == op
  }

  lemma {:induction false} AloneUntil(run: OverlapRun, i: nat, j: nat, l: nat, op: OpId)
    requires Alone(run, i, j, op) && i < l <= j
    ensures run.states[l].cfg == run.states[i].cfg && op in run.states[l].ops
    ensures run.events[i].self in run.states[i].cfg.topology
    ensures var o := run.states[l].ops[op];
            o == Begun(run.states[i].cfg, run.events[i].self, run.events[i].points).(written := o.written)
  {
    StepAt(run, i);
    if l > i + 1 {
      AloneUntil(run, i, j, l - 1, op);
      StepAt(run, l - 1);
    }
  }

  /** What it inserts where, with the remotes it called in mind. */
  lemma AloneInserts(run: OverlapRun, i: nat, j: nat, l: nat, op: OpId, n: PeerId, s: ShardId, k: string)
    requires Alone(run, i, j, op) && i <= l <= j && WritesCell(run, l, n, s, k)
    ensures run.events[i].self in run.states[i].cfg.topology && n in run.states[i].cfg.topology
    ensures var cfg, self, points, id := run.states[i].cfg, run.events[i].self, run.events[i].points, run.events[l].id;
            && id in PointsMap(points) && Lands(cfg.RingOf(n), id, s, k)
            && InsertedBy(run, l, n, s, k) == PointsMap(points)[id]
            && (n != self ==> id.Id? && cfg.IsRemoteOf(n, self))
  {
    AloneUntil(run, i, j, l, op);
    StepAt(run, l);
  }

  /** So a cell is as before or has a last version of the batch; a remote's only one of a number. */
  lemma AloneTouches(run: OverlapRun, i: nat, j: nat, op: OpId, n: PeerId, s: ShardId, k: string)
    requires Alone(run, i, j, op) && HasCell(run.states[i], n, s)
    ensures HasCell(run.states[j], n, s) && run.events[i].self in run.states[i].cfg.topology
    ensures var cfg, self, points := run.states[i].cfg, run.events[i].self, run.events[i].points;
            var before, after := Get(run.states[i].view[n][s], k), Get(run.states[j].view[n][s], k);
            && OldOrVersion(cfg.RingOf(n), if n == self then PointsMap(points) else Numeric(PointsMap(points)), s, k,
                            before, after)
            && (n != self && !cfg.IsRemoteOf(n, self) ==> after == before)
  {
    AloneUntil(run, i, j, j, op);
    var l := LastInsertionCounts(run, i, j, n, s, k);
    if l != -1 {
      AloneInserts(run, i, j, l, op, n, s, k);
    }
  }

  /** What it counts as written is there at its end, if no two of its ids share a cell. */
  lemma AloneHolds(run: OverlapRun, i: nat, j: nat, op: OpId, n: PeerId, id: PointId)
    requires Alone(run, i, j, op) && CanonicalBatch(run.events[i].points) && op in run.states[j].ops
    requires (n, id) in run.states[j].ops[op].written
    ensures n in run.states[i].cfg.topology && id in PointsMap(run.events[i].points)
    ensures n in run.states[j].view
            && Holds(run.states[i].cfg.RingOf(n), run.states[j].view[n], PointsMap(run.events[i].points)[id])
  {
    AloneUntil(run, i, j, j, op);
    CanonicalVersions(run.events[i].points);
    var w := WrittenWhen(run, j, op, n, id);
    NotBefore(run, i, j, w, op);
    AloneUntil(run, i, j, w, op);
    StepAt(run, w);
    var s, k := run.states[w].cfg.RingOf(n).At(id), IntoString(id);
    var l := LastInsertionCounts(run, w, j, n, s, k);
    assert WritesCell(run, w, n, s, k);
    AloneInserts(run, i, j, l, op, n, s, k);
    KeysAreInjective(run.events[l].id, id);
  }

  lemma NotBefore(run: OverlapRun, i: nat, j: nat, w: nat, op: OpId)
    requires Alone(run, i, j, op) && w < j && run.events[w].Write? && run.events[w].op == op
    ensures i < w
  {
    StepAt(run, w);
    StepAt(run, i);
    if w <= i {
      OpStays(run, w, i, op);
    }
  }

  lemma AloneOthers(run: OverlapRun, i: nat, j: nat, op: OpId)
    requires Alone(run, i, j, op)
    ensures var cfg, self, points := run.states[i].cfg, run.events[i].self, run.events[i].points;
            && self in cfg.topology && cfg.Fits(run.states[i].view) && cfg.Fits(run.states[j].view)
            && Touched(cfg.RingOf(self), PointsMap(points), run.states[i].view[self], run.states[j].view[self])
            && OthersTouched(cfg, self, points, false, run.states[i].view, run.states[j].view)
  {
    var cfg, self, points := run.states[i].cfg, run.events[i].self, run.events[i].points;
    StepAt(run, i);
    RoutingAlways(run, j);
    AloneUntil(run, i, j, j, op);
    forall n, s, k | n in cfg.topology && s in cfg.topology[n]
      ensures OldOrVersion(cfg.RingOf(n), if n == self then PointsMap(points) else Numeric(PointsMap(points)), s, k,
                           Get(run.states[i].view[n][s], k), Get(run.states[j].view[n][s], k))
      ensures n != self && !cfg.IsRemoteOf(n, self) ==>
                Get(run.states[j].view[n][s], k) == Get(run.states[i].view[n][s], k)
    {
      AloneTouches(run, i, j, op, n, s, k);
    }
    forall n | n in cfg.topology && n != self && !cfg.IsRemoteOf(n, self)
      ensures run.states[j].view[n] == run.states[i].view[n]
    {
      SameStores(run.states[j].view[n], run.states[i].view[n]);
    }
  }

  lemma AloneAcks(run: OverlapRun, i: nat, j: nat, op: OpId)
    requires Alone(run, i, j, op) && CanonicalBatch(run.events[i].points)
    ensures run.events[i].self in run.states[i].cfg.topology
    ensures AcksHold(run.states[i].cfg, run.events[i].self, run.events[i].points, run.states[j].view,
                     run.events[j].acked)
  {
    var cfg, self, points, acked := run.states[i].cfg, run.events[i].self, run.events[i].points, run.events[j].acked;
    AloneUntil(run, i, j, j, op);
    StepAt(run, j);
    forall s, n | s in acked && n in acked[s]
      ensures s in cfg.topology[self] && n in cfg.topology[self][s]
      ensures HoldsNumeric(cfg, run.states[j].view, n, cfg.RingOf(self), s, PointsMap(points))
    {
      AckHolds(run, i, j, op, s, n);
    }
  }

  lemma AckHolds(run: OverlapRun, i: nat, j: nat, op: OpId, s: ShardId, n: PeerId)
    requires Alone(run, i, j, op) && CanonicalBatch(run.events[i].points)
    requires s in run.events[j].acked && n in run.events[j].acked[s]
    ensures run.events[i].self in run.states[i].cfg.topology
    ensures var cfg, self, points := run.states[i].cfg, run.events[i].self, run.events[i].points;
            && s in cfg.topology[self] && n in cfg.topology[self][s]
            && HoldsNumeric(cfg, run.states[j].view, n, cfg.RingOf(self), s, PointsMap(points))
  {
    var cfg, self, points := run.states[i].cfg, run.events[i].self, run.events[i].points;
    AloneUntil(run, i, j, j, op);
    StepAt(run, j);
    assert run.states[j].ops[op].AcksAreTrue(run.events[j].acked);
    forall id | id in Numeric(PointsMap(points)) && cfg.RingOf(self).At(id) == s
      ensures Holds(cfg.RingOf(n), run.states[j].view[n], PointsMap(points)[id])
    {
      AloneHolds(run, i, j, op, n, id);
    }
  }

  /** A success has left the node as writing the points one by one does. */
  lemma AloneIsAPass(run: OverlapRun, i: nat, j: nat, op: OpId)
    requires Alone(run, i, j, op) && CanonicalBatch(run.events[i].points) && run.events[j].ok
    ensures var cfg, self := run.states[i].cfg, run.events[i].self;
            && self in cfg.topology && self in run.states[i].view && self in run.states[j].view
            && run.states[j].view[self] == UpsertEach(cfg.RingOf(self), run.states[i].view[self], run.events[i].points)
  {
    var cfg, self, points := run.states[i].cfg, run.events[i].self, run.events[i].points;
    AloneOthers(run, i, j, op);
    AloneUntil(run, i, j, j, op);
    var ring, before, after := cfg.RingOf(self), run.states[i].view[self], run.states[j].view[self];
    var pass := UpsertEach(ring, before, points);
    StepAt(run, j);
    UpsertEachByShard(ring, before, points);
    CanonicalVersions(points);
    forall s, k | s in after
      ensures Get(after[s], k) == Get(pass[s], k)
    {
      UpsertEachAt(ring, before, points, s, k);
      CellAfter(ring, points, s, k);
      var last := LastAt(RoutedTo(ring, points, s), k);
      assert OldOrVersion(ring, PointsMap(points), s, k, Get(before[s], k), Get(after[s], k));
      if last.Some? {
        AloneHolds(run, i, j, op, self, last.value.id);
      }
    }
    SameStores(after, pass);
  }

  /**
   So for canonical ids an upsert during which no other step is taken is one step of `Runs`, whatever order it
   inserts in, with the outcome and the acknowledgements it ends with.
   */
  lemma AloneIsOneStep(run: OverlapRun, i: nat, j: nat, op: OpId)
    requires Alone(run, i, j, op) && CanonicalBatch(run.events[i].points)
    ensures run.states[j + 1].cfg == run.states[i].cfg
    ensures UpsertStep(run.states[i].cfg, run.events[i].self, run.events[i].points, false, run.states[i].view,
                       run.states[j + 1].view, run.events[j].ok, run.events[j].acked)
  {
    AloneUntil(run, i, j, j, op);
    StepAt(run, j);
    AloneOthers(run, i, j, op);
    AloneAcks(run, i, j, op);
    if run.events[j].ok {
      AloneIsAPass(run, i, j, op);
    }
  }
}
