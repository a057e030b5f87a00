/** Runs written down step by step, for examples. */
module RunBuilding {
  import opened Types
  import opened IdText
  import opened Batches
  import opened Views
  import opened Runs

  function LastOf(run: Run): System
    requires run.states != []
  {
    run.states[|run.states| - 1]
  }

  /** The run ends with this step. */
  ghost predicate EndsWith(run: Run, a: System, e: Event, b: System) {
    && |run.states| == |run.events| + 1 && run.events != []
    && run.states[|run.events| - 1] == a && run.events[|run.events| - 1] == e && run.states[|run.events|] == b
  }

  /** The run with one more step. */
  lemma Extended(run: Run, e: Event, b: System) returns (longer: Run)
    requires run.Valid() && run.Canonical() && Step(LastOf(run), e, b) && CanonicalEvent(e)
    ensures longer.Valid() && longer.Canonical() && LastOf(longer) == b && EndsWith(longer, LastOf(run), e, b)
    ensures longer.events == run.events + [e] && longer.states == run.states + [b]
  {
    longer := Run(run.states + [b], run.events + [e]);
    forall i | 0 <= i < |longer.events|
      ensures Step(longer.states[i], longer.events[i], longer.states[i + 1])
      ensures CanonicalEvent(longer.events[i])
    {
      if i < |run.events| {
        assert longer.states[i] == run.states[i] && longer.events[i] == run.events[i]
               && longer.states[i + 1] == run.states[i + 1];
      }
    }
  }

  function Put(stores: Stores, s: ShardId, p: Point): Stores
    requires s in stores
  {
    stores[s := stores[s][IntoString(p.id) := p]]
  }

  /** An upsert of one point at a node without remotes. */
  lemma LonePut(a: System, self: PeerId, p: Point) returns (e: Event, b: System)
    requires a.cfg.Fits(a.view) && self in a.cfg.topology && a.cfg.topology[self].Keys != {}
    requires forall s :: s in a.cfg.topology[self] ==> a.cfg.topology[self][s] == []
    ensures e.Upsert? && e.self == self && e.points == [p] && e.ok && Step(a, e, b)
    ensures b.cfg == a.cfg && b.cfg.Fits(b.view)
    ensures var s := a.cfg.RingOf(self).At(p.id);
            s in a.view[self] && b.view == a.view[self := Put(a.view[self], s, p)]
  {
    var ring := a.cfg.RingOf(self);
    var s := ring.At(p.id);
    assert [p][..|[p]| - 1] == [] && UpsertEach(ring, a.view[self], []) == a.view[self];
    var after := UpsertEach(ring, a.view[self], [p]);
    e := Upsert(self, [p], true, map[s := {}]);
    b := System(a.cfg, a.view[self := after]);
    UpsertEachTouches(ring, a.view[self], [p]);
    assert after == Put(a.view[self], s, p);
    assert ShardsOf(ring, [p]) == {s};
    assert UpsertStep(a.cfg, self, [p], false, a.view, b.view, true, map[s := {}]);
  }

  /** The run with one more upsert of one point. */
  lemma ExtendedByPut(run: Run, self: PeerId, p: Point) returns (longer: Run, e: Event)
    requires run.Valid() && run.Canonical() && Canonical(p.id)
    requires var a := LastOf(run);
             && a.cfg.Fits(a.view) && self in a.cfg.topology && a.cfg.topology[self].Keys != {}
             && forall s :: s in a.cfg.topology[self] ==> a.cfg.topology[self][s] == []
    ensures longer.Valid() && longer.Canonical() && e.Upsert? && e.self == self && e.points == [p] && e.ok
    ensures longer.events == run.events + [e] && longer.states == run.states + [LastOf(longer)]
    ensures var a := LastOf(run);
            var s := a.cfg.RingOf(self).At(p.id);
            s in a.view[self] && LastOf(longer) == System(a.cfg, a.view[self := Put(a.view[self], s, p)])
  {
    var after;
    e, after := LonePut(LastOf(run), self, p);
    longer := Extended(run, e, after);
  }
}
