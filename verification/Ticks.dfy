/**
 The receiver loop of the consensus thread: how the time left until the next tick is kept while messages
 come in. Times are durations in nanoseconds; the clock's readings are inputs.
 */
module Ticks {
  import opened Types

  /** 100 milliseconds. */
  const RAFT_TICK_INTERVAL: nat := 100_000_000

  datatype Arrival =
    | Propose(id: nat)
    | Raft
    | TimedOut
    | Disconnected

  /** What ended a wait, and the time measured since the last reading of the clock. */
  datatype Wait = Wait(arrival: Arrival, elapsed: nat)

  /** `sinceTick` is the time measured since the last tick, or since the start. */
  datatype Clock = Clock(timeout: nat, ticks: nat, sinceTick: nat, total: nat)

  const START := Clock(RAFT_TICK_INTERVAL, 0, 0, 0)

  function Advance(c: Clock, d: nat): Clock {
    if d >= c.timeout then Clock(RAFT_TICK_INTERVAL, c.ticks + 1, 0, c.total + d)
    else Clock(c.timeout - d, c.ticks, c.sinceTick + d, c.total + d)
  }

  function After(gaps: seq<nat>): Clock {
    if gaps == [] then START else Advance(After(gaps[..|gaps| - 1]), gaps[|gaps| - 1])
  }

  // ---------- measured time ----------

  /** The time measured by all of the waits. */
  function Sum(gaps: seq<nat>): nat {
    if gaps == [] then 0 else gaps[0] + Sum(gaps[1..])
  }

  lemma {:induction false} SumMore(gaps: seq<nat>, d: nat)
    ensures Sum(gaps + [d]) == Sum(gaps) + d
  {
    if gaps == [] {
      assert [d][1..] == [] && gaps + [d] == [d];
    } else {
      SumMore(gaps[1..], d);
      assert (gaps + [d])[1..] == gaps[1..] + [d];
    }
  }

  lemma AfterMore(gaps: seq<nat>, d: nat)
    ensures After(gaps + [d]) == Advance(After(gaps), d)
  {
    assert (gaps + [d])[..|gaps|] == gaps;
  }

  /** The clock's total is the time measured. */
  lemma {:induction false} TotalIsMeasured(gaps: seq<nat>)
    ensures After(gaps).total == Sum(gaps)
  {
    if gaps != [] {
      var init, d := gaps[..|gaps| - 1], gaps[|gaps| - 1];
      TotalIsMeasured(init);
      SumMore(init, d);
      assert gaps == init + [d];
    }
  }

  /** The last tick came with wait number `k`, and there was none if `k` is 0. */
  ghost predicate LastTickAt(gaps: seq<nat>, k: nat) {
    && k <= |gaps|
    && (k > 0 ==> After(gaps[..k]).ticks == After(gaps[..k - 1]).ticks + 1)
    && forall j :: k <= j <= |gaps| ==> After(gaps[..j]).ticks == After(gaps).ticks
  }

  lemma LastTickEarlier(gaps: seq<nat>, d: nat, k: nat)
    requires LastTickAt(gaps + [d], k) && k <= |gaps|
    ensures LastTickAt(gaps, k) && After(gaps).ticks == After(gaps + [d]).ticks
  {
    assert (gaps + [d])[..|gaps|] == gaps;
    forall j | 0 <= j <= |gaps|
      ensures (gaps + [d])[..j] == gaps[..j]
    {
    }
  }

  /** The time it counts since its last tick is what the waits since then measured. */
  lemma {:induction false} SinceTickIsMeasured(gaps: seq<nat>, k: nat)
    requires LastTickAt(gaps, k)
    ensures After(gaps).sinceTick == Sum(gaps[k..])
    ensures k == 0 ==> After(gaps).ticks == 0
  {
    TakeAll(gaps);
    if gaps != [] {
      var init, d := gaps[..|gaps| - 1], gaps[|gaps| - 1];
      assert gaps == init + [d];
      if k == |gaps| {
        assert gaps[..k - 1] == init && gaps[k..] == [];
      } else {
        LastTickEarlier(init, d, k);
        SinceTickIsMeasured(init, k);
        assert gaps[k..] == init[k..] + [d];
        SumMore(init[k..], d);
      }
    }
  }

  lemma {:induction false} LastTickExists(gaps: seq<nat>) returns (k: nat)
    ensures LastTickAt(gaps, k)
  {
    TakeAll(gaps);
    if gaps == [] {
      k := 0;
    } else {
      var init, d := gaps[..|gaps| - 1], gaps[|gaps| - 1];
      assert gaps == init + [d];
      if After(gaps).ticks == After(init).ticks {
        k := LastTickExists(init);
        forall j | 0 <= j <= |init|
          ensures gaps[..j] == init[..j]
        {
        }
      } else {
        k := |gaps|;
      }
    }
  }

  // ---------- the ticks ----------

  /** Each wait ran past the time left by no more than `late`. */
  predicate LateByAtMost(gaps: seq<nat>, late: nat) {
    forall i :: 0 <= i < |gaps| ==> gaps[i] <= After(gaps[..i]).timeout + late
  }

  lemma {:induction false} ClockAddsUp(gaps: seq<nat>)
    ensures 0 < After(gaps).timeout <= RAFT_TICK_INTERVAL
    ensures After(gaps).sinceTick + After(gaps).timeout == RAFT_TICK_INTERVAL
  {
    if gaps != [] {
      ClockAddsUp(gaps[..|gaps| - 1]);
    }
  }

  /**
   The time left is exactly 100 milliseconds less what has been measured since the last tick, however that time
   was cut up by messages; it is never zero.
   */
  lemma TimeLeftIsExact(gaps: seq<nat>, k: nat)
    requires LastTickAt(gaps, k)
    ensures Sum(gaps[k..]) < 100_000_000 && After(gaps).timeout == 100_000_000 - Sum(gaps[k..])
  {
    SinceTickIsMeasured(gaps, k);
    ClockAddsUp(gaps);
  }

  lemma {:induction false} TicksWithinTotal(gaps: seq<nat>)
    ensures RAFT_TICK_INTERVAL * After(gaps).ticks + (RAFT_TICK_INTERVAL - After(gaps).timeout) <= After(gaps).total
  {
    if gaps != [] {
      TicksWithinTotal(gaps[..|gaps| - 1]);
      ClockAddsUp(gaps[..|gaps| - 1]);
    }
  }

  /** Ticks come no faster than one in 100 milliseconds. */
  lemma TicksAreNotEarly(gaps: seq<nat>)
    ensures 100_000_000 * After(gaps).ticks <= Sum(gaps)
  {
    TicksWithinTotal(gaps);
    ClockAddsUp(gaps);
    TotalIsMeasured(gaps);
  }

  lemma PrefixLate(gaps: seq<nat>, late: nat)
    requires gaps != [] && LateByAtMost(gaps, late)
    ensures LateByAtMost(gaps[..|gaps| - 1], late)
    ensures gaps[|gaps| - 1] <= After(gaps[..|gaps| - 1]).timeout + late
  {
    var init := gaps[..|gaps| - 1];
    forall i | 0 <= i < |init|
      ensures init[i] <= After(init[..i]).timeout + late
    {
      assert init[..i] == gaps[..i] && init[i] == gaps[i];
    }
  }

  /** What the ticks so far, each late by at most `late`, account for. */
  predicate Accounted(c: Clock, late: nat) {
    0 < c.timeout <= RAFT_TICK_INTERVAL
    && c.total <= c.ticks * (RAFT_TICK_INTERVAL + late) + (RAFT_TICK_INTERVAL - c.timeout)
  }

  lemma AdvanceAccounted(c: Clock, d: nat, late: nat)
    requires Accounted(c, late) && d <= c.timeout + late
    ensures Accounted(Advance(c, d), late)
  {
    TimesOneMore(c.ticks, RAFT_TICK_INTERVAL + late);
  }

  lemma {:induction false} AlwaysAccounted(gaps: seq<nat>, late: nat)
    requires LateByAtMost(gaps, late)
    ensures Accounted(After(gaps), late)
  {
    if gaps != [] {
      PrefixLate(gaps, late);
      AlwaysAccounted(gaps[..|gaps| - 1], late);
      AdvanceAccounted(After(gaps[..|gaps| - 1]), gaps[|gaps| - 1], late);
    }
  }

  lemma AccountedWithin(c: Clock, late: nat)
    requires Accounted(c, late)
    ensures c.total < (c.ticks + 1) * (RAFT_TICK_INTERVAL + late)
  {
    TimesOneMore(c.ticks, RAFT_TICK_INTERVAL + late);
  }

  lemma TotalWithinTicks(gaps: seq<nat>, late: nat)
    requires LateByAtMost(gaps, late)
    ensures After(gaps).total < (After(gaps).ticks + 1) * (RAFT_TICK_INTERVAL + late)
  {
    AlwaysAccounted(gaps, late);
    AccountedWithin(After(gaps), late);
  }

  /** Nor do messages, however many, starve them: each interval costs at most the lateness of its waits. */
  lemma TicksAreNotStarved(gaps: seq<nat>, late: nat)
    requires LateByAtMost(gaps, late)
    ensures Sum(gaps) < (After(gaps).ticks + 1) * (100_000_000 + late)
  {
    TotalWithinTicks(gaps, late);
    TotalIsMeasured(gaps);
  }

  /**
   A tick comes exactly when 100 milliseconds have been measured since the last one, and never two at once; if
   waits run over by at most `late`, it comes at most that much later.
   */
  lemma TickAfterTheInterval(gaps: seq<nat>, d: nat, k: nat)
    requires LastTickAt(gaps, k)
    ensures After([]).ticks == 0
    ensures After(gaps + [d]).ticks == After(gaps).ticks + if Sum(gaps[k..]) + d >= 100_000_000 then 1 else 0
    ensures forall late: nat :: LateByAtMost(gaps + [d], late) ==> Sum(gaps[k..]) + d <= 100_000_000 + late
  {
    TimeLeftIsExact(gaps, k);
    AfterMore(gaps, d);
    forall late: nat | LateByAtMost(gaps + [d], late)
      ensures Sum(gaps[k..]) + d <= 100_000_000 + late
    {
      PrefixLate(gaps + [d], late);
      assert (gaps + [d])[..|gaps|] == gaps;
    }
  }

  // ---------- the loop ----------

  /** The waits up to the disconnection, if there is one. */
  function Connected(waits: seq<Wait>): seq<Wait> {
    if waits == [] || waits[0].arrival.Disconnected? then [] else [waits[0]] + Connected(waits[1..])
  }

  lemma {:induction false} ConnectedUpTo(waits: seq<Wait>, n: nat)
    requires n <= |waits| && forall i :: 0 <= i < n ==> !waits[i].arrival.Disconnected?
    requires n == |waits| || waits[n].arrival.Disconnected?
    ensures Connected(waits) == waits[..n]
  {
    if n > 0 {
      ConnectedUpTo(waits[1..], n - 1);
      assert waits[..n] == [waits[0]] + waits[1..][..n - 1];
    } else {
      assert waits[..0] == [];
    }
  }

  /** The times measured by the waits. */
  function Gaps(waits: seq<Wait>): (gaps: seq<nat>)
    ensures |gaps| == |waits|
    ensures forall i :: 0 <= i < |gaps| ==> gaps[i] == waits[i].elapsed
  {
    seq(|waits|, i requires 0 <= i < |waits| => waits[i].elapsed)
  }

  /** The ids proposed, each with the position of its last proposal. */
  function Callbacks(waits: seq<Wait>): map<nat, nat> {
    if waits == [] then map[]
    else
      var before := Callbacks(waits[..|waits| - 1]);
      var last := waits[|waits| - 1].arrival;
      if last.Propose? then before[last.id := |waits| - 1] else before
  }

  /** A callback is kept for exactly the ids proposed, that of the last proposal. */
  lemma {:induction false} CallbacksExactly(waits: seq<Wait>, id: nat, i: nat)
    ensures Get(Callbacks(waits), id) == Some(i) <==>
            i < |waits| && waits[i].arrival == Propose(id)
            && forall j :: i < j < |waits| ==> waits[j].arrival != Propose(id)
  {
    if waits != [] {
      CallbacksExactly(waits[..|waits| - 1], id, i);
    }
  }

  /** The loop, over the waits the receiver goes through; only a disconnection ends it before they do. */
  method RunReceiverLoop(waits: seq<Wait>) returns (timeout: nat, ticks: nat, callbacks: map<nat, nat>)
    ensures var c := After(Gaps(Connected(waits))); timeout == c.timeout && ticks == c.ticks
    ensures callbacks == Callbacks(Connected(waits))
    ensures 0 < timeout <= RAFT_TICK_INTERVAL
  {
    timeout, ticks, callbacks := RAFT_TICK_INTERVAL, 0, map[];
    var i := 0;
    while i < |waits|
      invariant 0 <= i <= |waits| && forall j :: 0 <= j < i ==> !waits[j].arrival.Disconnected?
      invariant timeout == After(Gaps(waits[..i])).timeout && ticks == After(Gaps(waits[..i])).ticks
      invariant callbacks == Callbacks(waits[..i])
    {
      match waits[i].arrival {
        case Propose(id) => callbacks := callbacks[id := i];
        case Raft =>
        case TimedOut =>
        case Disconnected => break;
      }
      var d := waits[i].elapsed;
      if d >= timeout {
        timeout, ticks := RAFT_TICK_INTERVAL, ticks + 1;
      } else {
        timeout := timeout - d;
      }
      assert waits[..i + 1][..i] == waits[..i];
      assert Gaps(waits[..i + 1])[..i] == Gaps(waits[..i]);
      i := i + 1;
    }
    ConnectedUpTo(waits, i);
    ClockAddsUp(Gaps(Connected(waits)));
  }
}
