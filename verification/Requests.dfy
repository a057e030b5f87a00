/** The upload's points, how they are cut into batches, and the requests that carry them. */
module Requests {
  import opened Types
  import opened Ring
  import opened Batches
  import opened Views
  import opened Failures
  import opened Effects

  function DivCeil(n: nat, d: nat): nat
    requires d > 0
  {
    n / d + if n % d > 0 then 1 else 0
  }

  /** Point `i` has id `i`; its payload is whatever was made up for it. */
  function Numbered(payloads: seq<string>): (points: seq<Point>)
    requires |payloads| <= U64_LIMIT
    ensures |points| == |payloads|
    ensures forall i :: 0 <= i < |points| ==> points[i] == Point(Id(i), payloads[i])
  {
    seq(|payloads|, i requires 0 <= i < |payloads| => Point(Id(i), payloads[i]))
  }

  function Concat(batches: seq<seq<Point>>): seq<Point> {
    if batches == [] then [] else Concat(batches[..|batches| - 1]) + batches[|batches| - 1]
  }

  lemma ConcatMore(batches: seq<seq<Point>>, batch: seq<Point>)
    ensures Concat(batches + [batch]) == Concat(batches) + batch
  {
    assert (batches + [batch])[..|batches|] == batches;
  }

  /** Where batch `k` starts. */
  function Offset(size: nat, k: nat): nat {
    if k == 0 then 0 else Offset(size, k - 1) + size
  }

  lemma {:induction false} OffsetIsProduct(size: nat, k: nat)
    ensures Offset(size, k) == k * size
  {
    if k > 0 {
      OffsetIsProduct(size, k - 1);
    }
  }

  lemma ProductInside(n: nat, q: nat, r: nat, size: nat, k: nat)
    requires n == q * size + r && r < size
    ensures k * size < n <==> k < q || (k == q && r > 0)
  {
    if k < q {
      TimesMonotone(k + 1, q, size);
      TimesOneMore(k, size);
    } else if k > q {
      TimesMonotone(q + 1, k, size);
      TimesOneMore(q, size);
    }
  }

  /** A batch starts inside the points exactly as long as there are batches left. */
  lemma OffsetInside(n: nat, size: nat, k: nat)
    requires size > 0
    ensures k < DivCeil(n, size) <==> Offset(size, k) < n
  {
    OffsetIsProduct(size, k);
    ProductInside(n, n / size, n % size, size, k);
  }

  /** What is stored after the batches, one after another. */
  function AfterAll(ring: HashRing, stores: Stores, batches: seq<seq<Point>>): Stores {
    if batches == [] then stores
    else UpsertEach(ring, AfterAll(ring, stores, batches[..|batches| - 1]), batches[|batches| - 1])
  }

  lemma AfterAllMore(ring: HashRing, stores: Stores, batches: seq<seq<Point>>, batch: seq<Point>)
    ensures AfterAll(ring, stores, batches + [batch]) == UpsertEach(ring, AfterAll(ring, stores, batches), batch)
  {
    assert (batches + [batch])[..|batches|] == batches;
  }

  /** However points are cut into batches, storing the batches is storing the points one by one. */
  lemma {:induction false} CutsDoNotMatter(ring: HashRing, stores: Stores, batches: seq<seq<Point>>)
    ensures AfterAll(ring, stores, batches) == UpsertEach(ring, stores, Concat(batches))
  {
    if batches != [] {
      CutsDoNotMatter(ring, stores, batches[..|batches| - 1]);
      UpsertEachInOrder(ring, stores, Concat(batches[..|batches| - 1]), batches[|batches| - 1]);
    }
  }

  function Batch(points: seq<Point>, size: nat, k: nat): seq<Point> {
    points[Min(Offset(size, k), |points|)..Min(Offset(size, k + 1), |points|)]
  }

  /** The first `k` batches. */
  function FirstBatches(points: seq<Point>, size: nat, k: nat): (batches: seq<seq<Point>>)
    ensures |batches| == k
    ensures forall i :: 0 <= i < k ==> batches[i] == Batch(points, size, i)
  {
    seq(k, i requires 0 <= i < k => Batch(points, size, i))
  }

  lemma FirstBatchesMore(points: seq<Point>, size: nat, k: nat)
    ensures FirstBatches(points, size, k + 1) == FirstBatches(points, size, k) + [Batch(points, size, k)]
  {
  }

  /** The points of the first `k` batches. */
  function FirstPoints(points: seq<Point>, size: nat, k: nat): seq<Point> {
    points[..Min(Offset(size, k), |points|)]
  }

  lemma FirstPointsExactly(points: seq<Point>, size: nat, k: nat)
    ensures k * size >= 0 && FirstPoints(points, size, k) == points[..Min(k * size, |points|)]
  {
    OffsetIsProduct(size, k);
  }

  lemma FirstPointsMore(points: seq<Point>, size: nat, k: nat)
    ensures FirstPoints(points, size, k) + Batch(points, size, k) == FirstPoints(points, size, k + 1)
  {
  }

  lemma ConcatNext(batches: seq<seq<Point>>, batch: seq<Point>, more: seq<seq<Point>>, first: seq<Point>,
                   next: seq<Point>)
    requires more == batches + [batch] && Concat(batches) == first && first + batch == next
    ensures Concat(more) == next
  {
    ConcatMore(batches, batch);
  }

  lemma {:induction false} BatchesCover(points: seq<Point>, size: nat, k: nat)
    ensures Concat(FirstBatches(points, size, k)) == FirstPoints(points, size, k)
  {
    if k == 0 {
      assert FirstBatches(points, size, 0) == [] && FirstPoints(points, size, 0) == [];
    } else {
      BatchesCover(points, size, k - 1);
      FirstBatchesMore(points, size, k - 1);
      FirstPointsMore(points, size, k - 1);
      ConcatNext(FirstBatches(points, size, k - 1), Batch(points, size, k - 1), FirstBatches(points, size, k),
                 FirstPoints(points, size, k - 1), FirstPoints(points, size, k));
    }
  }

  /** Exactly ceil(n / size) batches, none empty, none too long, all full but the last, are all points in order. */
  lemma BatchesExactly(points: seq<Point>, size: nat)
    requires size > 0
    ensures Concat(FirstBatches(points, size, DivCeil(|points|, size))) == points
    ensures forall i :: 0 <= i < DivCeil(|points|, size) ==>
              0 < |Batch(points, size, i)| <= size
              && (i < DivCeil(|points|, size) - 1 ==> |Batch(points, size, i)| == size)
  {
    var k := DivCeil(|points|, size);
    BatchesCover(points, size, k);
    OffsetInside(|points|, size, k);
    TakeAll(points);
    forall i | 0 <= i < k
      ensures 0 < |Batch(points, size, i)| <= size
      ensures i < k - 1 ==> |Batch(points, size, i)| == size
    {
      OffsetInside(|points|, size, i);
      OffsetInside(|points|, size, i + 1);
    }
  }

  /** Batch `k` between the bounds the upload loop computes. */
  function Slice(points: seq<Point>, size: nat, k: nat): (batch: seq<Point>)
    requires size > 0 && k < DivCeil(|points|, size)
    ensures batch == Batch(points, size, k)
  {
    OffsetInside(|points|, size, k);
    OffsetIsProduct(size, k);
    var start := k * size;
    var end := Min(start + size, |points|);
    points[start..end]
  }

  /** The requests before number `k` succeed. */
  ghost predicate RequestsSucceed(cfg: Config, usable: Usable, faults: nat -> Faults, self: PeerId, points: seq<Point>,
                                  size: nat, k: nat)
  {
    forall i :: 0 <= i < k ==> UpsertSucceeds(cfg, usable, faults(i), self, Batch(points, size, i), false)
  }

  /** The first `k` requests have succeeded, and left this stored at the node. */
  ghost predicate UploadedSoFar(cfg: Config, usable: Usable, faults: nat -> Faults, self: PeerId, points: seq<Point>,
                                size: nat, k: nat, stores: Stores, now: Stores)
  {
    && RequestsSucceed(cfg, usable, faults, self, points, size, k)
    && self in cfg.topology && now == AfterAll(cfg.RingOf(self), stores, FirstBatches(points, size, k))
  }

  lemma UploadedOneMore(cfg: Config, usable: Usable, faults: nat -> Faults, self: PeerId, points: seq<Point>,
                        size: nat, k: nat, stores: Stores, now: Stores, after: Stores)
    requires UploadedSoFar(cfg, usable, faults, self, points, size, k, stores, now)
    requires UpsertSucceeds(cfg, usable, faults(k), self, Batch(points, size, k), false)
    requires after == UpsertEach(cfg.RingOf(self), now, Batch(points, size, k))
    ensures UploadedSoFar(cfg, usable, faults, self, points, size, k + 1, stores, after)
  {
    FirstBatchesMore(points, size, k);
    AfterAllMore(cfg.RingOf(self), stores, FirstBatches(points, size, k), Batch(points, size, k));
  }

  // ---------- the requests made ----------

  ghost predicate RequestAt(cfg: Config, usable: Usable, faults: nat -> Faults, self: PeerId, points: seq<Point>,
                            size: nat, states: seq<View>, i: nat)
    requires i + 1 < |states|
  {
    RequestExactly(cfg, usable, faults(i), self, Batch(points, size, i), states[i], states[i + 1])
  }

  /** The states between the requests made: one for each batch, from the first on. */
  ghost predicate RequestsMade(cfg: Config, usable: Usable, faults: nat -> Faults, self: PeerId, points: seq<Point>,
                               size: nat, states: seq<View>)
  {
    && states != []
    && forall i :: 0 <= i < |states| - 1 ==> RequestAt(cfg, usable, faults, self, points, size, states, i)
  }

  lemma RequestsMadeMore(cfg: Config, usable: Usable, faults: nat -> Faults, self: PeerId, points: seq<Point>,
                         size: nat, states: seq<View>, after: View)
    requires RequestsMade(cfg, usable, faults, self, points, size, states)
    requires var k := |states| - 1;
             RequestExactly(cfg, usable, faults(k), self, Batch(points, size, k), states[k], after)
    ensures RequestsMade(cfg, usable, faults, self, points, size, states + [after])
  {
    var longer := states + [after];
    forall i | 0 <= i < |longer| - 1
      ensures RequestAt(cfg, usable, faults, self, points, size, longer, i)
    {
      if i < |states| - 1 {
        assert RequestAt(cfg, usable, faults, self, points, size, states, i);
      }
    }
  }

  /**
   The states between the requests made so far: the first `k` of them have succeeded, and the node has stored
   their batches; if one more was made, it has failed.
   */
  ghost predicate Sent(cfg: Config, usable: Usable, faults: nat -> Faults, self: PeerId, points: seq<Point>, size: nat,
                       k: nat, before: View, now: View, states: seq<View>)
  {
    && RequestsMade(cfg, usable, faults, self, points, size, states)
    && k < |states| && states[0] == before && states[|states| - 1] == now
    && self in before && self in states[k]
    && UploadedSoFar(cfg, usable, faults, self, points, size, k, before[self], states[k][self])
    && (|states| == k + 1
        || (|states| == k + 2 && !UpsertSucceeds(cfg, usable, faults(k), self, Batch(points, size, k), false)))
  }

  lemma SentNothing(cfg: Config, usable: Usable, faults: nat -> Faults, self: PeerId, points: seq<Point>, size: nat,
                    view: View)
    requires self in cfg.topology && self in view
    ensures Sent(cfg, usable, faults, self, points, size, 0, view, view, [view])
  {
  }

  lemma SentOneMore(cfg: Config, usable: Usable, faults: nat -> Faults, self: PeerId, points: seq<Point>, size: nat,
                    k: nat, before: View, now: View, states: seq<View>, after: View, ok: bool)
    requires Sent(cfg, usable, faults, self, points, size, k, before, now, states) && |states| == k + 1
    requires RequestExactly(cfg, usable, faults(k), self, Batch(points, size, k), now, after) && self in after
    requires ok <==> UpsertSucceeds(cfg, usable, faults(k), self, Batch(points, size, k), false)
    requires ok ==> after[self] == UpsertEach(cfg.RingOf(self), now[self], Batch(points, size, k))
    ensures Sent(cfg, usable, faults, self, points, size, if ok then k + 1 else k, before, after, states + [after])
  {
    RequestsMadeMore(cfg, usable, faults, self, points, size, states, after);
    if ok {
      UploadedOneMore(cfg, usable, faults, self, points, size, k, before[self], now[self], after[self]);
    }
  }

  /** However an upload ends, the batches sent with success have stored their points, which are the first ones. */
  lemma UploadKeepsWhatItSent(cfg: Config, usable: Usable, faults: nat -> Faults, self: PeerId, points: seq<Point>,
                              size: nat, k: nat, before: View, now: View, states: seq<View>)
    requires Sent(cfg, usable, faults, self, points, size, k, before, now, states)
    ensures states[k][self] == UpsertEach(cfg.RingOf(self), before[self], FirstPoints(points, size, k))
  {
    CutsDoNotMatter(cfg.RingOf(self), before[self], FirstBatches(points, size, k));
    BatchesCover(points, size, k);
  }

  /** So a successful upload leaves what storing the points one by one, in order, leaves. */
  lemma UploadStoresAll(ring: HashRing, stores: Stores, points: seq<Point>, size: nat)
    requires size > 0
    ensures AfterAll(ring, stores, FirstBatches(points, size, DivCeil(|points|, size))) ==
            UpsertEach(ring, stores, points)
  {
    BatchesExactly(points, size);
    CutsDoNotMatter(ring, stores, FirstBatches(points, size, DivCeil(|points|, size)));
  }
}
