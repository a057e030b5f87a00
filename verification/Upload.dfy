/** Uploading numbered points in batches, and what a listing shows afterwards. */
module Upload {
  import opened Types
  import opened IdText
  import opened IdOrder
  import opened Ring
  import opened Batches
  import opened Segments
  import opened Views
  import opened IdMaps
  import opened Failures
  import opened Effects
  import opened Requests
  import opened Collections
  import Reads

  lemma TouchedStaysKeyed(ring: HashRing, versions: Versions, before: Stores, after: Stores)
    requires forall id :: id in versions ==> versions[id].id == id
    requires Touched(ring, versions, before, after) && forall s :: s in before ==> WellKeyed(before[s])
    ensures forall s :: s in after ==> WellKeyed(after[s])
  {
    forall s, k | s in after && k in after[s]
      ensures IntoString(after[s][k].id) == k
    {
      assert WellKeyed(before[s]);
      assert OldOrVersion(ring, versions, s, k, Get(before[s], k), Get(after[s], k));
    }
  }

  /** No upsert, failed or not, puts a point under a key that is not its own. */
  lemma UpsertKeepsKeyed(cfg: Config, self: PeerId, points: seq<Point>, localOnly: bool, before: View, after: View,
                         ok: bool, acked: map<ShardId, set<PeerId>>)
    requires UpsertStep(cfg, self, points, localOnly, before, after, ok, acked) && Keyed(before)
    ensures Keyed(after)
  {
    PointsMapIds(points);
    forall n | n in after
      ensures forall s :: s in after[n] ==> WellKeyed(after[n][s])
    {
      assert n in cfg.topology && forall s :: s in before[n] ==> WellKeyed(before[n][s]);
      if n == self {
        TouchedStaysKeyed(cfg.RingOf(n), PointsMap(points), before[n], after[n]);
      } else if !localOnly && cfg.IsRemoteOf(n, self) {
        TouchedStaysKeyed(cfg.RingOf(n), Numeric(PointsMap(points)), before[n], after[n]);
      }
    }
  }

  /** One upload request: the server runs it as an upsert that fans out. */
  method PutPoints(net: Net, self: PeerId, points: seq<Point>, faults: Faults) returns (r: Result<()>)
    requires self in net.holders && Keyed(ViewOf(net))
    modifies net.Footprint()
    ensures r.Ok? ==> ViewOf(net)[self] == UpsertEach(net.Configured().RingOf(self), old(ViewOf(net))[self], points)
    ensures r.Ok? <==> UpsertSucceeds(net.Configured(), net.UsableShards(), faults, self, points, false)
    ensures RequestExactly(net.Configured(), net.UsableShards(), faults, self, points, old(ViewOf(net)), ViewOf(net))
    ensures Keyed(ViewOf(net))
  {
    var calls;
    ghost var acked, trail;
    ghost var before := ViewOf(net);
    r, calls, acked, trail := UpsertPoints(net, self, points, false, faults);
    UpsertKeepsKeyed(net.Configured(), self, points, false, before, ViewOf(net), r.Ok?, acked);
  }

  /** Sends batch `k`; `more` adds the state it leaves to the states so far. */
  method SendBatch(net: Net, self: PeerId, points: seq<Point>, size: nat, k: nat, faults: nat -> Faults,
                   ghost before: View, ghost states: seq<View>)
    returns (r: Result<()>, ghost more: seq<View>)
    requires self in net.holders && size > 0 && k < DivCeil(|points|, size) && Keyed(ViewOf(net))
    requires Sent(net.Configured(), net.UsableShards(), faults, self, points, size, k, before, ViewOf(net), states)
    requires |states| == k + 1
    modifies net.Footprint()
    ensures Keyed(ViewOf(net))
    ensures r.Ok? <==>
            UpsertSucceeds(net.Configured(), net.UsableShards(), faults(k), self, Batch(points, size, k), false)
    ensures |more| == k + 2
    ensures Sent(net.Configured(), net.UsableShards(), faults, self, points, size, if r.Ok? then k + 1 else k, before,
                 ViewOf(net), more)
  {
    ghost var now := ViewOf(net);
    r := PutPoints(net, self, Slice(points, size, k), faults(k));
    more := states + [ViewOf(net)];
    SentOneMore(net.Configured(), net.UsableShards(), faults, self, points, size, k, before, now, states, ViewOf(net),
                r.Ok?);
  }

  /**
   The upload loop, with the faults that meet each request. It succeeds exactly if every request does, having
   sent every batch, and the node has then stored every point in order of its number. The first failed request
   ends it: `states` are the states between the requests made, so nothing is sent after it.
   */
  method UploadPoints(net: Net, self: PeerId, payloads: seq<string>, size: nat, faults: nat -> Faults)
    returns (r: Result<nat>, ghost sent: nat, ghost states: seq<View>)
    requires self in net.holders && size > 0 && |payloads| + size <= U64_LIMIT
    requires Keyed(ViewOf(net))
    modifies net.Footprint()
    ensures sent <= DivCeil(|payloads|, size) && (r.Ok? <==> sent == DivCeil(|payloads|, size))
    ensures r.Ok? ==> r.value == sent
    ensures Sent(net.Configured(), net.UsableShards(), faults, self, Numbered(payloads), size, sent,
                 old(ViewOf(net)), ViewOf(net), states)
    ensures |states| == if r.Ok? then sent + 1 else sent + 2
    ensures Keyed(ViewOf(net))
  {
    ghost var before := ViewOf(net);
    var points := Numbered(payloads);
    var numBatches := DivCeil(|points|, size);
    sent, states := 0, [before];
    SentNothing(net.Configured(), net.UsableShards(), faults, self, points, size, before);
    for batch := 0 to numBatches
      invariant sent == batch && |states| == batch + 1 && Keyed(ViewOf(net))
      invariant Sent(net.Configured(), net.UsableShards(), faults, self, points, size, batch, before, ViewOf(net),
                     states)
    {
      var response;
      response, states := SendBatch(net, self, points, size, batch, faults, before, states);
      if response.Err? {
        return Err(response.error), sent, states;
      }
      sent := sent + 1;
    }
    r := Ok(numBatches);
  }

  // ---------- the listing afterwards ----------

  lemma {:induction false} DistinctIdsKept(points: seq<Point>)
    requires forall i, j :: 0 <= i < j < |points| ==> points[i].id != points[j].id
    ensures forall p: Point :: Get(PointsMap(points), p.id) == Some(p) <==> p in points
  {
    PointsMapIds(points);
    forall i | 0 <= i < |points|
      ensures Get(PointsMap(points), points[i].id) == Some(points[i])
    {
      LastVersionWins(points, i);
    }
  }

  lemma ListedAlone(cfg: Config, view: View, self: PeerId, s: ShardId, id: PointId)
    requires self in cfg.topology && cfg.Fits(view) && s in cfg.topology[self] && cfg.topology[self][s] == []
    ensures Listed(cfg, view, self, s, false, id) == FindById(view[self][s], id)
  {
    assert Sources(cfg, self, s, false) == [self] && [self][..0] == [];
    assert FirstOffer(view, self, [], s, id) == None;
  }

  /** Without remotes a node lists exactly what it stores. */
  lemma ListsWhatIsStored(cfg: Config, self: PeerId, view: View, listing: seq<Point>, p: Point)
    requires ListStep(cfg, self, None, false, view, listing) && Routed(cfg.RingOf(self), view[self])
    requires forall s :: s in cfg.topology[self] ==> cfg.topology[self][s] == []
    ensures p in listing <==> Get(IdMap(cfg.RingOf(self), view[self]), p.id) == Some(p)
  {
    ListStepShows(cfg, self, None, false, view, listing);
    forall q | q in listing
      ensures Get(IdMap(cfg.RingOf(self), view[self]), q.id) == Some(q)
    {
      var s :| s in Visited(cfg, self, None) && Listed(cfg, view, self, s, false, q.id) == Some(q);
      ListedAlone(cfg, view, self, s, q.id);
      IdMapExactly(cfg.RingOf(self), view[self], q);
    }
    if Get(IdMap(cfg.RingOf(self), view[self]), p.id) == Some(p) {
      var s := cfg.RingOf(self).At(p.id);
      ListedAlone(cfg, view, self, s, p.id);
      assert Listed(cfg, view, self, s, false, p.id).Some? && HasId(listing, p.id);
      var q :| q in listing && q.id == p.id;
    }
  }

  lemma EmptyIdMap(ring: HashRing, stores: Stores)
    requires forall s :: s in stores ==> stores[s] == map[]
    ensures IdMap(ring, stores) == map[]
  {
  }

  /**
   End to end: after uploading to an empty collection without remotes, a full listing is the uploaded points,
   all of them, with ids 0 to n - 1 in order, whatever the batch size was.
   */
  lemma ListingAfterUpload(cfg: Config, self: PeerId, before: View, after: View, payloads: seq<string>,
                           listing: seq<Point>)
    requires self in cfg.topology && cfg.Fits(before) && |payloads| <= U64_LIMIT
    requires cfg.topology[self].Keys != {} && forall s :: s in cfg.topology[self] ==> cfg.topology[self][s] == []
    requires forall s :: s in before[self] ==> before[self][s] == map[]
    requires cfg.Fits(after) && after[self] == UpsertEach(cfg.RingOf(self), before[self], Numbered(payloads))
    requires ListStep(cfg, self, None, false, after, listing)
    ensures listing == Numbered(payloads)
  {
    var points := Numbered(payloads);
    AfterUpload(cfg.RingOf(self), before[self], points);
    forall p: Point
      ensures p in listing <==> p in points
    {
      ListsWhatIsStored(cfg, self, after, listing, p);
    }
    SortedDetermined(listing, points);
  }

  lemma AfterUpload(ring: HashRing, stores: Stores, points: seq<Point>)
    requires ring.nodes == stores.Keys && stores.Keys != {} && CanonicalBatch(points)
    requires forall s :: s in stores ==> stores[s] == map[]
    requires forall i, j :: 0 <= i < j < |points| ==> points[i].id != points[j].id
    ensures Routed(ring, UpsertEach(ring, stores, points))
    ensures forall p: Point :: Get(IdMap(ring, UpsertEach(ring, stores, points)), p.id) == Some(p) <==> p in points
  {
    CanonicalUpsertRefinesIdMap(ring, stores, points);
    EmptyIdMap(ring, stores);
    DistinctIdsKept(points);
  }

  /** The listing request: `listing` is what the collection lists, and the server makes an error of an empty one. */
  method RetrievePoints(net: Net, ghost view: View, self: PeerId, faults: Faults)
    returns (r: Result<seq<Point>>, ghost listing: seq<Point>)
    requires view == ViewOf(net) && Keyed(view) && self in net.holders
    ensures ListSucceeds(net.Configured(), net.UsableShards(), faults, self, None, false) ==>
              ListStep(net.Configured(), self, None, false, view, listing)
    ensures r.Ok? <==>
            ListSucceeds(net.Configured(), net.UsableShards(), faults, self, None, false) && listing != []
    ensures r == if r.Ok? then Ok(listing) else Err(ServiceError)
  {
    var listed, calls := Reads.GetPoints(net, view, self, None, None, false, faults);
    listing := if listed.Ok? then listed.value else [];
    r := if listed.Err? || listed.value == [] then Err(ServiceError) else listed;
  }

  /**
   The whole exchange: upload to an empty collection without remotes, then ask for everything. With nothing to
   upload the listing is empty, and so refused.
   */
  method ConsecutiveWrites(net: Net, self: PeerId, payloads: seq<string>, size: nat, faults: nat -> Faults,
                           readFaults: Faults)
    returns (r: Result<seq<Point>>, responses: nat)
    requires self in net.holders && size > 0 && |payloads| + size <= U64_LIMIT
    requires net.holders[self].shards.Keys != {} && forall s :: s in net.holders[self].shards ==>
             net.holders[self].shards[s].remotes == []
    requires forall s :: s in ViewOf(net)[self] ==> ViewOf(net)[self][s] == map[]
    requires Keyed(ViewOf(net))
    modifies net.Footprint()
    ensures r.Ok? <==>
            && payloads != []
            && RequestsSucceed(net.Configured(), net.UsableShards(), faults, self, Numbered(payloads), size,
                               DivCeil(|payloads|, size))
            && ListSucceeds(net.Configured(), net.UsableShards(), readFaults, self, None, false)
    ensures r.Ok? ==> r.value == Numbered(payloads) && responses == DivCeil(|payloads|, size)
  {
    responses := 0;
    ghost var cfg, before := net.Configured(), ViewOf(net);
    NetFits(net);
    var uploaded;
    ghost var sent, states;
    uploaded, sent, states := UploadPoints(net, self, payloads, size, faults);
    if uploaded.Err? {
      return Err(uploaded.error), responses;
    }
    responses := uploaded.value;
    UploadStoresAll(cfg.RingOf(self), before[self], Numbered(payloads), size);
    ghost var after := ViewOf(net);
    ghost var listing;
    r, listing := RetrievePoints(net, after, self, readFaults);
    if ListSucceeds(cfg, net.UsableShards(), readFaults, self, None, false) {
      ListingAfterUpload(cfg, self, before, after, payloads, listing);
    }
  }
}
