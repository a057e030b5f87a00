/** Shards and their replicas on one node. */
module Replicas {
  import opened Types
  import opened Ring
  import opened Batches
  import opened Segments
  import opened Views

  /** A shard stored on this node; all its points live in segment 0, which a reload may fail to find. */
  datatype LocalShard = LocalShard(id: ShardId, segments: map<SegmentId, Segment>) {
    ghost function Footprint(): set<Segment> {
      if 0 in segments then {segments[0]} else {}
    }

    ghost function Contents(): Store
      reads Footprint()
    {
      if 0 in segments then segments[0].db else map[]
    }

    /** The shard has the segment it keeps its points in. */
    predicate Usable() {
      0 in segments
    }

    method UpsertPoints(points: seq<Point>, fault: Option<nat>) returns (r: Result<()>)
      modifies Footprint()
      ensures Contents() == if Usable() then Written(old(Contents()), points[..Inserted(|points|, fault)])
              else old(Contents())
      ensures r.Ok? <==> Usable() && fault.None?
    {
      if 0 in segments {
        r := segments[0].InsertPoints(points, fault);
      } else {
        r := Err(ServiceError);
      }
    }

    method GetPoints(ids: Option<seq<PointId>>, fails: bool) returns (r: Result<seq<Point>>)
      ensures r.Ok? <==> Usable() && !fails
      ensures r.Ok? && ids.Some? ==> r.value == Hits(Contents(), ids.value)
      ensures r.Ok? && ids.None? ==> Lists(Contents(), r.value)
    {
      if 0 in segments {
        r := segments[0].GetPoints(ids, fails);
      } else {
        r := Err(ServiceError);
      }
    }

    function CountPoints(): (count: nat)
      reads Footprint()
      ensures count == |Contents()|
    {
      if 0 in segments then segments[0].CountPoints() else 0
    }
  }

  datatype RemoteShard = RemoteShard(id: ShardId, collection: CollectionName, peerId: PeerId)

  function PeersOf(remotes: seq<RemoteShard>): (peers: seq<PeerId>)
    ensures |peers| == |remotes|
    ensures forall i :: 0 <= i < |remotes| ==> peers[i] == remotes[i].peerId
  {
    seq(|remotes|, i requires 0 <= i < |remotes| => remotes[i].peerId)
  }

  /** A shard's remotes once `peer` is among them; a peer already there is not added again. */
  function WithPeer(remotes: seq<RemoteShard>, s: ShardId, collection: CollectionName, peer: PeerId): seq<RemoteShard> {
    if exists r :: r in remotes && r.peerId == peer then remotes
    else remotes + [RemoteShard(s, collection, peer)]
  }

  datatype ReplicaSet = ReplicaSet(local: LocalShard, remotes: seq<RemoteShard>) {
    function NumReplicas(): nat {
      |remotes| + 1
    }
  }

  /** A collection's shards and the ring over them, as fixed while its read lock is held. */
  datatype ReplicaHolder = ReplicaHolder(shards: map<ShardId, ReplicaSet>, ring: HashRing) {
    ghost function Footprint(): set<Segment> {
      set s | s in shards && 0 in shards[s].local.segments :: shards[s].local.segments[0]
    }

    /** The ring's nodes are the shards; no two shards share a segment; remotes name their own shard. */
    ghost predicate Shaped() {
      && ring.nodes == shards.Keys
      && (forall s :: s in shards ==> shards[s].local.id == s)
      && (forall s, t :: s in shards && t in shards && s != t ==>
            shards[s].local.Footprint() !! shards[t].local.Footprint())
      && (forall s, r :: s in shards && r in shards[s].remotes ==> r.id == s)
    }

    ghost function Contents(): Stores
      reads Footprint()
    {
      map s | s in shards :: shards[s].local.Contents()
    }

    /** The shards that can be read and written. */
    function UsableShards(): set<ShardId> {
      set s | s in shards && shards[s].local.Usable()
    }

    ghost function RemotePeers(): Remotes {
      map s | s in shards :: PeersOf(shards[s].remotes)
    }

    /** Writes points to one shard's local replica, all of them or those its fault lets through; no other changes. */
    method WriteLocal(s: ShardId, points: seq<Point>, fault: Option<nat>) returns (r: Result<()>)
      requires Shaped() && s in shards
      modifies Footprint()
      ensures Contents() == old(Contents())[s := (if !shards[s].local.Usable() then old(Contents())[s]
                                                  else Written(old(Contents())[s],
                                                               points[..Inserted(|points|, fault)]))]
      ensures r.Ok? <==> shards[s].local.Usable() && fault.None?
    {
      var local := shards[s].local;
      assert local.Footprint() <= Footprint();
      assert Contents()[s] == local.Contents();
      r := local.UpsertPoints(points, fault);
      assert forall t :: t in shards && t != s ==> shards[t].local.Footprint() !! local.Footprint();
      assert Contents() == old(Contents())[s := local.Contents()];
    }

    function GetReplicaSet(s: ShardId): Result<ReplicaSet> {
      if s in shards then Ok(shards[s]) else Err(BadInput)
    }

    /** Groups ids by the shard the ring gives them, keeping order and duplicates within a shard. */
    method SelectShards(ids: seq<PointId>) returns (r: Result<map<ShardId, seq<PointId>>>)
      ensures r.Ok? <==> ids == [] || ring.nodes != {}
      ensures r.Err? ==> r.error == ServiceError
      ensures r.Ok? ==> forall s :: s in r.value <==> IdsRoutedTo(ring, ids, s) != []
      ensures r.Ok? ==> forall s :: s in r.value ==> r.value[s] == IdsRoutedTo(ring, ids, s)
    {
      var groups: map<ShardId, seq<PointId>> := map[];
      for i := 0 to |ids|
        invariant i > 0 ==> ring.nodes != {}
        invariant forall s :: s in groups ==> groups[s] != []
        invariant forall s :: IdsRoutedTo(ring, ids[..i], s) == if s in groups then groups[s] else []
      {
        var found := ring.Lookup(ids[i]);
        if found.None? {
          return Err(ServiceError);
        }
        var s := found.value;
        groups := groups[s := (if s in groups then groups[s] else []) + [ids[i]]];
        assert ids[..i + 1][..i] == ids[..i];
      }
      assert ids[..|ids|] == ids;
      r := Ok(groups);
    }
  }

  /** The ring of a holder gets every shard id, whatever the order of the map. */
  method NewReplicaHolder(shards: map<ShardId, ReplicaSet>, place: Placement) returns (holder: ReplicaHolder)
    ensures holder == ReplicaHolder(shards, HashRing(shards.Keys, place))
  {
    var nodes: set<ShardId> := {};
    var todo := shards.Keys;
    while todo != {}
      invariant todo <= shards.Keys && nodes == shards.Keys - todo
      decreases |todo|
    {
      var s :| s in todo;
      nodes := nodes + {s};
      todo := todo - {s};
    }
    holder := ReplicaHolder(shards, HashRing(nodes, place));
  }
}
