/** The consistent-hash ring, seen as a fixed choice of shard for each set of nodes and id. */
module Ring {
  import opened Types

  ghost function AnyOf(nodes: set<ShardId>): ShardId
    requires nodes != {}
  {
    var s :| s in nodes; s
  }

  ghost function AnyPlacement(): (set<ShardId>, PointId) -> ShardId {
    (nodes, id) => if nodes == {} then 0 else AnyOf(nodes)
  }

  /** The hasher every node shares: it picks one of the nodes it is given. */
  type Placement = f: (set<ShardId>, PointId) -> ShardId
    | forall nodes, id :: nodes != {} ==> f(nodes, id) in nodes
    ghost witness AnyPlacement()

  datatype HashRing = HashRing(nodes: set<ShardId>, place: Placement) {
    function At(id: PointId): (s: ShardId)
      ensures nodes != {} ==> s in nodes
    {
      place(nodes, id)
    }

    function Lookup(id: PointId): Option<ShardId> {
      if nodes == {} then None else Some(At(id))
    }
  }
}
