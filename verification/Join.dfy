/**
 The join protocol as interleaved steps over any number of nodes, each of which may be a joiner, the node
 others join through, or both.

 A join request makes the receiving node insert the requester among its peers, take the write lock on its
 collections, add the requester as a remote of each collection in turn, and reply with its peers as they
 then are. The requester works through the reply peer by peer: insert the peer, then, under the read lock,
 add it to each collection. Steps of different requests and of different nodes interleave freely, as far
 as the locks allow.
 */
module Join {
  import opened Types
  import opened Replicas
  import opened Views

  type Uri = string
  type Book = map<PeerId, Uri>
  type Lists = map<ShardId, seq<RemoteShard>>

  datatype Node = Node(peers: Book, collections: map<CollectionName, Lists>)

  /** How far a request has come at the node that received it. */
  datatype Request =
    | Inserted
    | Linking(todo: set<CollectionName>)
    | Replied(reply: Book)

  /** What a requester does with the current peer of the reply. */
  datatype Phase =
    | Idle
    | Known(peer: PeerId)
    | LinkingTo(peer: PeerId, names: set<CollectionName>)

  datatype Joiner = Joiner(todo: Book, phase: Phase)

  type Asked = (PeerId, PeerId) // receiver, requester

  datatype Cluster = Cluster(nodes: map<PeerId, Node>, requests: map<Asked, Request>, joiners: map<PeerId, Joiner>)

  // ---------- what a step changes at one node ----------

  datatype Edit =
    | Keep
    | InsertPeer(peer: PeerId, uri: Uri)
    | LinkPeer(name: CollectionName, peer: PeerId)
    | AddCollection(name: CollectionName, shards: set<ShardId>)

  function Linked(lists: Lists, name: CollectionName, peer: PeerId): Lists {
    map s | s in lists :: WithPeer(lists[s], s, name, peer)
  }

  function Unlinked(shards: set<ShardId>): Lists {
    map s | s in shards :: []
  }

  function Edited(node: Node, edit: Edit): Node
    requires edit.LinkPeer? ==> edit.name in node.collections
  {
    match edit
    case Keep => node
    case InsertPeer(peer, uri) => node.(peers := node.peers[peer := uri])
    case LinkPeer(name, peer) =>
      node.(collections := node.collections[name := Linked(node.collections[name], name, peer)])
    case AddCollection(name, shards) => node.(collections := node.collections[name := Unlinked(shards)])
  }

  predicate Allowed(n: PeerId, node: Node, edit: Edit) {
    match edit
    case Keep => true
    case InsertPeer(peer, uri) => true
    case LinkPeer(name, peer) => name in node.collections && peer in node.peers && peer != n
    case AddCollection(name, shards) => name !in node.collections
  }

  // ---------- steps ----------

  datatype Event =
    | StartNode(n: PeerId, uri: Uri, collections: map<CollectionName, set<ShardId>>)
    | CreateCollection(n: PeerId, name: CollectionName, shards: set<ShardId>)
    | Receive(n: PeerId, r: PeerId, uri: Uri)
    | Lock(n: PeerId, r: PeerId)
    | LinkRequester(n: PeerId, r: PeerId, name: CollectionName)
    | Reply(n: PeerId, r: PeerId)
    | StartAbsorbing(n: PeerId, r: PeerId)
    | AbsorbPeer(n: PeerId, peer: PeerId)
    | AbsorbLock(n: PeerId)
    | AbsorbLink(n: PeerId, name: CollectionName)
    | AbsorbNext(n: PeerId)
    | Serve(n: PeerId) // an operation on points, which reads the lists and leaves them

  /** Some request holds the write lock on the collections of `n`. */
  ghost predicate WriteLocked(c: Cluster, n: PeerId) {
    exists q :: q in c.requests && q.0 == n && c.requests[q].Linking?
  }

  predicate ReadLocked(c: Cluster, n: PeerId) {
    n in c.joiners && c.joiners[n].phase.LinkingTo?
  }

  ghost predicate Enabled(c: Cluster, e: Event) {
    match e
    case StartNode(n, uri, collections) => n !in c.nodes
    case CreateCollection(n, name, shards) =>
      n in c.nodes && name !in c.nodes[n].collections && !WriteLocked(c, n) && !ReadLocked(c, n)
    // Peer ids are distinct: no node asks to join itself. A request carries the address the requester has for itself.
    case Receive(n, r, uri) =>
      && n in c.nodes && r in c.nodes && n != r && (n, r) !in c.requests
      && Get(c.nodes[r].peers, r) == Some(uri)
    case Lock(n, r) =>
      n in c.nodes && (n, r) in c.requests && c.requests[(n, r)].Inserted? && !WriteLocked(c, n) && !ReadLocked(c, n)
    case LinkRequester(n, r, name) =>
      && n in c.nodes && (n, r) in c.requests && c.requests[(n, r)].Linking?
      && name in c.requests[(n, r)].todo && name in c.nodes[n].collections
    case Reply(n, r) =>
      n in c.nodes && (n, r) in c.requests && c.requests[(n, r)].Linking? && c.requests[(n, r)].todo == {}
    case StartAbsorbing(n, r) =>
      r in c.nodes && (n, r) in c.requests && c.requests[(n, r)].Replied? && r !in c.joiners
    case AbsorbPeer(n, peer) =>
      n in c.nodes && n in c.joiners && c.joiners[n].phase.Idle? && peer in c.joiners[n].todo
    case AbsorbLock(n) => n in c.nodes && n in c.joiners && c.joiners[n].phase.Known? && !WriteLocked(c, n)
    case AbsorbLink(n, name) =>
      && n in c.nodes && n in c.joiners && c.joiners[n].phase.LinkingTo?
      && name in c.joiners[n].phase.names && name in c.nodes[n].collections
    case AbsorbNext(n) =>
      n in c.nodes && n in c.joiners && c.joiners[n].phase.LinkingTo? && c.joiners[n].phase.names == {}
    case Serve(n) => n in c.nodes
  }

  ghost function EditOf(c: Cluster, e: Event): Edit
    requires Enabled(c, e)
  {
    match e
    case CreateCollection(n, name, shards) => AddCollection(name, shards)
    case Receive(n, r, uri) => InsertPeer(r, uri)
    case LinkRequester(n, r, name) => LinkPeer(name, r)
    case AbsorbPeer(n, peer) => InsertPeer(peer, c.joiners[n].todo[peer])
    case AbsorbLink(n, name) => LinkPeer(name, c.joiners[n].phase.peer)
    case _ => Keep
  }

  ghost function NodesAfter(c: Cluster, e: Event): map<PeerId, Node>
    requires Enabled(c, e)
  {
    match e
    case StartNode(n, uri, collections) =>
      c.nodes[n := Node(map[n := uri], map name | name in collections :: Unlinked(collections[name]))]
    case StartAbsorbing(n, r) => c.nodes
    case _ => c.nodes[e.n := Edited(c.nodes[e.n], EditOf(c, e))]
  }

  ghost function RequestsAfter(c: Cluster, e: Event): map<Asked, Request>
    requires Enabled(c, e)
  {
    match e
    case Receive(n, r, uri) => c.requests[(n, r) := Inserted]
    case Lock(n, r) => c.requests[(n, r) := Linking(c.nodes[n].collections.Keys)]
    case LinkRequester(n, r, name) => c.requests[(n, r) := Linking(c.requests[(n, r)].todo - {name})]
    case Reply(n, r) => c.requests[(n, r) := Replied(c.nodes[n].peers)]
    case _ => c.requests
  }

  ghost function JoinersAfter(c: Cluster, e: Event): map<PeerId, Joiner>
    requires Enabled(c, e)
  {
    match e
    case StartAbsorbing(n, r) => c.joiners[r := Joiner(c.requests[(n, r)].reply - {r}, Idle)]
    case AbsorbPeer(n, peer) => c.joiners[n := Joiner(c.joiners[n].todo - {peer}, Known(peer))]
    case AbsorbLock(n) =>
      c.joiners[n := c.joiners[n].(phase := LinkingTo(c.joiners[n].phase.peer, c.nodes[n].collections.Keys))]
    case AbsorbLink(n, name) =>
      c.joiners[n := c.joiners[n].(phase := LinkingTo(c.joiners[n].phase.peer, c.joiners[n].phase.names - {name}))]
    case AbsorbNext(n) => c.joiners[n := c.joiners[n].(phase := Idle)]
    case _ => c.joiners
  }

  ghost function Apply(c: Cluster, e: Event): Cluster
    requires Enabled(c, e)
  {
    Cluster(NodesAfter(c, e), RequestsAfter(c, e), JoinersAfter(c, e))
  }

  // ---------- membership ----------

  /** A shard's remotes at node `n`: its own shard and collection, distinct known peers, never `n` itself. */
  ghost predicate SoundRemotes(n: PeerId, peers: Book, name: CollectionName, s: ShardId, remotes: seq<RemoteShard>) {
    && DistinctPeers(PeersOf(remotes)) && n !in PeersOf(remotes)
    && forall i :: 0 <= i < |remotes| ==>
         remotes[i] == RemoteShard(s, name, remotes[i].peerId) && remotes[i].peerId in peers
  }

  /** Node `n` knows itself; its lists are sound, and alike in all shards of a collection. */
  ghost predicate SoundNode(n: PeerId, node: Node) {
    && n in node.peers
    && (forall name, s :: name in node.collections && s in node.collections[name] ==>
          SoundRemotes(n, node.peers, name, s, node.collections[name][s]))
    && (forall name, s, t :: name in node.collections && s in node.collections[name] && t in node.collections[name] ==>
          PeersOf(node.collections[name][s]) == PeersOf(node.collections[name][t]))
  }

  /** Every shard lists the peer. */
  ghost predicate AllList(lists: Lists, peer: PeerId) {
    forall s :: s in lists ==> peer in PeersOf(lists[s])
  }

  /** Every collection outside `names` lists the peer in all its shards. */
  ghost predicate Covered(node: Node, names: set<CollectionName>, peer: PeerId) {
    forall name :: name in node.collections && name !in names ==> AllList(node.collections[name], peer)
  }

  /** What request (n, r) has achieved at the receiving node so far. */
  ghost predicate RequestSound(n: PeerId, node: Node, r: PeerId, request: Request) {
    && n != r && r in node.peers
    && match request
       case Inserted => true
       case Linking(todo) => Covered(node, todo, r)
       case Replied(reply) => n in reply && r in reply && reply.Keys <= node.peers.Keys
  }

  ghost predicate JoinerSound(n: PeerId, node: Node, joiner: Joiner) {
    && n !in joiner.todo
    && match joiner.phase
       case Idle => true
       case Known(peer) => peer != n && peer in node.peers
       case LinkingTo(peer, names) => peer != n && peer in node.peers && Covered(node, names, peer)
  }

  ghost predicate Sound(c: Cluster) {
    && (forall n :: n in c.nodes ==> SoundNode(n, c.nodes[n]))
    && (forall q :: q in c.requests ==>
          q.0 in c.nodes && q.1 in c.nodes && RequestSound(q.0, c.nodes[q.0], q.1, c.requests[q]))
    && (forall n :: n in c.joiners ==> n in c.nodes && JoinerSound(n, c.nodes[n], c.joiners[n]))
  }

  lemma WithPeerSound(n: PeerId, peers: Book, name: CollectionName, s: ShardId, remotes: seq<RemoteShard>, peer: PeerId)
    requires SoundRemotes(n, peers, name, s, remotes) && peer in peers && peer != n
    ensures SoundRemotes(n, peers, name, s, WithPeer(remotes, s, name, peer))
    ensures PeersOf(WithPeer(remotes, s, name, peer)) ==
            if peer in PeersOf(remotes) then PeersOf(remotes) else PeersOf(remotes) + [peer]
  {
    WithPeerPeers(remotes, s, name, peer);
  }

  lemma WithPeerPeers(remotes: seq<RemoteShard>, s: ShardId, name: CollectionName, peer: PeerId)
    ensures PeersOf(WithPeer(remotes, s, name, peer)) ==
            if peer in PeersOf(remotes) then PeersOf(remotes) else PeersOf(remotes) + [peer]
  {
    if peer in PeersOf(remotes) {
      var i :| 0 <= i < |remotes| && PeersOf(remotes)[i] == peer;
      assert remotes[i] in remotes;
    } else {
      forall r | r in remotes
        ensures r.peerId != peer
      {
        var i :| 0 <= i < |remotes| && remotes[i] == r;
        assert PeersOf(remotes)[i] == r.peerId;
      }
    }
  }

  /** Adding the same peer twice is adding it once, in every shard. */
  lemma LinkedTwice(lists: Lists, name: CollectionName, peer: PeerId)
    ensures Linked(Linked(lists, name, peer), name, peer) == Linked(lists, name, peer)
  {
    forall s | s in lists
      ensures exists r :: r in Linked(lists, name, peer)[s] && r.peerId == peer
    {
      if !exists r :: r in lists[s] && r.peerId == peer {
        assert Linked(lists, name, peer)[s][|lists[s]|].peerId == peer;
      }
    }
  }

  lemma LinkedSound(n: PeerId, node: Node, name: CollectionName, peer: PeerId)
    requires SoundNode(n, node) && Allowed(n, node, LinkPeer(name, peer))
    ensures SoundNode(n, Edited(node, LinkPeer(name, peer)))
  {
    var lists := node.collections[name];
    forall s | s in lists
      ensures SoundRemotes(n, node.peers, name, s, Linked(lists, name, peer)[s])
      ensures PeersOf(Linked(lists, name, peer)[s]) ==
              if peer in PeersOf(lists[s]) then PeersOf(lists[s]) else PeersOf(lists[s]) + [peer]
    {
      WithPeerSound(n, node.peers, name, s, lists[s], peer);
    }
  }

  lemma InsertedSound(n: PeerId, node: Node, peer: PeerId, uri: Uri)
    requires SoundNode(n, node)
    ensures SoundNode(n, Edited(node, InsertPeer(peer, uri)))
  {
    forall name, s | name in node.collections && s in node.collections[name]
      ensures SoundRemotes(n, node.peers[peer := uri], name, s, node.collections[name][s])
    {
      assert SoundRemotes(n, node.peers, name, s, node.collections[name][s]);
    }
  }

  lemma EditedSound(n: PeerId, node: Node, edit: Edit)
    requires SoundNode(n, node) && Allowed(n, node, edit)
    ensures SoundNode(n, Edited(node, edit))
  {
    match edit
    case Keep =>
    case InsertPeer(peer, uri) => InsertedSound(n, node, peer, uri);
    case LinkPeer(name, peer) => LinkedSound(n, node, name, peer);
    case AddCollection(name, shards) =>
  }

  /** A shard that lists a peer keeps listing it, whoever else is linked; linking lists the peer. */
  lemma LinkedLists(lists: Lists, name: CollectionName, peer: PeerId, other: PeerId)
    requires other == peer || AllList(lists, other)
    ensures AllList(Linked(lists, name, peer), other)
  {
    forall s | s in lists
      ensures other in PeersOf(Linked(lists, name, peer)[s])
    {
      WithPeerPeers(lists[s], s, name, peer);
      if !(peer in PeersOf(lists[s])) {
        assert (PeersOf(lists[s]) + [peer])[|lists[s]|] == peer;
      }
    }
  }

  /** Only a new collection can fall outside what is covered; linking the peer covers one more. */
  lemma EditedCovered(n: PeerId, node: Node, edit: Edit, names: set<CollectionName>, peer: PeerId)
    requires Allowed(n, node, edit) && !edit.AddCollection? && Covered(node, names, peer)
    ensures Covered(Edited(node, edit), names, peer)
    ensures edit.LinkPeer? && edit.peer == peer ==> Covered(Edited(node, edit), names - {edit.name}, peer)
  {
    if edit.LinkPeer? && (edit.name !in names || edit.peer == peer) {
      LinkedLists(node.collections[edit.name], edit.name, edit.peer, peer);
    }
  }

  lemma EditedRequest(n: PeerId, node: Node, edit: Edit, r: PeerId, request: Request)
    requires Allowed(n, node, edit) && (edit.AddCollection? ==> !request.Linking?)
    requires RequestSound(n, node, r, request)
    ensures RequestSound(n, Edited(node, edit), r, request)
  {
    if request.Linking? {
      EditedCovered(n, node, edit, request.todo, r);
    }
  }

  lemma EditedJoiner(n: PeerId, node: Node, edit: Edit, joiner: Joiner)
    requires Allowed(n, node, edit) && (edit.AddCollection? ==> !joiner.phase.LinkingTo?)
    requires JoinerSound(n, node, joiner)
    ensures JoinerSound(n, Edited(node, edit), joiner)
  {
    if joiner.phase.LinkingTo? {
      EditedCovered(n, node, edit, joiner.phase.names, joiner.phase.peer);
    }
  }

  /** What a step does to its node is allowed there, and leaves every other node alone. */
  lemma StepIsAllowed(c: Cluster, e: Event)
    requires Sound(c) && Enabled(c, e) && !e.StartNode? && !e.StartAbsorbing?
    ensures Allowed(e.n, c.nodes[e.n], EditOf(c, e))
  {
    match e
    case LinkRequester(n, r, name) => assert RequestSound(n, c.nodes[n], r, c.requests[(n, r)]);
    case AbsorbLink(n, name) => assert JoinerSound(n, c.nodes[n], c.joiners[n]);
    case _ =>
  }

  /** A node that has started stays; only the node the step is at is edited. */
  lemma NodeAfter(c: Cluster, e: Event, n: PeerId)
    requires Enabled(c, e) && n in c.nodes
    ensures n in NodesAfter(c, e)
    ensures NodesAfter(c, e)[n] ==
            if e.StartNode? || e.StartAbsorbing? || n != e.n then c.nodes[n] else Edited(c.nodes[n], EditOf(c, e))
  {
  }

  lemma StepKeepsNodes(c: Cluster, e: Event)
    requires Sound(c) && Enabled(c, e)
    ensures forall n :: n in NodesAfter(c, e) ==> SoundNode(n, NodesAfter(c, e)[n])
  {
    if !e.StartNode? && !e.StartAbsorbing? {
      StepIsAllowed(c, e);
      EditedSound(e.n, c.nodes[e.n], EditOf(c, e));
    }
  }

  /** A request that the step does not move on stays sound: at the node the step is at, */
  lemma StepKeepsRequestHere(c: Cluster, e: Event, q: Asked)
    requires Sound(c) && Enabled(c, e) && q in c.requests
    requires !e.StartNode? && !e.StartAbsorbing? && q.0 == e.n
    ensures RequestSound(q.0, Edited(c.nodes[e.n], EditOf(c, e)), q.1, c.requests[q])
  {
    StepIsAllowed(c, e);
    assert RequestSound(q.0, c.nodes[q.0], q.1, c.requests[q]);
    assert e.CreateCollection? ==> !WriteLocked(c, e.n);
    EditedRequest(q.0, c.nodes[q.0], EditOf(c, e), q.1, c.requests[q]);
  }

  /** and at every other. */
  lemma StepKeepsOtherRequest(c: Cluster, e: Event, q: Asked)
    requires Sound(c) && Enabled(c, e) && q in c.requests
    ensures q.0 in NodesAfter(c, e) && q.1 in NodesAfter(c, e)
    ensures RequestSound(q.0, NodesAfter(c, e)[q.0], q.1, c.requests[q])
  {
    assert RequestSound(q.0, c.nodes[q.0], q.1, c.requests[q]);
    NodeAfter(c, e, q.0);
    NodeAfter(c, e, q.1);
    if !e.StartNode? && !e.StartAbsorbing? && q.0 == e.n {
      StepKeepsRequestHere(c, e, q);
    }
  }

  lemma StepMovesRequest(c: Cluster, e: Event)
    requires Sound(c) && Enabled(c, e) && (e.Receive? || e.Lock? || e.LinkRequester? || e.Reply?)
    ensures e.n in NodesAfter(c, e) && e.r in NodesAfter(c, e)
    ensures RequestSound(e.n, NodesAfter(c, e)[e.n], e.r, RequestsAfter(c, e)[(e.n, e.r)])
  {
    assert SoundNode(e.n, c.nodes[e.n]);
    if (e.n, e.r) in c.requests {
      assert RequestSound(e.n, c.nodes[e.n], e.r, c.requests[(e.n, e.r)]);
    }
    if e.LinkRequester? {
      StepIsAllowed(c, e);
      EditedCovered(e.n, c.nodes[e.n], EditOf(c, e), c.requests[(e.n, e.r)].todo, e.r);
    }
  }

  lemma StepKeepsRequest(c: Cluster, e: Event, q: Asked)
    requires Sound(c) && Enabled(c, e) && q in RequestsAfter(c, e)
    ensures q.0 in NodesAfter(c, e) && q.1 in NodesAfter(c, e)
    ensures RequestSound(q.0, NodesAfter(c, e)[q.0], q.1, RequestsAfter(c, e)[q])
  {
    if (e.Receive? || e.Lock? || e.LinkRequester? || e.Reply?) && q == (e.n, e.r) {
      StepMovesRequest(c, e);
    } else {
      StepKeepsOtherRequest(c, e, q);
    }
  }

  lemma StepKeepsJoiner(c: Cluster, e: Event, n: PeerId)
    requires Sound(c) && Enabled(c, e) && n in JoinersAfter(c, e)
    ensures n in NodesAfter(c, e) && JoinerSound(n, NodesAfter(c, e)[n], JoinersAfter(c, e)[n])
  {
    if n in c.joiners {
      assert JoinerSound(n, c.nodes[n], c.joiners[n]);
      if !e.StartNode? && !e.StartAbsorbing? && n == e.n {
        StepIsAllowed(c, e);
        EditedJoiner(n, c.nodes[n], EditOf(c, e), c.joiners[n]);
        if e.AbsorbLink? {
          EditedCovered(n, c.nodes[n], EditOf(c, e), c.joiners[n].phase.names, c.joiners[n].phase.peer);
        }
      }
    }
  }

  /** Every step of every interleaving keeps the invariant. */
  lemma StepKeepsSound(c: Cluster, e: Event)
    requires Sound(c) && Enabled(c, e)
    ensures Sound(Apply(c, e))
  {
    StepKeepsNodes(c, e);
    forall q | q in RequestsAfter(c, e)
      ensures q.0 in NodesAfter(c, e) && q.1 in NodesAfter(c, e)
      ensures RequestSound(q.0, NodesAfter(c, e)[q.0], q.1, RequestsAfter(c, e)[q])
    {
      StepKeepsRequest(c, e, q);
    }
    forall n | n in JoinersAfter(c, e)
      ensures n in NodesAfter(c, e) && JoinerSound(n, NodesAfter(c, e)[n], JoinersAfter(c, e)[n])
    {
      StepKeepsJoiner(c, e, n);
    }
  }
}
