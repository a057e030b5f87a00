/** The two ends of a join as the nodes run them, when nothing else runs in between. */
module Membership {
  import opened Types
  import opened Replicas
  import opened Join

  function ListsOf(shards: map<ShardId, ReplicaSet>): Lists {
    map s | s in shards :: shards[s].remotes
  }

  /** The shards with `peer` among the remotes of each; local replicas stay. */
  function LinkedShards(shards: map<ShardId, ReplicaSet>, name: CollectionName, peer: PeerId): map<ShardId, ReplicaSet>
  {
    map s | s in shards :: shards[s].(remotes := WithPeer(shards[s].remotes, s, name, peer))
  }

  function LinkedHolder(holder: ReplicaHolder, name: CollectionName, peer: PeerId): ReplicaHolder {
    holder.(shards := LinkedShards(holder.shards, name, peer))
  }

  function LinkedHolders(holders: map<CollectionName, ReplicaHolder>, peer: PeerId): map<CollectionName, ReplicaHolder>
  {
    map name | name in holders :: LinkedHolder(holders[name], name, peer)
  }

  class Collection {
    const id: CollectionName
    var replicaHolder: ReplicaHolder

    constructor (id: CollectionName, holder: ReplicaHolder)
      ensures this.id == id && replicaHolder == holder
    {
      this.id, replicaHolder := id, holder;
    }

    /** Adds the peer to every shard that does not list it yet, in any order of the shards. */
    method AddRemoteShards(peer: PeerId, name: CollectionName)
      modifies this
      ensures replicaHolder == LinkedHolder(old(replicaHolder), name, peer)
    {
      ghost var was := replicaHolder.shards;
      var todo := replicaHolder.shards.Keys;
      while todo != {}
        invariant todo <= was.Keys && replicaHolder.ring == old(replicaHolder.ring)
        invariant replicaHolder.shards.Keys == was.Keys
        invariant forall s :: s in was ==>
          replicaHolder.shards[s] == if s in todo then was[s] else LinkedShards(was, name, peer)[s]
        decreases |todo|
      {
        var s :| s in todo;
        todo := todo - {s};
        var remotes := replicaHolder.shards[s].remotes;
        if exists r :: r in remotes && r.peerId == peer {
          continue;
        }
        var added := replicaHolder.shards[s].(remotes := remotes + [RemoteShard(s, name, peer)]);
        replicaHolder := replicaHolder.(shards := replicaHolder.shards[s := added]);
      }
    }
  }

  class ConsensusState {
    const peerId: PeerId
    var peers: Book

    /** A node starts out knowing itself only. */
    constructor (peerId: PeerId, uri: Uri)
      ensures this.peerId == peerId && peers == map[peerId := uri]
    {
      this.peerId, peers := peerId, map[peerId := uri];
    }

    method AddPeer(peer: PeerId, uri: Uri)
      modifies this
      ensures peers == old(peers)[peer := uri]
    {
      peers := peers[peer := uri];
    }
  }

  class TableOfContent {
    var collections: map<CollectionName, Collection>

    constructor ()
      ensures collections == map[]
    {
      collections := map[];
    }

    /** Different names are different collections. */
    ghost predicate Valid()
      reads this
    {
      forall a, b :: a in collections && b in collections && a != b ==> collections[a] != collections[b]
    }

    ghost function Holders(): map<CollectionName, ReplicaHolder>
      reads this, collections.Values
    {
      map name | name in collections :: collections[name].replicaHolder
    }

    ghost function Lists(): map<CollectionName, Lists>
      reads this, collections.Values
    {
      map name | name in collections :: ListsOf(collections[name].replicaHolder.shards)
    }

    method LinkCollection(name: CollectionName, peer: PeerId)
      requires Valid() && name in collections
      modifies collections[name]
      ensures Holders().Keys == old(Holders()).Keys && Holders()[name] == LinkedHolder(old(Holders())[name], name, peer)
      ensures forall other :: other in collections && other != name ==> Holders()[other] == old(Holders())[other]
    {
      collections[name].AddRemoteShards(peer, name);
      forall other | other in collections && other != name
        ensures Holders()[other] == old(Holders())[other]
      {
        assert collections[other] != collections[name];
      }
    }

    /** Adds the peer to every shard of every collection, in any order of the collections. */
    method AddRemoteShards(peer: PeerId)
      requires Valid()
      modifies collections.Values
      ensures Holders() == LinkedHolders(old(Holders()), peer)
      ensures Lists() == LinkedEverywhere(old(Lists()), peer)
    {
      ghost var was, lists := Holders(), Lists();
      var todo := collections.Keys;
      while todo != {}
        invariant todo <= collections.Keys && LinkedOutside(was, Holders(), todo, peer)
        decreases |todo|
      {
        var name :| name in todo;
        ghost var now := Holders();
        LinkCollection(name, peer);
        LinkedOneMore(was, now, Holders(), todo, name, peer);
        todo := todo - {name};
      }
      LinkedOutsideNothing(was, Holders(), peer);
      LinkedListsOf(was, lists, Holders(), Lists(), peer);
    }
  }

  /** All collections but those in `todo` have the peer linked. */
  ghost predicate LinkedOutside(was: map<CollectionName, ReplicaHolder>, now: map<CollectionName, ReplicaHolder>,
                                todo: set<CollectionName>, peer: PeerId)
  {
    && now.Keys == was.Keys
    && forall name :: name in was ==> now[name] == if name in todo then was[name]
       else LinkedHolder(was[name], name, peer)
  }

  lemma LinkedOneMore(was: map<CollectionName, ReplicaHolder>, now: map<CollectionName, ReplicaHolder>,
                      after: map<CollectionName, ReplicaHolder>, todo: set<CollectionName>, name: CollectionName,
                      peer: PeerId)
    requires LinkedOutside(was, now, todo, peer) && name in todo && name in was && after.Keys == now.Keys
    requires after[name] == LinkedHolder(now[name], name, peer)
    requires forall other :: other in now && other != name ==> after[other] == now[other]
    ensures LinkedOutside(was, after, todo - {name}, peer)
  {
  }

  lemma LinkedOutsideNothing(was: map<CollectionName, ReplicaHolder>, now: map<CollectionName, ReplicaHolder>,
                             peer: PeerId)
    requires LinkedOutside(was, now, {}, peer)
    ensures now == LinkedHolders(was, peer)
  {
    SameEntries(now, LinkedHolders(was, peer));
  }

  /** Linking the holders links their lists. */
  lemma LinkedListsOf(was: map<CollectionName, ReplicaHolder>, lists: map<CollectionName, Lists>,
                      now: map<CollectionName, ReplicaHolder>, after: map<CollectionName, Lists>, peer: PeerId)
    requires lists == map name | name in was :: ListsOf(was[name].shards)
    requires after == map name | name in now :: ListsOf(now[name].shards)
    requires now == LinkedHolders(was, peer)
    ensures after == LinkedEverywhere(lists, peer)
  {
    forall name | name in was
      ensures ListsOf(LinkedShards(was[name].shards, name, peer)) == Linked(ListsOf(was[name].shards), name, peer)
    {
    }
    SameEntries(after, LinkedEverywhere(lists, peer));
  }

  // ---------- what a join does, as a function of the node ----------

  datatype Peer = Peer(id: PeerId, uri: Uri)

  function LinkedEverywhere(collections: map<CollectionName, Lists>, peer: PeerId): map<CollectionName, Lists> {
    map name | name in collections :: Linked(collections[name], name, peer)
  }

  /** The node once it knows the peer and lists it in every shard of every collection. */
  function Met(node: Node, peer: Peer): Node {
    Node(node.peers[peer.id := peer.uri], LinkedEverywhere(node.collections, peer.id))
  }

  /** The node once it has met each peer of the list in turn, save itself. */
  function Absorbed(node: Node, self: PeerId, peers: seq<Peer>): Node {
    if peers == [] then node
    else
      var before := Absorbed(node, self, peers[..|peers| - 1]);
      var last := peers[|peers| - 1];
      if last.id == self then before else Met(before, last)
  }

  /** The peers of the book, each once, by ascending id. */
  ghost predicate Enumerates(peers: seq<Peer>, book: Book) {
    && (forall i, j :: 0 <= i < j < |peers| ==> peers[i].id < peers[j].id)
    && (forall i :: 0 <= i < |peers| ==> peers[i].id in book && peers[i].uri == book[peers[i].id])
    && (forall p :: p in book ==> Peer(p, book[p]) in peers)
  }

  ghost predicate AllCovered(node: Node, self: PeerId, peers: seq<Peer>) {
    forall i :: 0 <= i < |peers| && peers[i].id != self ==> peers[i].id in node.peers && Covered(node, {}, peers[i].id)
  }

  /** Meeting a peer keeps the membership invariant and lists the peer, and whoever was listed, everywhere. */
  lemma MetSound(n: PeerId, node: Node, peer: Peer, other: PeerId)
    requires SoundNode(n, node) && peer.id != n
    ensures SoundNode(n, Met(node, peer))
    ensures other == peer.id || Covered(node, {}, other) ==> Covered(Met(node, peer), {}, other)
  {
    var known := Edited(node, InsertPeer(peer.id, peer.uri));
    InsertedSound(n, node, peer.id, peer.uri);
    forall name | name in node.collections
      ensures var lists := Linked(node.collections[name], name, peer.id);
              SoundNode(n, Node(known.peers, map[name := lists]))
    {
      LinkedSound(n, Node(known.peers, map[name := node.collections[name]]), name, peer.id);
      assert map[name := node.collections[name]][name := Linked(node.collections[name], name, peer.id)]
          == map[name := Linked(node.collections[name], name, peer.id)];
    }
    SoundByCollection(n, Met(node, peer));
    if other == peer.id || Covered(node, {}, other) {
      forall name | name in node.collections
        ensures AllList(Linked(node.collections[name], name, peer.id), other)
      {
        LinkedLists(node.collections[name], name, peer.id, other);
      }
    }
  }

  lemma SoundByCollection(n: PeerId, node: Node)
    requires n in node.peers
    requires forall name :: name in node.collections ==>
             SoundNode(n, Node(node.peers, map[name := node.collections[name]]))
    ensures SoundNode(n, node)
  {
    forall name, s, t | name in node.collections && s in node.collections[name] && t in node.collections[name]
      ensures SoundRemotes(n, node.peers, name, s, node.collections[name][s])
      ensures PeersOf(node.collections[name][s]) == PeersOf(node.collections[name][t])
    {
      var one := Node(node.peers, map[name := node.collections[name]]);
      assert SoundNode(n, one);
      assert name in one.collections && s in one.collections[name] && t in one.collections[name];
    }
  }

  /** Meeting the same peer twice is meeting it once. */
  lemma MetTwice(node: Node, peer: Peer)
    ensures Met(Met(node, peer), peer) == Met(node, peer)
  {
    forall name | name in node.collections
      ensures Linked(Linked(node.collections[name], name, peer.id), name, peer.id) ==
              Linked(node.collections[name], name, peer.id)
    {
      LinkedTwice(node.collections[name], name, peer.id);
    }
  }

  /** Absorbing a reply keeps the membership invariant, and everyone in it ends up known and listed everywhere. */
  lemma {:induction false} AbsorbedSound(n: PeerId, node: Node, peers: seq<Peer>)
    requires SoundNode(n, node)
    ensures SoundNode(n, Absorbed(node, n, peers)) && AllCovered(Absorbed(node, n, peers), n, peers)
    ensures Absorbed(node, n, peers).peers.Keys == node.peers.Keys + set p | p in peers :: p.id
  {
    if peers == [] {
      return;
    }
    var before, last := peers[..|peers| - 1], peers[|peers| - 1];
    AbsorbedSound(n, node, before);
    assert peers == before + [last];
    if last.id != n {
      MetSound(n, Absorbed(node, n, before), last, last.id);
      forall i | 0 <= i < |before| && before[i].id != n
        ensures Covered(Absorbed(node, n, peers), {}, before[i].id)
      {
        MetSound(n, Absorbed(node, n, before), last, before[i].id);
      }
    }
  }

  /** Absorbing a reply stores the address of the last occurrence of an id there, unless it is the node's own; */
  lemma {:induction false} AbsorbedAddress(node: Node, self: PeerId, peers: seq<Peer>, i: nat)
    requires i < |peers| && peers[i].id != self && forall j :: i < j < |peers| ==> peers[j].id != peers[i].id
    ensures Get(Absorbed(node, self, peers).peers, peers[i].id) == Some(peers[i].uri)
  {
    if i < |peers| - 1 {
      AbsorbedAddress(node, self, peers[..|peers| - 1], i);
    }
  }

  /** every other entry stays, the node's own included. */
  lemma {:induction false} AbsorbedKeeps(node: Node, self: PeerId, peers: seq<Peer>, id: PeerId)
    requires id == self || forall i :: 0 <= i < |peers| ==> peers[i].id != id
    ensures Get(Absorbed(node, self, peers).peers, id) == Get(node.peers, id)
  {
    if peers != [] {
      AbsorbedKeeps(node, self, peers[..|peers| - 1], id);
    }
  }

  ghost predicate Names(peers: seq<Peer>, id: PeerId) {
    exists i :: 0 <= i < |peers| && peers[i].id == id
  }

  lemma NamesMore(peers: seq<Peer>, last: Peer, id: PeerId)
    ensures Names(peers + [last], id) <==> Names(peers, id) || last.id == id
  {
    var all := peers + [last];
    assert all[|peers|] == last;
    forall i | 0 <= i < |peers|
      ensures all[i] == peers[i]
    {
    }
  }

  /** It links exactly the peers in it, save the node itself, behind those linked before, and changes no other list. */
  lemma {:induction false} AbsorbedLinks(node: Node, self: PeerId, peers: seq<Peer>, name: CollectionName, s: ShardId,
                                         p: PeerId)
    requires name in node.collections && s in node.collections[name]
    ensures var after := Absorbed(node, self, peers).collections;
            && after.Keys == node.collections.Keys && after[name].Keys == node.collections[name].Keys
            && node.collections[name][s] <= after[name][s]
            && (p in PeersOf(after[name][s]) <==>
                p in PeersOf(node.collections[name][s]) || (p != self && Names(peers, p)))
  {
    if peers != [] {
      var init, last := peers[..|peers| - 1], peers[|peers| - 1];
      AbsorbedLinks(node, self, init, name, s, p);
      assert peers == init + [last];
      NamesMore(init, last, p);
      WithPeerExactly(Absorbed(node, self, init).collections[name][s], s, name, last.id, p);
    }
  }

  lemma WithPeerExactly(remotes: seq<RemoteShard>, s: ShardId, name: CollectionName, peer: PeerId, p: PeerId)
    ensures remotes <= WithPeer(remotes, s, name, peer)
    ensures p in PeersOf(WithPeer(remotes, s, name, peer)) <==> p in PeersOf(remotes) || p == peer
  {
    WithPeerPeers(remotes, s, name, peer);
    if !(peer in PeersOf(remotes)) {
      assert (PeersOf(remotes) + [peer])[|remotes|] == peer;
    }
  }

  /** The edits of the interleaved protocol that link one peer to the named collections, one after another. */
  function LinkedInTurn(node: Node, names: seq<CollectionName>, peer: PeerId): (after: Node)
    requires forall name :: name in names ==> name in node.collections
    ensures after.collections.Keys == node.collections.Keys && after.peers == node.peers
  {
    if names == [] then node
    else
      var before, last := names[..|names| - 1], names[|names| - 1];
      Edited(LinkedInTurn(node, before, peer), LinkPeer(last, peer))
  }

  lemma {:induction false} LinkedInTurnExactly(node: Node, names: seq<CollectionName>, peer: PeerId,
                                               name: CollectionName)
    requires forall other :: other in names ==> other in node.collections
    requires name in node.collections
    ensures LinkedInTurn(node, names, peer).collections[name] ==
            if name in names then Linked(node.collections[name], name, peer) else node.collections[name]
  {
    if names != [] {
      var before, last := names[..|names| - 1], names[|names| - 1];
      assert names == before + [last];
      LinkedInTurnExactly(node, before, peer, name);
      LinkedTwice(node.collections[name], name, peer);
    }
  }

  /** Run without interruption, in any order of the collections, the protocol's edits come to the same as meeting. */
  lemma MetInAnyOrder(node: Node, peer: Peer, names: seq<CollectionName>)
    requires forall name :: name in names <==> name in node.collections
    ensures LinkedInTurn(Edited(node, InsertPeer(peer.id, peer.uri)), names, peer.id) == Met(node, peer)
  {
    var known := Edited(node, InsertPeer(peer.id, peer.uri));
    forall name | name in node.collections
      ensures LinkedInTurn(known, names, peer.id).collections[name] == Met(node, peer).collections[name]
    {
      LinkedInTurnExactly(known, names, peer.id, name);
    }
  }

  // ---------- the two ends ----------

  datatype AllPeers = AllPeers(allPeers: seq<Peer>, firstPeerId: PeerId)

  predicate LowerBound(p: PeerId, ids: set<PeerId>) {
    forall q :: q in ids ==> p <= q
  }

  lemma {:induction false} LeastExists(ids: set<PeerId>) returns (least: PeerId)
    requires ids != {}
    ensures least in ids && LowerBound(least, ids)
  {
    var p :| p in ids;
    var rest := ids - {p};
    least := p;
    if rest != {} {
      var other := LeastExists(rest);
      least := if other < p then other else p;
    }
    forall q | q in ids
      ensures least <= q
    {
      assert q == p || q in rest;
    }
  }

  /** The peers outside `todo` have been listed, in order, and all of `todo` comes after them. */
  ghost predicate ListedSoFar(peers: seq<Peer>, book: Book, todo: set<PeerId>) {
    && todo <= book.Keys
    && (forall i, j :: 0 <= i < j < |peers| ==> peers[i].id < peers[j].id)
    && (forall i :: 0 <= i < |peers| ==>
          peers[i].id in book && peers[i].uri == book[peers[i].id] && forall p :: p in todo ==> peers[i].id < p)
    && (forall p :: p in book ==> p in todo || Peer(p, book[p]) in peers)
  }

  lemma ListedOneMore(peers: seq<Peer>, book: Book, todo: set<PeerId>, p: PeerId)
    requires ListedSoFar(peers, book, todo) && p in todo && LowerBound(p, todo)
    ensures ListedSoFar(peers + [Peer(p, book[p])], book, todo - {p})
  {
    var more := peers + [Peer(p, book[p])];
    forall q | q in book
      ensures q in todo - {p} || Peer(q, book[q]) in more
    {
      assert q == p ==> more[|peers|] == Peer(q, book[q]);
    }
    forall q | q in todo - {p}
      ensures p < q
    {
      assert p <= q;
    }
  }

  /** The peer map turned into a list, in the order of its keys. */
  method PeerList(book: Book) returns (peers: seq<Peer>)
    ensures Enumerates(peers, book)
  {
    var todo := book.Keys;
    peers := [];
    while todo != {}
      invariant ListedSoFar(peers, book, todo)
      decreases |todo|
    {
      ghost var least := LeastExists(todo);
      var p :| p in todo && LowerBound(p, todo);
      ListedOneMore(peers, book, todo, p);
      peers, todo := peers + [Peer(p, book[p])], todo - {p};
    }
  }

  ghost function NodeOf(state: ConsensusState, toc: TableOfContent): Node
    reads state, toc, toc.collections.Values
  {
    Node(state.peers, toc.Lists())
  }

  /** Inserts the peer and then links it everywhere. */
  method MeetPeer(state: ConsensusState, toc: TableOfContent, peer: Peer)
    requires toc.Valid()
    modifies state, toc.collections.Values
    ensures NodeOf(state, toc) == Met(old(NodeOf(state, toc)), peer)
    ensures state.peers == old(state.peers)[peer.id := peer.uri]
    ensures toc.Holders() == LinkedHolders(old(toc.Holders()), peer.id)
  {
    state.AddPeer(peer.id, peer.uri);
    toc.AddRemoteShards(peer.id);
  }

  /** A join request: insert the peer first, link it everywhere, and only then take the peers for the reply. */
  method AddPeerToKnown(state: ConsensusState?, toc: TableOfContent, peer: Peer) returns (r: Result<AllPeers>)
    requires toc.Valid()
    modifies state, toc.collections.Values
    ensures state == null ==> r == Err(ServiceError) && toc.Holders() == old(toc.Holders())
    ensures state != null ==> toc.Holders() == LinkedHolders(old(toc.Holders()), peer.id)
    ensures state != null ==> NodeOf(state, toc) == Met(old(NodeOf(state, toc)), peer)
    ensures state != null ==> state.peers == old(state.peers)[peer.id := peer.uri]
    ensures state != null ==> r.Ok? && r.value.firstPeerId == state.peerId && Enumerates(r.value.allPeers, state.peers)
  {
    if state == null {
      return Err(ServiceError);
    }
    MeetPeer(state, toc, peer);
    var allPeers := PeerList(state.peers);
    r := Ok(AllPeers(allPeers, state.peerId));
  }

  /** Every address in the list parses, save that of the node itself, which is not looked at. */
  predicate AllParse(self: PeerId, peers: seq<Peer>, parses: Uri -> bool) {
    forall i :: 0 <= i < |peers| ==> peers[i].id == self || parses(peers[i].uri)
  }

  /** The node has met the peers of the list up to the first whose address does not parse. */
  ghost predicate AbsorbedPart(self: PeerId, here: Node, after: Node, peers: seq<Peer>, parses: Uri -> bool) {
    exists k ::
      && 0 <= k <= |peers| && AllParse(self, peers[..k], parses)
      && (k < |peers| ==> peers[k].id != self && !parses(peers[k].uri))
      && after == Absorbed(here, self, peers[..k])
  }

  lemma NothingAbsorbed(self: PeerId, here: Node, parses: Uri -> bool)
    ensures AbsorbedPart(self, here, here, [], parses)
  {
    var nobody: seq<Peer> := [];
    assert nobody[..0] == nobody && AllParse(self, nobody[..0], parses) && here == Absorbed(here, self, nobody[..0]);
  }

  lemma AbsorbedWhole(self: PeerId, here: Node, after: Node, peers: seq<Peer>, parses: Uri -> bool)
    requires AbsorbedPart(self, here, after, peers, parses) && AllParse(self, peers, parses)
    ensures after == Absorbed(here, self, peers)
  {
    assert peers[..|peers|] == peers;
  }

  /** The joiner's side of a reply; an address that does not parse ends it early. */
  method AbsorbReply(state: ConsensusState, toc: TableOfContent, allPeers: seq<Peer>, parses: Uri -> bool)
    returns (r: Result<()>)
    requires toc.Valid()
    modifies state, toc.collections.Values
    ensures AbsorbedPart(state.peerId, old(NodeOf(state, toc)), NodeOf(state, toc), allPeers, parses)
    ensures r.Ok? <==> AllParse(state.peerId, allPeers, parses)
  {
    for i := 0 to |allPeers|
      invariant NodeOf(state, toc) == Absorbed(old(NodeOf(state, toc)), state.peerId, allPeers[..i])
      invariant AllParse(state.peerId, allPeers[..i], parses)
    {
      assert allPeers[..i + 1][..i] == allPeers[..i];
      var peer := allPeers[i];
      if peer.id == state.peerId {
        continue;
      }
      if !parses(peer.uri) {
        return Err(ServiceError);
      }
      MeetPeer(state, toc, peer);
    }
    assert allPeers[..|allPeers|] == allPeers;
    r := Ok(());
  }

  /** What becomes of a join request: it is lost on the way, or its reply on the way back, or neither. */
  datatype JoinCall = RequestLost | ReplyLost | Delivered

  /** The request as the joiner sees it. */
  method AskToJoin(seed: ConsensusState?, seedToc: TableOfContent, me: Peer, call: JoinCall)
    returns (r: Result<AllPeers>)
    requires seedToc.Valid()
    modifies seed, seedToc.collections.Values
    ensures r.Ok? <==> seed != null && call.Delivered?
    ensures seed != null ==>
      NodeOf(seed, seedToc) == if call.RequestLost? then old(NodeOf(seed, seedToc))
                               else Met(old(NodeOf(seed, seedToc)), me)
    ensures r.Ok? ==> Enumerates(r.value.allPeers, NodeOf(seed, seedToc).peers)
  {
    if call.RequestLost? {
      return Err(ServiceError);
    }
    r := AddPeerToKnown(seed, seedToc, me);
    if call.ReplyLost? {
      r := Err(ServiceError);
    }
  }

  /**
   A join of node `n` through another one, from `here` and `there` to `hereAfter` and `thereAfter`: the other
   node meets `n` if the request arrives, and `n` absorbs the reply, if that arrives, up to the first address
   that does not parse. It succeeds exactly if nothing of this goes wrong.
   */
  ghost predicate JoinStep(n: PeerId, here: Node, hereAfter: Node, there: Node, thereAfter: Node, call: JoinCall,
                           parses: Uri -> bool, reply: seq<Peer>, ok: bool)
  {
    && n in here.peers
    && var met := Met(there, Peer(n, here.peers[n]));
    && thereAfter == (if call.RequestLost? then there else met)
    && (if call.Delivered? then Enumerates(reply, met.peers) else reply == [])
    && AbsorbedPart(n, here, hereAfter, reply, parses)
    && (ok <==> call.Delivered? && AllParse(n, reply, parses))
  }

  /** Two different sound nodes stay sound, however far the join gets. */
  lemma JoinKeepsSound(n: PeerId, here: Node, hereAfter: Node, m: PeerId, there: Node, thereAfter: Node,
                       call: JoinCall, parses: Uri -> bool, reply: seq<Peer>, ok: bool)
    requires n != m && SoundNode(n, here) && SoundNode(m, there)
    requires JoinStep(n, here, hereAfter, there, thereAfter, call, parses, reply, ok)
    ensures SoundNode(n, hereAfter) && SoundNode(m, thereAfter)
  {
    MetSound(m, there, Peer(n, here.peers[n]), n);
    var k :| 0 <= k <= |reply| && AllParse(n, reply[..k], parses) && hereAfter == Absorbed(here, n, reply[..k]);
    AbsorbedSound(n, here, reply[..k]);
  }

  /** When a join succeeds, each side lists the other in every shard, and the joiner knows all the other knew. */
  lemma JoinListsBoth(n: PeerId, here: Node, hereAfter: Node, m: PeerId, there: Node, thereAfter: Node,
                      call: JoinCall, parses: Uri -> bool, reply: seq<Peer>)
    requires n != m && SoundNode(n, here) && SoundNode(m, there)
    requires JoinStep(n, here, hereAfter, there, thereAfter, call, parses, reply, true)
    ensures Covered(hereAfter, {}, m) && Covered(thereAfter, {}, n)
    ensures thereAfter.peers == there.peers[n := here.peers[n]]
    ensures hereAfter.peers == here.peers + (thereAfter.peers - {n})
  {
    JoinedAddresses(n, here, there, reply);
    AbsorbedWhole(n, here, hereAfter, reply, parses);
    MetSound(m, there, Peer(n, here.peers[n]), n);
    AbsorbedSound(n, here, reply);
    EnumeratedIds(reply, thereAfter.peers);
    assert Peer(m, thereAfter.peers[m]) in reply;
    var i :| 0 <= i < |reply| && reply[i] == Peer(m, thereAfter.peers[m]);
  }

  lemma JoinedAddresses(n: PeerId, here: Node, there: Node, reply: seq<Peer>)
    requires n in here.peers && Enumerates(reply, Met(there, Peer(n, here.peers[n])).peers)
    ensures var book := there.peers[n := here.peers[n]];
            Absorbed(here, n, reply).peers == here.peers + (book - {n})
  {
    var book, after := there.peers[n := here.peers[n]], Absorbed(here, n, reply).peers;
    forall id
      ensures Get(after, id) == Get(here.peers + (book - {n}), id)
    {
      if id in book && id != n {
        assert Peer(id, book[id]) in reply;
        var i :| 0 <= i < |reply| && reply[i] == Peer(id, book[id]);
        AbsorbedAddress(here, n, reply, i);
      } else {
        AbsorbedKeeps(here, n, reply, id);
      }
    }
    SameLookups(after, here.peers + (book - {n}));
  }

  lemma EnumeratedIds(peers: seq<Peer>, book: Book)
    requires Enumerates(peers, book)
    ensures (set p | p in peers :: p.id) == book.Keys
  {
    forall id | id in book
      ensures id in set p | p in peers :: p.id
    {
      assert Peer(id, book[id]) in peers;
    }
  }

  /** A join whose request or reply is lost fails, with nothing absorbed. */
  lemma JoinUnanswered(n: PeerId, here: Node, there: Node, thereAfter: Node, call: JoinCall, parses: Uri -> bool)
    requires n in here.peers && !call.Delivered?
    requires thereAfter == if call.RequestLost? then there else Met(there, Peer(n, here.peers[n]))
    ensures JoinStep(n, here, here, there, thereAfter, call, parses, [], false)
  {
    NothingAbsorbed(n, here, parses);
  }

  /** A whole join: ask, then work through the reply. */
  method Bootstrap(state: ConsensusState, toc: TableOfContent, seed: ConsensusState?, seedToc: TableOfContent,
                   call: JoinCall, parses: Uri -> bool)
    returns (r: Result<()>, ghost reply: seq<Peer>)
    requires toc.Valid() && seedToc.Valid() && state != seed
    requires toc.collections.Values !! seedToc.collections.Values
    modifies state, toc.collections.Values, seed, seedToc.collections.Values
    ensures seed == null || state.peerId !in old(state.peers) ==>
      r == Err(ServiceError) && NodeOf(state, toc) == old(NodeOf(state, toc))
    ensures seed != null && state.peerId !in old(state.peers) ==> NodeOf(seed, seedToc) == old(NodeOf(seed, seedToc))
    ensures seed != null && state.peerId in old(state.peers) ==>
      JoinStep(state.peerId, old(NodeOf(state, toc)), NodeOf(state, toc), old(NodeOf(seed, seedToc)),
               NodeOf(seed, seedToc), call, parses, reply, r.Ok?)
  {
    reply := [];
    if state.peerId !in state.peers {
      return Err(ServiceError), reply;
    }
    ghost var here := NodeOf(state, toc);
    ghost var there := if seed == null then here else NodeOf(seed, seedToc);
    var answer := AskToJoin(seed, seedToc, Peer(state.peerId, state.peers[state.peerId]), call);
    assert NodeOf(state, toc) == here;
    if answer.Err? {
      if seed != null {
        JoinUnanswered(state.peerId, here, there, NodeOf(seed, seedToc), call, parses);
      }
      return Err(ServiceError), reply;
    }
    ghost var met := NodeOf(seed, seedToc);
    reply := answer.value.allPeers;
    r := AbsorbReply(state, toc, answer.value.allPeers, parses);
    assert NodeOf(seed, seedToc) == met by {
      assert forall name :: name in seedToc.collections ==> seedToc.collections[name] !in toc.collections.Values;
    }
  }
}
