/** Whole runs of the join protocol, over every interleaving of its steps. */
module JoinRuns {
  import opened Types
  import opened Ring
  import opened Batches
  import opened IdMaps
  import opened Replicas
  import opened Views
  import opened Join
  import Runs

  const NOBODY := Cluster(map[], map[], map[])

  datatype JoinRun = JoinRun(states: seq<Cluster>, events: seq<Event>) {
    ghost predicate Valid() {
      && |states| == |events| + 1 && states[0] == NOBODY
      && forall i :: 0 <= i < |events| ==> Enabled(states[i], events[i]) && states[i + 1] == Apply(states[i], events[i])
    }
  }

  /** In every state of every run the membership invariant holds at every node. */
  lemma {:induction false} SoundAlways(run: JoinRun, i: nat)
    requires run.Valid() && i < |run.states|
    ensures Sound(run.states[i])
  {
    if i > 0 {
      SoundAlways(run, i - 1);
      StepKeepsSound(run.states[i - 1], run.events[i - 1]);
    }
  }

  // ---------- addresses ----------

  /** The address node `p` has for itself. */
  predicate OwnAddress(c: Cluster, p: PeerId, uri: Uri) {
    p in c.nodes && Get(c.nodes[p].peers, p) == Some(uri)
  }

  ghost predicate TrueBook(c: Cluster, book: Book) {
    forall p :: p in book ==> OwnAddress(c, p, book[p])
  }

  /** Whoever knows a peer, is told of it or is still to insert it has the address the peer has for itself. */
  ghost predicate TrueAddresses(c: Cluster) {
    && (forall n :: n in c.nodes ==> TrueBook(c, c.nodes[n].peers))
    && (forall q :: q in c.requests && c.requests[q].Replied? ==> TrueBook(c, c.requests[q].reply))
    && (forall n :: n in c.joiners ==> TrueBook(c, c.joiners[n].todo))
  }

  /** No step changes the address a node has for itself. */
  lemma OwnAddressStays(c: Cluster, e: Event, p: PeerId, uri: Uri)
    requires Sound(c) && Enabled(c, e) && OwnAddress(c, p, uri)
    ensures OwnAddress(Apply(c, e), p, uri)
  {
    NodeAfter(c, e, p);
    if e.AbsorbPeer? && e.n == p {
      assert JoinerSound(p, c.nodes[p], c.joiners[p]);
    }
  }

  lemma BookStays(c: Cluster, e: Event, book: Book)
    requires Sound(c) && Enabled(c, e) && TrueBook(c, book)
    ensures TrueBook(Apply(c, e), book)
  {
    forall p | p in book
      ensures OwnAddress(Apply(c, e), p, book[p])
    {
      OwnAddressStays(c, e, p, book[p]);
    }
  }

  lemma PeersStayTrue(c: Cluster, e: Event, n: PeerId)
    requires Sound(c) && TrueAddresses(c) && Enabled(c, e) && n in NodesAfter(c, e)
    ensures TrueBook(Apply(c, e), NodesAfter(c, e)[n].peers)
  {
    if n in c.nodes {
      BookStays(c, e, c.nodes[n].peers);
      if e.Receive? && e.n == n {
        OwnAddressStays(c, e, e.r, e.uri);
        BookWith(Apply(c, e), c.nodes[n].peers, e.r, e.uri);
      } else if e.AbsorbPeer? && e.n == n {
        BookStays(c, e, c.joiners[n].todo);
        BookWith(Apply(c, e), c.nodes[n].peers, e.peer, c.joiners[n].todo[e.peer]);
      } else {
        PeersKept(c, e, n);
      }
    }
  }

  lemma BookWith(c: Cluster, book: Book, p: PeerId, uri: Uri)
    requires TrueBook(c, book) && OwnAddress(c, p, uri)
    ensures TrueBook(c, book[p := uri])
  {
  }

  lemma PeersKept(c: Cluster, e: Event, n: PeerId)
    requires Enabled(c, e) && n in c.nodes && !(e.Receive? && e.n == n) && !(e.AbsorbPeer? && e.n == n)
    ensures n in NodesAfter(c, e) && NodesAfter(c, e)[n].peers == c.nodes[n].peers
  {
    NodeAfter(c, e, n);
  }

  lemma ReplyFrom(c: Cluster, e: Event, q: Asked)
    requires Enabled(c, e) && q in RequestsAfter(c, e) && RequestsAfter(c, e)[q].Replied?
    ensures if e.Reply? && q == (e.n, e.r)
            then e.n in c.nodes && RequestsAfter(c, e)[q].reply == c.nodes[e.n].peers
            else q in c.requests && c.requests[q] == RequestsAfter(c, e)[q]
  {
  }

  lemma RepliesStayTrue(c: Cluster, e: Event, q: Asked)
    requires Sound(c) && TrueAddresses(c) && Enabled(c, e)
    requires q in RequestsAfter(c, e) && RequestsAfter(c, e)[q].Replied?
    ensures TrueBook(Apply(c, e), RequestsAfter(c, e)[q].reply)
  {
    ReplyFrom(c, e, q);
    BookStays(c, e, RequestsAfter(c, e)[q].reply);
  }

  /** What a joiner is still to insert is part of a reply it got, or of what it was to insert before. */
  lemma TodoFrom(c: Cluster, e: Event, n: PeerId) returns (book: Book)
    requires Enabled(c, e) && n in JoinersAfter(c, e)
    ensures if e.StartAbsorbing? && n == e.r
            then (e.n, e.r) in c.requests && c.requests[(e.n, e.r)].Replied? && book == c.requests[(e.n, e.r)].reply
            else n in c.joiners && book == c.joiners[n].todo
    ensures forall p :: p in JoinersAfter(c, e)[n].todo ==> p in book && book[p] == JoinersAfter(c, e)[n].todo[p]
  {
    book := if e.StartAbsorbing? && n == e.r then c.requests[(e.n, e.r)].reply else c.joiners[n].todo;
  }

  lemma TodoStaysTrue(c: Cluster, e: Event, n: PeerId)
    requires Sound(c) && TrueAddresses(c) && Enabled(c, e) && n in JoinersAfter(c, e)
    ensures TrueBook(Apply(c, e), JoinersAfter(c, e)[n].todo)
  {
    var book := TodoFrom(c, e, n);
    BookStays(c, e, book);
    PartIsTrue(Apply(c, e), book, JoinersAfter(c, e)[n].todo);
  }

  lemma PartIsTrue(c: Cluster, book: Book, part: Book)
    requires TrueBook(c, book) && forall p :: p in part ==> p in book && book[p] == part[p]
    ensures TrueBook(c, part)
  {
  }

  lemma AddressesStayTrue(c: Cluster, e: Event)
    requires Sound(c) && TrueAddresses(c) && Enabled(c, e)
    ensures TrueAddresses(Apply(c, e))
  {
    var after := Apply(c, e);
    forall n | n in after.nodes
      ensures TrueBook(after, after.nodes[n].peers)
    {
      PeersStayTrue(c, e, n);
    }
    forall q | q in after.requests && after.requests[q].Replied?
      ensures TrueBook(after, after.requests[q].reply)
    {
      RepliesStayTrue(c, e, q);
    }
    forall n | n in after.joiners
      ensures TrueBook(after, after.joiners[n].todo)
    {
      TodoStaysTrue(c, e, n);
    }
  }

  lemma {:induction false} TrueAddressesAlways(run: JoinRun, i: nat)
    requires run.Valid() && i < |run.states|
    ensures TrueAddresses(run.states[i])
  {
    if i > 0 {
      TrueAddressesAlways(run, i - 1);
      SoundAlways(run, i - 1);
      AddressesStayTrue(run.states[i - 1], run.events[i - 1]);
    }
  }

  lemma {:induction false} OwnAddressLasts(run: JoinRun, i: nat, j: nat, p: PeerId, uri: Uri)
    requires run.Valid() && i <= j < |run.states| && OwnAddress(run.states[i], p, uri)
    ensures OwnAddress(run.states[j], p, uri)
  {
    if i < j {
      OwnAddressLasts(run, i, j - 1, p, uri);
      SoundAlways(run, j - 1);
      OwnAddressStays(run.states[j - 1], run.events[j - 1], p, uri);
    }
  }

  /** Whoever knows a node, however it came to, knows the address the node was started with. */
  lemma AddressesAreThoseStartedWith(run: JoinRun, k: nat, i: nat, n: PeerId, p: PeerId)
    requires run.Valid() && k < i < |run.states| && run.events[k].StartNode? && run.events[k].n == p
    requires n in run.states[i].nodes && p in run.states[i].nodes[n].peers
    ensures run.states[i].nodes[n].peers[p] == run.events[k].uri
  {
    TrueAddressesAlways(run, i);
    OwnAddressLasts(run, k + 1, i, p, run.events[k].uri);
    assert OwnAddress(run.states[i], p, run.states[i].nodes[n].peers[p]);
  }

  // ---------- replies ----------

  /** Of two replies that were given, one names everybody the other names. */
  predicate NestedReplies(p: Request, q: Request) {
    p.Replied? && q.Replied? ==> p.reply.Keys <= q.reply.Keys || q.reply.Keys <= p.reply.Keys
  }

  /** The replies each node has given form a chain under inclusion of the ids they name. */
  ghost predicate Nested(requests: map<Asked, Request>) {
    forall p, q :: p in requests && q in requests && p.0 == q.0 ==> NestedReplies(requests[p], requests[q])
  }

  /** A node's peers contain every reply it gave, so a reply made of them now fits the chain. */
  lemma NestedWith(c: Cluster, n: PeerId, r: PeerId)
    requires Sound(c) && Nested(c.requests) && n in c.nodes
    ensures Nested(c.requests[(n, r) := Replied(c.nodes[n].peers)])
  {
    forall p | p in c.requests && p.0 == n && c.requests[p].Replied?
      ensures c.requests[p].reply.Keys <= c.nodes[n].peers.Keys
    {
      assert RequestSound(p.0, c.nodes[p.0], p.1, c.requests[p]);
    }
  }

  lemma NoNewReplyNested(before: map<Asked, Request>, after: map<Asked, Request>)
    requires Nested(before)
    requires forall q :: q in after && after[q].Replied? ==> q in before && before[q] == after[q]
    ensures Nested(after)
  {
  }

  lemma StepKeepsNested(c: Cluster, e: Event)
    requires Sound(c) && Nested(c.requests) && Enabled(c, e)
    ensures Nested(RequestsAfter(c, e))
  {
    if e.Reply? {
      NestedWith(c, e.n, e.r);
    } else {
      NoNewReplyNested(c.requests, RequestsAfter(c, e));
    }
  }

  lemma {:induction false} NestedAlways(run: JoinRun, i: nat)
    requires run.Valid() && i < |run.states|
    ensures Nested(run.states[i].requests)
  {
    if i > 0 {
      SoundAlways(run, i - 1);
      NestedAlways(run, i - 1);
      StepKeepsNested(run.states[i - 1], run.events[i - 1]);
    }
  }

  /**
   The replies node `n` has given name the responder and the requester, form a chain under inclusion, and
   of any two requesters at least one was told of the other, however their requests overlapped.
   */
  lemma OfTwoJoinersOneIsTold(run: JoinRun, i: nat, n: PeerId, r: PeerId, s: PeerId)
    requires run.Valid() && i < |run.states|
    requires (n, r) in run.states[i].requests && run.states[i].requests[(n, r)].Replied?
    requires (n, s) in run.states[i].requests && run.states[i].requests[(n, s)].Replied?
    ensures var a, b := run.states[i].requests[(n, r)].reply, run.states[i].requests[(n, s)].reply;
            && {n, r} <= a.Keys && {n, s} <= b.Keys
            && (a.Keys <= b.Keys || b.Keys <= a.Keys)
            && (s in a || r in b)
  {
    SoundAlways(run, i);
    NestedAlways(run, i);
    var c := run.states[i];
    assert RequestSound(n, c.nodes[n], r, c.requests[(n, r)]) && RequestSound(n, c.nodes[n], s, c.requests[(n, s)]);
    assert NestedReplies(c.requests[(n, r)], c.requests[(n, s)]);
  }

  // ---------- who knows whom ----------

  /** The step makes `p` known at `n`. */
  predicate Introduces(e: Event, n: PeerId, p: PeerId) {
    match e
    case Receive(receiver, requester, uri) => receiver == n && requester == p
    case AbsorbPeer(requester, peer) => requester == n && peer == p
    case _ => false
  }

  predicate Introduced(events: seq<Event>, n: PeerId, p: PeerId) {
    exists e :: e in events && Introduces(e, n, p)
  }

  lemma IntroducedByOneMore(events: seq<Event>, e: Event, n: PeerId, p: PeerId)
    ensures Introduced(events + [e], n, p) <==> Introduced(events, n, p) || Introduces(e, n, p)
  {
    if Introduced(events, n, p) {
      var known :| known in events && Introduces(known, n, p);
      assert known in events + [e];
    }
    assert e in events + [e];
  }

  lemma StepIntroduces(c: Cluster, e: Event, n: PeerId, p: PeerId)
    requires Enabled(c, e)
    ensures n in NodesAfter(c, e) && n in c.nodes ==>
              (p in NodesAfter(c, e)[n].peers <==> p in c.nodes[n].peers || Introduces(e, n, p))
    ensures n in NodesAfter(c, e) && n !in c.nodes ==> NodesAfter(c, e)[n].peers.Keys == {n} && !Introduces(e, n, p)
    ensures n in c.nodes ==> n in NodesAfter(c, e)
    ensures n !in NodesAfter(c, e) ==> !Introduces(e, n, p)
  {
  }

  /** A node knows itself, those that asked it, those it was told of and inserted, and nobody else. */
  lemma {:induction false} KnownExactly(run: JoinRun, i: nat, n: PeerId, p: PeerId)
    requires run.Valid() && i < |run.states|
    ensures n in run.states[i].nodes ==>
              (p in run.states[i].nodes[n].peers <==> p == n || Introduced(run.events[..i], n, p))
    ensures n !in run.states[i].nodes ==> !Introduced(run.events[..i], n, p)
  {
    if i > 0 {
      KnownExactly(run, i - 1, n, p);
      assert run.events[..i] == run.events[..i - 1] + [run.events[i - 1]];
      IntroducedByOneMore(run.events[..i - 1], run.events[i - 1], n, p);
      StepIntroduces(run.states[i - 1], run.events[i - 1], n, p);
    }
  }

  /** A reply that has been given was given at some earlier step, and is what the node knew at that step. */
  lemma {:induction false} RepliedOnce(run: JoinRun, k: nat, n: PeerId, r: PeerId) returns (i: nat)
    requires run.Valid() && k < |run.states|
    requires (n, r) in run.states[k].requests && run.states[k].requests[(n, r)].Replied?
    ensures i < k && run.events[i] == Reply(n, r)
    ensures run.states[k].requests[(n, r)].reply == run.states[i].nodes[n].peers
  {
    if k == 0 || run.events[k - 1] == Reply(n, r) {
      i := k - 1;
    } else {
      i := RepliedOnce(run, k - 1, n, r);
    }
  }

  /** So a reply names exactly the responder and whoever was introduced to it before the reply. */
  lemma ReplyNamesExactly(run: JoinRun, k: nat, n: PeerId, r: PeerId, p: PeerId) returns (i: nat)
    requires run.Valid() && k < |run.states|
    requires (n, r) in run.states[k].requests && run.states[k].requests[(n, r)].Replied?
    ensures i < k && run.events[i] == Reply(n, r)
    ensures p in run.states[k].requests[(n, r)].reply <==> p == n || Introduced(run.events[..i], n, p)
  {
    i := RepliedOnce(run, k, n, r);
    KnownExactly(run, i, n, p);
  }

  /** What joiner `r` still has to insert comes from the reply, and it knows the rest. */
  ghost predicate WorksThrough(c: Cluster, r: PeerId, reply: Book) {
    && r in c.joiners && r in c.nodes
    && c.joiners[r].todo.Keys <= reply.Keys <= c.joiners[r].todo.Keys + c.nodes[r].peers.Keys
  }

  lemma StepWorksThrough(c: Cluster, e: Event, r: PeerId, reply: Book)
    requires Enabled(c, e) && WorksThrough(c, r, reply)
    ensures WorksThrough(Apply(c, e), r, reply)
  {
  }

  lemma StartWorksThrough(c: Cluster, e: Event)
    requires Sound(c) && Enabled(c, e) && e.StartAbsorbing?
    ensures WorksThrough(Apply(c, e), e.r, c.requests[(e.n, e.r)].reply)
  {
    assert SoundNode(e.r, c.nodes[e.r]);
  }

  /** A joiner works through one reply only. */
  lemma {:induction false} JoinerWasTold(run: JoinRun, i: nat, r: PeerId) returns (k: nat)
    requires run.Valid() && i < |run.states| && r in run.states[i].joiners
    ensures k < i && run.events[k].StartAbsorbing? && run.events[k].r == r
    ensures (run.events[k].n, r) in run.states[k].requests && run.states[k].requests[(run.events[k].n, r)].Replied?
    ensures WorksThrough(run.states[i], r, run.states[k].requests[(run.events[k].n, r)].reply)
  {
    var c, e := run.states[i - 1], run.events[i - 1];
    if r in c.joiners {
      k := JoinerWasTold(run, i - 1, r);
      StepWorksThrough(c, e, r, run.states[k].requests[(run.events[k].n, r)].reply);
    } else {
      k := i - 1;
      SoundAlways(run, k);
      StartWorksThrough(c, e);
    }
  }

  /** Node `n` has received a request from `r`. */
  predicate AskedBy(events: seq<Event>, n: PeerId, r: PeerId) {
    exists e :: e in events && e.Receive? && e.n == n && e.r == r
  }

  /**
   A node that has worked through its reply knows itself, those it was told of and those that asked it
   since: a later joiner at the node it joined through is not among them.
   */
  lemma KnownAfterJoining(run: JoinRun, i: nat, r: PeerId, p: PeerId) returns (k: nat)
    requires run.Valid() && i < |run.states| && r in run.states[i].joiners && run.states[i].joiners[r].todo == map[]
    ensures k < i && run.events[k].StartAbsorbing? && run.events[k].r == r
    ensures (run.events[k].n, r) in run.states[k].requests && run.states[k].requests[(run.events[k].n, r)].Replied?
    ensures r in run.states[i].nodes
    ensures p in run.states[i].nodes[r].peers <==>
              p == r || AskedBy(run.events[..i], r, p) || p in run.states[k].requests[(run.events[k].n, r)].reply
  {
    k := JoinerWasTold(run, i, r);
    KnownExactly(run, i, r, p);
    if AskedBy(run.events[..i], r, p) {
      var e :| e in run.events[..i] && e.Receive? && e.n == r && e.r == p;
      assert Introduces(e, r, p);
    }
    if Introduced(run.events[..i], r, p) && !AskedBy(run.events[..i], r, p) {
      var j :| 0 <= j < i && Introduces(run.events[j], r, p);
      assert run.events[j] in run.events[..i];
      var told := JoinerWasTold(run, j, r);
      OneStart(run, i, told, k, r);
    }
  }

  lemma {:induction false} JoinerStays(run: JoinRun, i: nat, j: nat, r: PeerId)
    requires run.Valid() && i <= j < |run.states| && r in run.states[i].joiners
    ensures r in run.states[j].joiners
  {
    if i < j {
      JoinerStays(run, i, j - 1, r);
    }
  }

  /** A node starts absorbing once. */
  lemma OneStart(run: JoinRun, i: nat, k: nat, l: nat, r: PeerId)
    requires run.Valid() && k < i < |run.states| && l < i
    requires run.events[k].StartAbsorbing? && run.events[k].r == r
    requires run.events[l].StartAbsorbing? && run.events[l].r == r
    ensures k == l
  {
    if k < l {
      JoinerStays(run, k + 1, l, r);
    } else if l < k {
      JoinerStays(run, l + 1, k, r);
    }
  }

  /** Whoever a node knew when it answered: itself, and those introduced to it before the reply. */
  lemma KnownOfJoined(run: JoinRun, k: nat, m: nat, n: PeerId, r: PeerId, p: PeerId) returns (i: nat)
    requires run.Valid() && m < k < |run.states| && run.events[m] == StartAbsorbing(n, r)
    requires r in run.states[k].joiners && run.states[k].joiners[r].todo == map[]
    ensures i < m && run.events[i] == Reply(n, r) && r in run.states[k].nodes
    ensures p in run.states[k].nodes[r].peers <==>
              p == r || p == n || Introduced(run.events[..i], n, p) || AskedBy(run.events[..k], r, p)
  {
    var start := KnownAfterJoining(run, k, r, p);
    OneStart(run, k, start, m, r);
    i := ReplyNamesExactly(run, m, n, r, p);
  }

  /** A node that joins nobody knows only those that asked it. */
  lemma OnlyAskersIntroduced(run: JoinRun, i: nat, k: nat, n: PeerId, p: PeerId)
    requires run.Valid() && i <= k < |run.states| && n !in run.states[k].joiners
    ensures Introduced(run.events[..i], n, p) <==> AskedBy(run.events[..i], n, p)
  {
    if Introduced(run.events[..i], n, p) {
      var j :| 0 <= j < i && Introduces(run.events[j], n, p);
      if run.events[j].AbsorbPeer? {
        JoinerStays(run, j, k, n);
      }
      assert run.events[j] in run.events[..i];
    }
    if AskedBy(run.events[..i], n, p) {
      var e :| e in run.events[..i] && e.Receive? && e.n == n && e.r == p;
      assert Introduces(e, n, p);
    }
  }

  /**
   Of two nodes that have joined through `n`, which joins nobody itself, `r` knows `s` if and only if `s` had
   asked `n` before `n` answered `r`, or `s` has asked `r` too.
   */
  lemma OfTwoJoinedExactly(run: JoinRun, k: nat, m: nat, n: PeerId, r: PeerId, s: PeerId) returns (i: nat)
    requires run.Valid() && m < k < |run.states| && run.events[m] == StartAbsorbing(n, r)
    requires r in run.states[k].joiners && run.states[k].joiners[r].todo == map[]
    requires n !in run.states[k].joiners && s != r && s != n
    ensures i < m && run.events[i] == Reply(n, r) && r in run.states[k].nodes
    ensures s in run.states[k].nodes[r].peers <==>
              AskedBy(run.events[..i], n, s) || AskedBy(run.events[..k], r, s)
  {
    i := KnownOfJoined(run, k, m, n, r, s);
    OnlyAskersIntroduced(run, i, k, n, s);
  }

  // ---------- links ----------

  /** When a request is answered, every collection of the receiving node lists the requester in every shard. */
  lemma RequesterIsLinked(run: JoinRun, i: nat, n: PeerId, r: PeerId, name: CollectionName)
    requires run.Valid() && i < |run.events| && run.events[i] == Reply(n, r)
    requires name in run.states[i].nodes[n].collections
    ensures AllList(run.states[i].nodes[n].collections[name], r)
  {
    SoundAlways(run, i);
    var c := run.states[i];
    assert RequestSound(n, c.nodes[n], r, c.requests[(n, r)]);
  }

  /** When a joiner is done with a peer, every collection it has lists that peer in every shard. */
  lemma AbsorbedPeerIsLinked(run: JoinRun, i: nat, n: PeerId, name: CollectionName)
    requires run.Valid() && i < |run.events| && run.events[i] == AbsorbNext(n)
    requires name in run.states[i].nodes[n].collections
    ensures AllList(run.states[i].nodes[n].collections[name], run.states[i].joiners[n].phase.peer)
  {
    SoundAlways(run, i);
    var c := run.states[i];
    assert JoinerSound(n, c.nodes[n], c.joiners[n]);
  }

  /** Node `n` lists `p` in every shard of the collection. */
  ghost predicate LinkedAt(c: Cluster, n: PeerId, name: CollectionName, p: PeerId) {
    n in c.nodes && name in c.nodes[n].collections && AllList(c.nodes[n].collections[name], p)
  }

  lemma StepKeepsLinks(c: Cluster, e: Event, n: PeerId, name: CollectionName, p: PeerId)
    requires Enabled(c, e)
    ensures LinkedAt(c, n, name, p) ==> LinkedAt(Apply(c, e), n, name, p)
  {
    if !e.StartNode? && !e.StartAbsorbing? && e.n == n && LinkedAt(c, n, name, p) {
      var edit := EditOf(c, e);
      if edit.LinkPeer? && edit.name == name {
        LinkedLists(c.nodes[n].collections[name], name, edit.peer, p);
      }
    }
  }

  /** A link, once made, is never undone. */
  lemma {:induction false} LinksLast(run: JoinRun, i: nat, j: nat, n: PeerId, name: CollectionName, p: PeerId)
    requires run.Valid() && i <= j < |run.states| && LinkedAt(run.states[i], n, name, p)
    ensures LinkedAt(run.states[j], n, name, p)
  {
    if i < j {
      LinksLast(run, i, j - 1, n, name, p);
      assert run.states[j] == Apply(run.states[j - 1], run.events[j - 1]);
      StepKeepsLinks(run.states[j - 1], run.events[j - 1], n, name, p);
    }
  }

  /**
   A completed join links both ways: from then on a collection both sides had lists the joiner at the
   receiving node and the receiving node at the joiner, in every shard.
   */
  lemma JoinLinksBothWays(run: JoinRun, i: nat, j: nat, k: nat, n: PeerId, r: PeerId, name: CollectionName)
    requires run.Valid() && i < |run.events| && j < |run.events| && i <= k && j <= k < |run.states|
    requires run.events[i] == Reply(n, r) && name in run.states[i].nodes[n].collections
    requires run.events[j] == AbsorbNext(r) && run.states[j].joiners[r].phase.peer == n
    requires name in run.states[j].nodes[r].collections
    ensures LinkedAt(run.states[k], n, name, r) && LinkedAt(run.states[k], r, name, n)
  {
    RequesterIsLinked(run, i, n, r, name);
    LinksLast(run, i, k, n, name, r);
    AbsorbedPeerIsLinked(run, j, r, name);
    LinksLast(run, j, k, r, name, n);
  }

  // ---------- one collection, as the data operations see it ----------

  /** The nodes that have the collection, and the remotes each lists for each shard of it. */
  ghost function TopologyOf(c: Cluster, name: CollectionName): Topology {
    map n | n in c.nodes && name in c.nodes[n].collections :: RemotesOf(c.nodes[n].collections[name])
  }

  function RemotesOf(lists: Lists): Remotes {
    map s | s in lists :: PeersOf(lists[s])
  }

  lemma SoundMeansSoundTopology(c: Cluster, name: CollectionName)
    requires Sound(c)
    ensures SoundTopology(TopologyOf(c, name))
  {
    forall n, s | n in TopologyOf(c, name) && s in TopologyOf(c, name)[n]
      ensures DistinctPeers(TopologyOf(c, name)[n][s]) && n !in TopologyOf(c, name)[n][s]
    {
      assert SoundNode(n, c.nodes[n]);
      assert SoundRemotes(n, c.nodes[n].peers, name, s, c.nodes[n].collections[name][s]);
    }
  }

  /**
   What a step is to one collection: a node that starts with the collection brings what it has stored in its
   shards, a node that creates it has nothing yet, and everything else changes remotes only.
   */
  ghost predicate IsRunEvent(e: Event, name: CollectionName, place: Placement, run: Runs.Event) {
    match e
    case StartNode(n, uri, collections) =>
      if name in collections
      then run.Start? && run.node == n && BringsShards(run.stores, collections[name], place)
      else run == Runs.Rewire
    case CreateCollection(n, created, shards) =>
      run == if created == name then Runs.Start(n, Runs.EmptyStores(shards)) else Runs.Rewire
    case _ => run == Runs.Rewire
  }

  ghost predicate BringsShards(stores: Stores, shards: set<ShardId>, place: Placement) {
    stores.Keys == shards && Routed(HashRing(shards, place), stores)
  }

  ghost function ViewAfter(view: View, run: Runs.Event): View {
    if run.Start? then view[run.node := run.stores] else view
  }

  lemma SameShards(c: Cluster, e: Event, name: CollectionName, n: PeerId)
    requires Enabled(c, e) && n in TopologyOf(c, name)
    ensures n in TopologyOf(Apply(c, e), name)
    ensures TopologyOf(Apply(c, e), name)[n].Keys == TopologyOf(c, name)[n].Keys
  {
    var after := NodesAfter(c, e);
    assert n in after && name in after[n].collections;
    assert after[n].collections[name].Keys == c.nodes[n].collections[name].Keys;
    assert TopologyOf(Apply(c, e), name)[n] == RemotesOf(after[n].collections[name]);
  }

  lemma MemberAfter(c: Cluster, e: Event, name: CollectionName, place: Placement, run: Runs.Event, n: PeerId)
    requires Enabled(c, e) && IsRunEvent(e, name, place, run)
    ensures && (n in TopologyOf(Apply(c, e), name) <==> n in TopologyOf(c, name) || (run.Start? && n == run.node))
            && (run.Start? && n == run.node ==> n !in TopologyOf(c, name))
  {
    if n in TopologyOf(c, name) {
      SameShards(c, e, name, n);
    }
  }

  lemma StartedShards(c: Cluster, e: Event, name: CollectionName, place: Placement, run: Runs.Event)
    requires Enabled(c, e) && IsRunEvent(e, name, place, run) && run.Start?
    ensures var after := TopologyOf(Apply(c, e), name);
            run.node in after && after[run.node].Keys == run.stores.Keys
    ensures Routed(HashRing(run.stores.Keys, place), run.stores)
  {
    MemberAfter(c, e, name, place, run, run.node);
    assert NodesAfter(c, e)[run.node].collections[name] == Unlinked(run.stores.Keys);
  }

  lemma NewMembers(c: Cluster, e: Event, name: CollectionName, place: Placement, run: Runs.Event)
    requires Enabled(c, e) && IsRunEvent(e, name, place, run)
    ensures var a, b := TopologyOf(c, name), TopologyOf(Apply(c, e), name);
            if run.Start?
            then run.node !in a && b.Keys == a.Keys + {run.node} && b[run.node].Keys == run.stores.Keys
            else b.Keys == a.Keys
  {
    forall n
      ensures n in TopologyOf(Apply(c, e), name) <==> n in TopologyOf(c, name) || (run.Start? && n == run.node)
      ensures run.Start? && n == run.node ==> n !in TopologyOf(c, name)
    {
      MemberAfter(c, e, name, place, run, n);
    }
    if run.Start? {
      StartedShards(c, e, name, place, run);
    }
  }

  /**
   Seen from one collection, every step of the join protocol is one of the membership steps of `Runs`:
   it starts a node with what it has stored, or changes remotes only. So what is proved of those runs holds
   with any joins going on between the operations.
   */
  lemma JoinStepIsRunStep(c: Cluster, e: Event, name: CollectionName, place: Placement, view: View, run: Runs.Event)
    requires Sound(c) && Enabled(c, e) && IsRunEvent(e, name, place, run)
    ensures Runs.Step(Runs.System(Config(place, TopologyOf(c, name)), view), run,
                      Runs.System(Config(place, TopologyOf(Apply(c, e), name)), ViewAfter(view, run)))
  {
    StepKeepsSound(c, e);
    SoundMeansSoundTopology(Apply(c, e), name);
    NewMembers(c, e, name, place, run);
    if run.Start? {
      StartedShards(c, e, name, place, run);
    }
    forall n | n in TopologyOf(c, name)
      ensures TopologyOf(Apply(c, e), name)[n].Keys == TopologyOf(c, name)[n].Keys
    {
      SameShards(c, e, name, n);
    }
  }
}
