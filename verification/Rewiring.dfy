/**
 The membership methods and the operations on points meet here: what a join or a reload does to one node's
 holder leaves a net of nodes that the operations can run on, with the same points, and is a step of `Runs`.
 */
module Rewiring {
  import opened Types
  import opened Ring
  import opened Views
  import opened IdMaps
  import opened Replicas
  import opened Collections
  import opened Join
  import opened Membership
  import opened Loading
  import Runs

  function With(net: Net, n: PeerId, holder: ReplicaHolder): Peers {
    Peers(net.holders[n := holder], net.place)
  }

  /** Same shards with the same local replicas, on the same ring. */
  ghost predicate SameReplicas(a: ReplicaHolder, b: ReplicaHolder) {
    && a.ring == b.ring && a.shards.Keys == b.shards.Keys
    && forall s :: s in a.shards ==> a.shards[s].local == b.shards[s].local
  }

  ghost predicate SoundHolder(n: PeerId, holder: ReplicaHolder) {
    && holder.Shaped()
    && forall s :: s in holder.shards ==>
         DistinctPeers(PeersOf(holder.shards[s].remotes)) && n !in PeersOf(holder.shards[s].remotes)
  }

  lemma SameFootprint(a: ReplicaHolder, b: ReplicaHolder)
    requires SameReplicas(a, b)
    ensures a.Footprint() == b.Footprint()
  {
  }

  lemma SameContents(a: ReplicaHolder, b: ReplicaHolder)
    requires SameReplicas(a, b)
    ensures a.Footprint() == b.Footprint() && a.Contents() == b.Contents()
  {
    SameFootprint(a, b);
    SameEntries(a.Contents(), b.Contents());
  }

  lemma SoundAfter(net: Net, n: PeerId, holder: ReplicaHolder)
    requires SoundHolder(n, holder)
    ensures SoundTopology(With(net, n, holder).Configured().topology)
  {
    var topology := With(net, n, holder).Configured().topology;
    forall m, s | m in topology && s in topology[m]
      ensures DistinctPeers(topology[m][s]) && m !in topology[m][s]
    {
      if m != n {
        RemotesAreSound(net, m, s);
      }
    }
  }

  lemma ShapedAfter(net: Net, n: PeerId, holder: ReplicaHolder)
    requires SoundHolder(n, holder) && holder.ring.place == net.place
    requires forall m :: m in net.holders && m != n ==> net.holders[m].Footprint() !! holder.Footprint()
    ensures With(net, n, holder).Shaped()
  {
    SoundAfter(net, n, holder);
  }

  lemma ViewAfter(net: Net, n: PeerId, holder: ReplicaHolder)
    requires With(net, n, holder).Shaped()
    ensures ViewOf(With(net, n, holder)) == ViewOf(net)[n := holder.Contents()]
  {
    SameEntries(ViewOf(With(net, n, holder)), ViewOf(net)[n := holder.Contents()]);
  }

  /** Any sound change of one node's remotes leaves a net, with the same points, and only changes remotes. */
  lemma RewiredNet(net: Net, n: PeerId, holder: ReplicaHolder)
    requires n in net.holders && SameReplicas(net.holders[n], holder) && SoundHolder(n, holder)
    ensures With(net, n, holder).Shaped()
    ensures ViewOf(With(net, n, holder)) == ViewOf(net)
    ensures Runs.Step(Runs.System(net.Configured(), ViewOf(net)), Runs.Rewire,
                      Runs.System(With(net, n, holder).Configured(), ViewOf(With(net, n, holder))))
  {
    SameContents(net.holders[n], holder);
    ShapedAfter(net, n, holder);
    ViewAfter(net, n, holder);
    assert holder.Contents() == ViewOf(net)[n];
    SameEntries(ViewOf(net)[n := holder.Contents()], ViewOf(net));
    OnlyRemotesChange(net, n, holder);
  }

  lemma OnlyRemotesChange(net: Net, n: PeerId, holder: ReplicaHolder)
    requires n in net.holders && holder.shards.Keys == net.holders[n].shards.Keys && SoundHolder(n, holder)
    ensures var before, after := net.Configured(), With(net, n, holder).Configured();
            && before.place == after.place && SoundTopology(after.topology)
               && after.topology.Keys == before.topology.Keys
            && forall m :: m in before.topology ==> after.topology[m].Keys == before.topology[m].Keys
  {
    SoundAfter(net, n, holder);
  }

  lemma LinkedSoundHolder(n: PeerId, holder: ReplicaHolder, name: CollectionName, peer: PeerId)
    requires SoundHolder(n, holder) && peer != n
    ensures SoundHolder(n, LinkedHolder(holder, name, peer)) && SameReplicas(holder, LinkedHolder(holder, name, peer))
  {
    forall s | s in holder.shards
      ensures DistinctPeers(PeersOf(WithPeer(holder.shards[s].remotes, s, name, peer)))
      ensures n !in PeersOf(WithPeer(holder.shards[s].remotes, s, name, peer))
    {
      WithPeerPeers(holder.shards[s].remotes, s, name, peer);
    }
    LinkedShaped(holder, name, peer);
  }

  lemma LinkedShaped(holder: ReplicaHolder, name: CollectionName, peer: PeerId)
    requires holder.Shaped()
    ensures LinkedHolder(holder, name, peer).Shaped()
  {
  }

  lemma NetIsSound(net: Net, n: PeerId)
    requires n in net.holders
    ensures SoundHolder(n, net.holders[n])
  {
    forall s | s in net.holders[n].shards
      ensures DistinctPeers(PeersOf(net.holders[n].shards[s].remotes))
              && n !in PeersOf(net.holders[n].shards[s].remotes)
    {
      RemotesAreSound(net, n, s);
    }
  }

  /** What adding a remote to every shard leaves is again a net with the same points. */
  lemma LinkedNet(net: Net, n: PeerId, name: CollectionName, peer: PeerId)
    requires n in net.holders && peer != n
    ensures var holder := LinkedHolder(net.holders[n], name, peer);
            && With(net, n, holder).Shaped() && ViewOf(With(net, n, holder)) == ViewOf(net)
            && Runs.Step(Runs.System(net.Configured(), ViewOf(net)), Runs.Rewire,
                         Runs.System(With(net, n, holder).Configured(), ViewOf(With(net, n, holder))))
  {
    NetIsSound(net, n);
    LinkedSoundHolder(n, net.holders[n], name, peer);
    RewiredNet(net, n, LinkedHolder(net.holders[n], name, peer));
  }

  /** So is what loading gives, from what the node left when it stopped. */
  lemma ReloadedNet(net: Net, n: PeerId, entries: seq<Entry>, reloaded: ReplicaHolder)
    requires n in net.holders && SavedAs(net.holders[n].shards, entries)
    requires forall s :: s in net.holders[n].shards ==> s < U32_LIMIT
    requires Loaded(entries).Some?
    requires reloaded == ReplicaHolder(Loaded(entries).value, HashRing(Loaded(entries).value.Keys, net.place))
    ensures With(net, n, reloaded).Shaped() && ViewOf(With(net, n, reloaded)) == ViewOf(net)
    ensures Runs.Step(Runs.System(net.Configured(), ViewOf(net)), Runs.Rewire,
                      Runs.System(With(net, n, reloaded).Configured(), ViewOf(With(net, n, reloaded))))
  {
    LoadedExactly(net.holders[n].shards, entries);
    DetachedIsShaped(net.holders[n]);
    RewiredNet(net, n, reloaded);
  }

  /** A node that gets the collection, with what it has stored in shards of its own, makes a larger net. */
  lemma StartedNet(net: Net, n: PeerId, holder: ReplicaHolder)
    requires n !in net.holders && SoundHolder(n, holder) && holder.ring.place == net.place
    requires holder.Footprint() !! net.Footprint()
    requires Routed(holder.ring, holder.Contents())
    ensures With(net, n, holder).Shaped()
    ensures Runs.Step(Runs.System(net.Configured(), ViewOf(net)), Runs.Start(n, holder.Contents()),
                      Runs.System(With(net, n, holder).Configured(), ViewOf(With(net, n, holder))))
  {
    forall m | m in net.holders
      ensures net.holders[m].Footprint() !! holder.Footprint()
    {
      assert net.holders[m].Footprint() <= net.Footprint();
    }
    ShapedAfter(net, n, holder);
    ViewAfter(net, n, holder);
    OneMoreMember(net, n, holder);
  }

  lemma OneMoreMember(net: Net, n: PeerId, holder: ReplicaHolder)
    requires n !in net.holders && SoundHolder(n, holder)
    ensures var before, after := net.Configured(), With(net, n, holder).Configured();
            && before.place == after.place && SoundTopology(after.topology) && n !in before.topology
            && after.topology.Keys == before.topology.Keys + {n} && after.topology[n].Keys == holder.shards.Keys
            && forall m :: m in before.topology ==> after.topology[m].Keys == before.topology[m].Keys
  {
    SoundAfter(net, n, holder);
  }
}
