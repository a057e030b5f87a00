/** What a successful listing contains, and when it does not depend on the order the shards are visited in. */
module ListingLaws {
  import opened Types
  import opened IdText
  import opened IdOrder
  import opened Batches
  import opened Views
  import opened IdMaps
  import opened Guarantees

  /** The point offered is that of the first source, in order, which has one. */
  lemma {:induction false} FirstOfferIsFirst(view: View, self: PeerId, sources: seq<PeerId>, s: ShardId, id: PointId,
                                             p: Point)
    ensures FirstOffer(view, self, sources, s, id) == Some(p) <==>
            exists i :: 0 <= i < |sources| && Offer(view, self, sources[i], s, id) == Some(p)
                        && forall j :: 0 <= j < i ==> Offer(view, self, sources[j], s, id).None?
    ensures FirstOffer(view, self, sources, s, id).None? <==>
            forall i :: 0 <= i < |sources| ==> Offer(view, self, sources[i], s, id).None?
  {
    if sources != [] {
      var init := sources[..|sources| - 1];
      FirstOfferIsFirst(view, self, init, s, id, p);
      assert forall i :: 0 <= i < |init| ==> sources[i] == init[i];
      if FirstOffer(view, self, init, s, id).Some? {
        FirstOfferIsFirst(view, self, init, s, id, FirstOffer(view, self, init, s, id).value);
      }
      if FirstOffer(view, self, init, s, id) == Some(p) {
        var i :| 0 <= i < |init| && Offer(view, self, init[i], s, id) == Some(p)
                 && forall j :: 0 <= j < i ==> Offer(view, self, init[j], s, id).None?;
        assert Offer(view, self, sources[i], s, id) == Some(p);
      }
      if FirstOffer(view, self, init, s, id).None? && Offer(view, self, sources[|init|], s, id) == Some(p) {
        assert forall j :: 0 <= j < |init| ==> Offer(view, self, sources[j], s, id).None?;
      }
    }
  }

  /** What a source offers is shown unless one before it offers something. */
  lemma {:induction false} FirstOfferUpTo(view: View, self: PeerId, sources: seq<PeerId>, l: nat, s: ShardId,
                                          id: PointId)
    requires l < |sources| && Offer(view, self, sources[l], s, id).Some?
    ensures var earlier := FirstOffer(view, self, sources[..l], s, id);
            FirstOffer(view, self, sources, s, id) ==
            if earlier.Some? then earlier else Offer(view, self, sources[l], s, id)
  {
    if l < |sources| - 1 {
      assert sources[..|sources| - 1][..l] == sources[..l];
      FirstOfferUpTo(view, self, sources[..|sources| - 1], l, s, id);
    }
  }

  /** On every node, every point sits where that node's ring routes it. */
  ghost predicate RoutedView(cfg: Config, view: View) {
    cfg.Fits(view) && forall n :: n in cfg.topology ==> Routed(cfg.RingOf(n), view[n])
  }

  /** With the same shards everywhere, a point of id `id` can only be offered for the shard of `id`. */
  lemma {:induction false} OfferedWhereRouted(cfg: Config, self: PeerId, view: View, sources: seq<PeerId>, s: ShardId,
                                              id: PointId)
    requires self in cfg.topology && UniformShards(cfg) && RoutedView(cfg, view)
    requires FirstOffer(view, self, sources, s, id).Some?
    ensures s == cfg.RingOf(self).At(id)
  {
    var n := sources[|sources| - 1];
    if FirstOffer(view, self, sources[..|sources| - 1], s, id).Some? {
      OfferedWhereRouted(cfg, self, view, sources[..|sources| - 1], s, id);
    } else {
      assert FindById(view[n][s], id).Some?;
      assert Routed(cfg.RingOf(n), view[n]);
      assert Lands(cfg.RingOf(n), view[n][s][IntoString(id)].id, s, IntoString(id));
      assert cfg.RingOf(n) == cfg.RingOf(self);
    }
  }

  lemma ListedByItsShard(cfg: Config, self: PeerId, view: View, points: seq<Point>, p: Point)
    requires UniformShards(cfg) && RoutedView(cfg, view)
    requires ShowsOffers(cfg, self, None, false, view, points) && p in points
    ensures var s := cfg.RingOf(self).At(p.id);
            s in cfg.topology[self] && Listed(cfg, view, self, s, false, p.id) == Some(p)
  {
    assert Shows(cfg, view, self, Visited(cfg, self, None), false, p);
    var t :| t in Visited(cfg, self, None) && Listed(cfg, view, self, t, false, p.id) == Some(p);
    OfferedWhereRouted(cfg, self, view, Sources(cfg, self, t, false), t, p.id);
  }

  lemma ListingByShard(cfg: Config, self: PeerId, view: View, points: seq<Point>, p: Point)
    requires UniformShards(cfg) && RoutedView(cfg, view)
    requires ListStep(cfg, self, None, false, view, points)
    ensures var s := cfg.RingOf(self).At(p.id);
            p in points <==> s in cfg.topology[self] && Listed(cfg, view, self, s, false, p.id) == Some(p)
  {
    var s := cfg.RingOf(self).At(p.id);
    ListStepShows(cfg, self, None, false, view, points);
    if p in points {
      ListedByItsShard(cfg, self, view, points, p);
    } else if s in cfg.topology[self] && Listed(cfg, view, self, s, false, p.id) == Some(p) {
      assert HasId(points, p.id);
      var q :| q in points && q.id == p.id;
      ListedByItsShard(cfg, self, view, points, q);
      assert false;
    }
  }

  /**
   A full listing is strictly sorted and holds, for every id, the local version in the id's shard if there
   is one, otherwise that of the first remote in order that has one and may send it, and nothing else.
   */
  lemma ListingExactly(cfg: Config, self: PeerId, view: View, points: seq<Point>, p: Point)
    requires UniformShards(cfg) && RoutedView(cfg, view)
    requires ListStep(cfg, self, None, false, view, points)
    ensures StrictlySorted(points)
    ensures var s := cfg.RingOf(self).At(p.id);
            p in points <==> s in cfg.topology[self] && FirstHolds(view, self, [self] + cfg.topology[self][s], s, p)
  {
    var s := cfg.RingOf(self).At(p.id);
    ListingByShard(cfg, self, view, points, p);
    if s in cfg.topology[self] {
      FirstOfferIsFirst(view, self, Sources(cfg, self, s, false), s, p.id, p);
    }
  }

  /** Point `p` is what the first of `sources` to have something under its id has to offer. */
  ghost predicate FirstHolds(view: View, self: PeerId, sources: seq<PeerId>, s: ShardId, p: Point) {
    exists i :: 0 <= i < |sources| && Offer(view, self, sources[i], s, p.id) == Some(p)
                && forall j :: 0 <= j < i ==> Offer(view, self, sources[j], s, p.id).None?
  }

  /** A node that has a version of an id lists that one and no other, whatever its remotes have. */
  lemma OwnVersionIsListed(cfg: Config, self: PeerId, view: View, points: seq<Point>, own: Point)
    requires UniformShards(cfg) && RoutedView(cfg, view)
    requires ListStep(cfg, self, None, false, view, points)
    requires Holds(cfg.RingOf(self), view[self], own)
    ensures forall p :: p in points && p.id == own.id <==> p == own
  {
    var s := cfg.RingOf(self).At(own.id);
    var sources := Sources(cfg, self, s, false);
    assert sources[0] == self && Offer(view, self, sources[0], s, own.id) == Some(own);
    FirstOfferUpTo(view, self, sources, 0, s, own.id);
    assert sources[..0] == [];
    forall p
      ensures p in points && p.id == own.id <==> p == own
    {
      ListingByShard(cfg, self, view, points, p);
    }
  }

  // ---------- independence of the visiting order ----------

  /** No two visited shards have different versions to offer for one id. */
  ghost predicate OneVersionPerId(cfg: Config, self: PeerId, only: Option<ShardId>, localOnly: bool, view: View)
    requires self in cfg.topology
  {
    forall s, t, id :: s in Visited(cfg, self, only) && t in Visited(cfg, self, only)
                       && Listed(cfg, view, self, s, localOnly, id).Some?
                          && Listed(cfg, view, self, t, localOnly, id).Some? ==>
                         Listed(cfg, view, self, s, localOnly, id) == Listed(cfg, view, self, t, localOnly, id)
  }

  ghost predicate AllReachable(cfg: Config, self: PeerId, only: Option<ShardId>, localOnly: bool, view: View)
    requires self in cfg.topology
  {
    forall s, n :: s in Visited(cfg, self, only) && n in Sources(cfg, self, s, localOnly) ==> n in view
  }

  /** Uniform shards and the routing invariant leave one version per id. */
  lemma RoutedMeansOneVersion(cfg: Config, self: PeerId, only: Option<ShardId>, localOnly: bool, view: View)
    requires self in cfg.topology && UniformShards(cfg) && RoutedView(cfg, view)
    ensures OneVersionPerId(cfg, self, only, localOnly, view)
  {
    forall s, t, id | s in Visited(cfg, self, only) && t in Visited(cfg, self, only)
                      && Listed(cfg, view, self, s, localOnly, id).Some?
                         && Listed(cfg, view, self, t, localOnly, id).Some?
      ensures s == t
    {
      OfferedWhereRouted(cfg, self, view, Sources(cfg, self, s, localOnly), s, id);
      OfferedWhereRouted(cfg, self, view, Sources(cfg, self, t, localOnly), t, id);
    }
  }

  /** Two orders that show the same for every id give the same listing. */
  lemma SameShownSameListing(cfg: Config, self: PeerId, localOnly: bool, view: View, o: seq<ShardId>, q: seq<ShardId>,
                             a: seq<Point>, b: seq<Point>)
    requires ListsIn(cfg, self, o, localOnly, view, a) && ListsIn(cfg, self, q, localOnly, view, b)
    requires forall id :: ListedIn(cfg, view, self, o, localOnly, id) == ListedIn(cfg, view, self, q, localOnly, id)
    ensures a == b
  {
    SortedDetermined(a, b);
  }

  /** If each id has one version to offer, all orders show the same. */
  lemma OneVersionSameShown(cfg: Config, self: PeerId, only: Option<ShardId>, localOnly: bool, view: View,
                            o: seq<ShardId>, q: seq<ShardId>, id: PointId)
    requires self in cfg.topology && OneVersionPerId(cfg, self, only, localOnly, view)
    requires OrderOf(o, Visited(cfg, self, only)) && OrderOf(q, Visited(cfg, self, only))
    ensures ListedIn(cfg, view, self, o, localOnly, id) == ListedIn(cfg, view, self, q, localOnly, id)
  {
    ListedInExactly(cfg, view, self, o, localOnly, id);
    ListedInExactly(cfg, view, self, q, localOnly, id);
  }

  lemma {:induction false} FirstInOrderWins(cfg: Config, view: View, self: PeerId, order: seq<ShardId>, localOnly: bool,
                                            id: PointId)
    requires HasShards(cfg, self, order) && order != []
    requires Listed(cfg, view, self, order[0], localOnly, id).Some?
    ensures ListedIn(cfg, view, self, order, localOnly, id) == Listed(cfg, view, self, order[0], localOnly, id)
  {
    if |order| == 1 {
      assert order[..0] == [];
    } else {
      FirstInOrderWins(cfg, view, self, order[..|order| - 1], localOnly, id);
    }
  }

  lemma {:induction false} OrderExists(shards: set<ShardId>) returns (order: seq<ShardId>)
    ensures OrderOf(order, shards)
  {
    if shards == {} {
      order := [];
    } else {
      var s :| s in shards;
      order := OrderStartingWith(shards, s);
    }
  }

  lemma {:induction false} OrderStartingWith(shards: set<ShardId>, s: ShardId) returns (order: seq<ShardId>)
    requires s in shards
    ensures OrderOf(order, shards) && order != [] && order[0] == s
    decreases shards, 0
  {
    var rest := OrderExists(shards - {s});
    order := [s] + rest;
    forall t
      ensures t in order <==> t in shards
    {
      assert t == s ==> order[0] == t;
    }
  }

  // Every order of the shards has a listing.

  lemma {:induction false} SortedExists(points: map<PointId, Point>) returns (values: seq<Point>)
    requires forall id :: id in points ==> points[id].id == id
    ensures StrictlySorted(values)
    ensures forall p :: p in values <==> p.id in points && points[p.id] == p
    decreases |points|
  {
    if points.Keys == {} {
      values := [];
    } else {
      var least := LeastExists(points.Keys);
      var rest := points - {least};
      var tail := SortedExists(rest);
      values := [points[least]] + tail;
      forall i, j | 0 <= i < j < |values|
        ensures Less(values[i].id, values[j].id)
      {
        assert values[j] == tail[j - 1] && tail[j - 1] in tail;
      }
    }
  }

  function IdsIn(view: View): set<PointId> {
    set n, s, k | n in view && s in view[n] && k in view[n][s] :: view[n][s][k].id
  }

  lemma {:induction false} FirstOfferIsStored(view: View, self: PeerId, sources: seq<PeerId>, s: ShardId, id: PointId)
    requires FirstOffer(view, self, sources, s, id).Some?
    ensures id in IdsIn(view)
  {
    if FirstOffer(view, self, sources[..|sources| - 1], s, id).Some? {
      FirstOfferIsStored(view, self, sources[..|sources| - 1], s, id);
    } else {
      assert view[sources[|sources| - 1]][s][IntoString(id)].id == id;
    }
  }

  /** What an order shows, for all ids. */
  ghost function ShownIn(cfg: Config, self: PeerId, order: seq<ShardId>, localOnly: bool,
                         view: View): map<PointId, Point>
    requires HasShards(cfg, self, order)
  {
    map id | id in IdsIn(view) && ListedIn(cfg, view, self, order, localOnly, id).Some? ::
      ListedIn(cfg, view, self, order, localOnly, id).value
  }

  lemma ShownInExactly(cfg: Config, self: PeerId, order: seq<ShardId>, localOnly: bool, view: View, id: PointId)
    requires HasShards(cfg, self, order)
    ensures Get(ShownIn(cfg, self, order, localOnly, view), id) == ListedIn(cfg, view, self, order, localOnly, id)
    ensures id in ShownIn(cfg, self, order, localOnly, view) ==> ShownIn(cfg, self, order, localOnly, view)[id].id == id
  {
    ListedInExactly(cfg, view, self, order, localOnly, id);
    var shown := ListedIn(cfg, view, self, order, localOnly, id);
    if shown.Some? {
      var s :| s in order && Listed(cfg, view, self, s, localOnly, id) == shown;
      FirstOfferIsStored(view, self, Sources(cfg, self, s, localOnly), s, id);
    }
  }

  /** When all replicas can be reached, every order of the shards gives a listing. */
  lemma ListingExists(cfg: Config, self: PeerId, only: Option<ShardId>, localOnly: bool, view: View,
                      order: seq<ShardId>)
    returns (points: seq<Point>)
    requires self in cfg.topology && cfg.Fits(view) && AllReachable(cfg, self, only, localOnly, view)
    requires OrderOf(order, Visited(cfg, self, only))
    ensures ListsIn(cfg, self, order, localOnly, view, points)
  {
    forall id
      ensures Get(ShownIn(cfg, self, order, localOnly, view), id) == ListedIn(cfg, view, self, order, localOnly, id)
      ensures id in ShownIn(cfg, self, order, localOnly, view) ==>
              ShownIn(cfg, self, order, localOnly, view)[id].id == id
    {
      ShownInExactly(cfg, self, order, localOnly, view, id);
    }
    points := SortedExists(ShownIn(cfg, self, order, localOnly, view));
    forall p
      ensures p in points <==> ListedIn(cfg, view, self, order, localOnly, p.id) == Some(p)
    {
      assert Get(ShownIn(cfg, self, order, localOnly, view), p.id) == ListedIn(cfg, view, self, order, localOnly, p.id);
    }
  }

  lemma FullListingExists(cfg: Config, self: PeerId, view: View) returns (points: seq<Point>)
    requires self in cfg.topology && cfg.Fits(view) && AllReachable(cfg, self, None, false, view)
    ensures ListStep(cfg, self, None, false, view, points)
  {
    var order := OrderExists(Visited(cfg, self, None));
    points := ListingExists(cfg, self, None, false, view, order);
  }

  /** So a listing by a node with a version of its own hides any other. */
  lemma OwnVersionHides(cfg: Config, self: PeerId, view: View, own: Point, other: Point) returns (points: seq<Point>)
    requires UniformShards(cfg) && RoutedView(cfg, view) && self in cfg.topology
    requires AllReachable(cfg, self, None, false, view)
    requires Holds(cfg.RingOf(self), view[self], own) && other.id == own.id && other != own
    ensures ListStep(cfg, self, None, false, view, points) && own in points && other !in points
  {
    points := FullListingExists(cfg, self, view);
    OwnVersionIsListed(cfg, self, view, points, own);
  }

  /** If shard `s` lists an id, an order that starts with `s` gives a listing with that version. */
  lemma ListingStartingWith(cfg: Config, self: PeerId, only: Option<ShardId>, localOnly: bool, view: View, s: ShardId,
                            id: PointId)
    returns (order: seq<ShardId>, points: seq<Point>)
    requires self in cfg.topology && cfg.Fits(view) && AllReachable(cfg, self, only, localOnly, view)
    requires s in Visited(cfg, self, only) && Listed(cfg, view, self, s, localOnly, id).Some?
    ensures OrderOf(order, Visited(cfg, self, only)) && ListsIn(cfg, self, order, localOnly, view, points)
    ensures Listed(cfg, view, self, s, localOnly, id).value in points
    ensures Listed(cfg, view, self, s, localOnly, id).value.id == id
  {
    order := OrderStartingWith(Visited(cfg, self, only), s);
    points := ListingExists(cfg, self, only, localOnly, view, order);
    FirstInOrderWins(cfg, view, self, order, localOnly, id);
    ListedInExactly(cfg, view, self, order, localOnly, id);
  }

  /** The listings of all orders of the visited shards are the same. */
  ghost predicate OrderDoesNotMatter(cfg: Config, self: PeerId, only: Option<ShardId>, localOnly: bool, view: View)
    requires self in cfg.topology
  {
    forall o, q, a, b ::
      OrderOf(o, Visited(cfg, self, only)) && OrderOf(q, Visited(cfg, self, only))
      && ListsIn(cfg, self, o, localOnly, view, a) && ListsIn(cfg, self, q, localOnly, view, b) ==>
        a == b
  }

  /** Every two orders of the shards give the same listing if and only if no id has two versions to offer. */
  lemma ListingIsUniqueIff(cfg: Config, self: PeerId, only: Option<ShardId>, localOnly: bool, view: View)
    requires self in cfg.topology && cfg.Fits(view) && AllReachable(cfg, self, only, localOnly, view)
    ensures OneVersionPerId(cfg, self, only, localOnly, view) <==> OrderDoesNotMatter(cfg, self, only, localOnly, view)
  {
    if OneVersionPerId(cfg, self, only, localOnly, view) {
      forall o, q, a, b | OrderOf(o, Visited(cfg, self, only)) && OrderOf(q, Visited(cfg, self, only))
                          && ListsIn(cfg, self, o, localOnly, view, a) && ListsIn(cfg, self, q, localOnly, view, b)
        ensures a == b
      {
        forall id
          ensures ListedIn(cfg, view, self, o, localOnly, id) == ListedIn(cfg, view, self, q, localOnly, id)
        {
          OneVersionSameShown(cfg, self, only, localOnly, view, o, q, id);
        }
        SameShownSameListing(cfg, self, localOnly, view, o, q, a, b);
      }
    } else {
      var s, t, id :| s in Visited(cfg, self, only) && t in Visited(cfg, self, only)
                      && Listed(cfg, view, self, s, localOnly, id).Some?
                         && Listed(cfg, view, self, t, localOnly, id).Some?
                      && Listed(cfg, view, self, s, localOnly, id) != Listed(cfg, view, self, t, localOnly, id);
      var o, q, a, b := TwoOrders(cfg, self, only, localOnly, view, s, t, id);
    }
  }

  /** Two shards with different versions of an id make two orders with different listings. */
  lemma TwoOrders(cfg: Config, self: PeerId, only: Option<ShardId>, localOnly: bool, view: View, s: ShardId, t: ShardId,
                  id: PointId)
    returns (o: seq<ShardId>, q: seq<ShardId>, a: seq<Point>, b: seq<Point>)
    requires self in cfg.topology && cfg.Fits(view) && AllReachable(cfg, self, only, localOnly, view)
    requires s in Visited(cfg, self, only) && t in Visited(cfg, self, only)
    requires Listed(cfg, view, self, s, localOnly, id).Some? && Listed(cfg, view, self, t, localOnly, id).Some?
    requires Listed(cfg, view, self, s, localOnly, id) != Listed(cfg, view, self, t, localOnly, id)
    ensures OrderOf(o, Visited(cfg, self, only)) && OrderOf(q, Visited(cfg, self, only))
    ensures ListsIn(cfg, self, o, localOnly, view, a) && ListsIn(cfg, self, q, localOnly, view, b)
    ensures a != b
  {
    o, a := ListingStartingWith(cfg, self, only, localOnly, view, s, id);
    q, b := ListingStartingWith(cfg, self, only, localOnly, view, t, id);
    NotBoth(a, Listed(cfg, view, self, s, localOnly, id).value, Listed(cfg, view, self, t, localOnly, id).value);
  }

  /** A sorted listing holds one point per id. */
  lemma NotBoth(points: seq<Point>, p: Point, q: Point)
    requires StrictlySorted(points) && p in points && p.id == q.id && p != q
    ensures q !in points
  {
    LessTotal(p.id, q.id);
  }
}
