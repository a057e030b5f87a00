/** A collection's shards when it is created, and when a node finds them again on disk. */
module Loading {
  import opened Types
  import opened IdText
  import opened Ring
  import opened Segments
  import opened Replicas
  import opened Listings

  const U32_LIMIT: nat := 0x1_0000_0000

  function InitialShards(segment0: Segment, segment1: Segment): map<ShardId, ReplicaSet> {
    map[0 := ReplicaSet(LocalShard(0, map[0 := segment0]), []), 1 := ReplicaSet(LocalShard(1, map[0 := segment1]), [])]
  }

  lemma InitialIsShaped(segment0: Segment, segment1: Segment, place: Placement)
    requires segment0 != segment1
    ensures ReplicaHolder(InitialShards(segment0, segment1), HashRing({0, 1}, place)).Shaped()
  {
  }

  lemma InitialContents(segment0: Segment, segment1: Segment, place: Placement)
    requires segment0.db == segment1.db == map[]
    ensures var holder := ReplicaHolder(InitialShards(segment0, segment1), HashRing({0, 1}, place));
            && holder.Contents() == map[0 := map[], 1 := map[]] && holder.RemotePeers() == map[0 := [], 1 := []]
            && holder.Footprint() == {segment0, segment1}
  {
    var holder := ReplicaHolder(InitialShards(segment0, segment1), HashRing({0, 1}, place));
    assert holder.shards.Keys == {0, 1};
    assert holder.shards[0].local.segments[0] == segment0 && holder.shards[1].local.segments[0] == segment1;
    SameEntries(holder.Contents(), map[0 := map[], 1 := map[]]);
    SameEntries(holder.RemotePeers(), map[0 := [], 1 := []]);
  }

  /** Creates a collection: two empty shards, numbered 0 and 1, without remotes. */
  method Init(place: Placement) returns (holder: ReplicaHolder)
    ensures holder.Shaped() && fresh(holder.Footprint())
    ensures holder.ring == HashRing({0, 1}, place)
    ensures holder.Contents() == map[0 := map[], 1 := map[]]
    ensures holder.RemotePeers() == map[0 := [], 1 := []]
  {
    var segment0 := new Segment.Create();
    var segment1 := new Segment.Create();
    holder := NewReplicaHolder(InitialShards(segment0, segment1), place);
    assert InitialShards(segment0, segment1).Keys == {0, 1};
    InitialIsShaped(segment0, segment1, place);
    InitialContents(segment0, segment1, place);
  }

  /** What the collection's directory holds: plain files, and directories with the segments found in them. */
  datatype Entry = File | Directory(name: string, segments: map<SegmentId, Segment>)

  /** A shard id is an unsigned 32-bit number. */
  function ParseShardId(name: string): Option<ShardId> {
    var parsed := ParseU64(name);
    if parsed.Some? && parsed.value < U32_LIMIT then Some(parsed.value) else None
  }

  /** The shards of the directories listed, without remotes; of two with the same id the later counts. */
  function Loaded(entries: seq<Entry>): Option<map<ShardId, ReplicaSet>> {
    if entries == [] then Some(map[])
    else
      var before := Loaded(entries[..|entries| - 1]);
      match entries[|entries| - 1]
      case File => before
      case Directory(name, segments) =>
        var id := ParseShardId(name);
        if before.None? || id.None? then None
        else Some(before.value[id.value := ReplicaSet(LocalShard(id.value, segments), [])])
  }

  /** A directory is a shard's if its name is digits, perhaps after a '+', that denote a number of 32 bits. */
  lemma ShardNamesExactly(name: string, s: nat)
    ensures ParseShardId(name) == Some(s) <==>
            exists digits: string ::
              && (name == digits || name == "+" + digits)
              && digits != "" && (forall i :: 0 <= i < |digits| ==> '0' <= digits[i] <= '9')
              && DecimalValue(digits) == s && s < 4294967296
  {
    if |name| > 1 && name[0] == '+' {
      assert name == "+" + name[1..];
    }
    forall digits: string | digits != "" && (forall i :: 0 <= i < |digits| ==> '0' <= digits[i] <= '9')
                            && (name == digits || name == "+" + digits)
      ensures ParseShardId(name) == if DecimalValue(digits) < 4294967296 then Some(DecimalValue(digits)) else None
    {
      assert name == "+" + digits ==> name[1..] == digits;
    }
  }

  /** A single directory that is no shard's fails the load, */
  lemma {:induction false} LoadedUnless(entries: seq<Entry>)
    ensures Loaded(entries).None? <==>
            exists i :: 0 <= i < |entries| && entries[i].Directory? && ParseShardId(entries[i].name).None?
  {
    if entries != [] {
      var init := entries[..|entries| - 1];
      LoadedUnless(init);
      forall i | 0 <= i < |init|
        ensures init[i] == entries[i]
      {
      }
    }
  }

  /** and otherwise each shard is what the last directory with its name held. */
  lemma {:induction false} LoadedAt(entries: seq<Entry>, i: nat, s: ShardId)
    requires Loaded(entries).Some? && i < |entries| && entries[i].Directory? && ParseShardId(entries[i].name) == Some(s)
    requires forall j :: i < j < |entries| && entries[j].Directory? ==> ParseShardId(entries[j].name) != Some(s)
    ensures Get(Loaded(entries).value, s) == Some(ReplicaSet(LocalShard(s, entries[i].segments), []))
  {
    if i < |entries| - 1 {
      LoadedAt(entries[..|entries| - 1], i, s);
    }
  }

  lemma {:induction false} LoadedOnly(entries: seq<Entry>, s: ShardId)
    requires Loaded(entries).Some?
    requires forall j :: 0 <= j < |entries| && entries[j].Directory? ==> ParseShardId(entries[j].name) != Some(s)
    ensures s !in Loaded(entries).value
  {
    if entries != [] {
      LoadedOnly(entries[..|entries| - 1], s);
    }
  }

  lemma {:induction false} NoneStays(entries: seq<Entry>, n: nat)
    requires n <= |entries| && Loaded(entries[..n]).None?
    ensures Loaded(entries).None?
  {
    if n < |entries| {
      assert entries[..|entries| - 1][..n] == entries[..n];
      NoneStays(entries[..|entries| - 1], n);
    } else {
      TakeAll(entries);
    }
  }

  /** No segment of any of the directories has gone by the time it is opened. */
  predicate AllOpen(entries: seq<Entry>, gone: nat -> bool) {
    forall i :: 0 <= i < |entries| && entries[i].Directory? ==> !gone(i)
  }

  /**
   Loads a collection; its configuration must have been read, every directory must be a shard's, and its
   segments must open. `gone(i)` says that a segment of entry `i` has gone before it is opened.
   */
  method Load(config: Result<()>, entries: seq<Entry>, gone: nat -> bool, place: Placement)
    returns (r: Result<ReplicaHolder>)
    ensures config.Err? ==> r == Err(config.error)
    ensures config.Ok? && r.Err? ==> r == Err(ServiceError)
    ensures r.Ok? <==> config.Ok? && Loaded(entries).Some? && AllOpen(entries, gone)
    ensures r.Ok? ==> r.value == ReplicaHolder(Loaded(entries).value, HashRing(Loaded(entries).value.Keys, place))
  {
    if config.Err? {
      return Err(config.error);
    }
    var replicas: map<ShardId, ReplicaSet> := map[];
    for i := 0 to |entries|
      invariant Loaded(entries[..i]) == Some(replicas)
      invariant forall j :: 0 <= j < i && entries[j].Directory? ==> !gone(j)
    {
      assert entries[..i + 1][..i] == entries[..i];
      match entries[i] {
        case File =>
        case Directory(name, segments) =>
          var id := ParseShardId(name);
          if id.None? || gone(i) {
            if id.None? {
              NoneStays(entries, i + 1);
            } else {
              assert !AllOpen(entries, gone);
            }
            return Err(ServiceError);
          }
          replicas := replicas[id.value := ReplicaSet(LocalShard(id.value, segments), [])];
      }
    }
    TakeAll(entries);
    var holder := NewReplicaHolder(replicas, place);
    r := Ok(holder);
  }

  /** The directory is what a stopped node left: one directory per shard, named by its id. */
  ghost predicate SavedAs(shards: map<ShardId, ReplicaSet>, entries: seq<Entry>) {
    && (forall e :: e in entries && e.Directory? ==>
          exists s :: s in shards && e == Directory(Decimal(s), shards[s].local.segments))
    && (forall s :: s in shards ==> Directory(Decimal(s), shards[s].local.segments) in entries)
  }

  function Detached(shards: map<ShardId, ReplicaSet>): map<ShardId, ReplicaSet> {
    map s | s in shards :: shards[s].(remotes := [])
  }

  lemma ShardNameRoundTrip(s: ShardId)
    requires s < U32_LIMIT
    ensures ParseShardId(Decimal(s)) == Some(s)
  {
    DecimalRoundTrip(s);
    assert IsDigit(Decimal(s)[0]);
  }

  lemma {:induction false} LoadedPart(shards: map<ShardId, ReplicaSet>, entries: seq<Entry>, n: nat)
    requires n <= |entries| && SavedAs(shards, entries)
    requires forall s :: s in shards ==> s < U32_LIMIT && shards[s].local.id == s
    ensures Loaded(entries[..n]).Some?
    ensures forall s :: s in Loaded(entries[..n]).value <==>
                        s in shards && Directory(Decimal(s), shards[s].local.segments) in entries[..n]
    ensures forall s :: s in Loaded(entries[..n]).value ==> Loaded(entries[..n]).value[s] == Detached(shards)[s]
  {
    if n > 0 {
      LoadedPart(shards, entries, n - 1);
      assert entries[..n][..n - 1] == entries[..n - 1];
      TakeMore(entries, n - 1);
      var e := entries[n - 1];
      if e.Directory? {
        var t :| t in shards && e == Directory(Decimal(t), shards[t].local.segments);
        ShardNameRoundTrip(t);
        forall s | s in shards && Directory(Decimal(s), shards[s].local.segments) == e
          ensures s == t
        {
          ShardNameRoundTrip(s);
        }
      }
    }
  }

  /** Loading what a stopped node left gives its shards back, whatever the order of the directory, without remotes. */
  lemma LoadedExactly(shards: map<ShardId, ReplicaSet>, entries: seq<Entry>)
    requires SavedAs(shards, entries)
    requires forall s :: s in shards ==> s < U32_LIMIT && shards[s].local.id == s
    ensures Loaded(entries) == Some(Detached(shards))
  {
    LoadedPart(shards, entries, |entries|);
    TakeAll(entries);
    SameEntries(Loaded(entries).value, Detached(shards));
  }

  /** Dropping the remotes changes neither the shape of a holder nor what it stores. */
  lemma DetachedIsShaped(holder: ReplicaHolder)
    requires holder.Shaped()
    ensures holder.(shards := Detached(holder.shards)).Shaped()
    ensures holder.(shards := Detached(holder.shards)).Contents() == holder.Contents()
    ensures holder.(shards := Detached(holder.shards)).RemotePeers() == map s | s in holder.shards :: []
  {
    var detached := holder.(shards := Detached(holder.shards));
    SameEntries(detached.Contents(), holder.Contents());
    SameEntries(detached.RemotePeers(), map s | s in holder.shards :: []);
  }

  /** So the reloaded node routes every id as before and stores the same points: reads by id find the same. */
  lemma ReloadReadsTheSame(holder: ReplicaHolder, entries: seq<Entry>, reloaded: ReplicaHolder, ids: seq<PointId>)
    requires holder.Shaped() && SavedAs(holder.shards, entries)
    requires forall s :: s in holder.shards ==> s < U32_LIMIT
    requires Loaded(entries).Some?
    requires reloaded == ReplicaHolder(Loaded(entries).value, HashRing(Loaded(entries).value.Keys, holder.ring.place))
    ensures reloaded.Shaped() && reloaded.ring == holder.ring && reloaded.Contents() == holder.Contents()
    ensures Found(reloaded.ring, reloaded.Contents(), ids) == Found(holder.ring, holder.Contents(), ids)
    ensures reloaded.RemotePeers() == map s | s in holder.shards :: []
  {
    LoadedExactly(holder.shards, entries);
    DetachedIsShaped(holder);
    assert reloaded == holder.(shards := Detached(holder.shards));
  }
}
