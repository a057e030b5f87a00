/**
 What can go wrong during one client operation, and exactly when the operation succeeds all the same.

 The faults are chosen beforehand: which local writes and reads fail, and which calls are lost, before they
 are served or on the way back. Within one operation a node uses each shard at most once for each call it
 serves, and calls each remote of a shard at most once, so a fault is named by the shard, or by the shard
 and the peer called for it.
 */
module Failures {
  import opened Types
  import opened Batches
  import opened Views

  /**
   `writing(s)` is the number of points shard `s` takes before its write fails, if it does; as many as it is
   given means that only the final flush fails. `reading(s)` says whether reading shard `s` fails.
   */
  datatype LocalFaults = LocalFaults(writing: ShardId -> Option<nat>, reading: ShardId -> bool)

  datatype CallFault = Lost | Served(local: LocalFaults, replyLost: bool)

  datatype Faults = Faults(local: LocalFaults, calls: (ShardId, PeerId) -> CallFault)

  function NoLocalFaults(): LocalFaults {
    LocalFaults(_ => None, _ => false)
  }

  function NoFaults(): Faults {
    Faults(NoLocalFaults(), (_, _) => Served(NoLocalFaults(), false))
  }

  /** For each node, the shards that found their segment: the others refuse to be read or written. */
  type Usable = map<PeerId, set<ShardId>>

  predicate CanUse(usable: Usable, n: PeerId, s: ShardId) {
    n in usable && s in usable[n]
  }

  // ---------- upserts ----------

  predicate WriteSucceeds(usable: Usable, n: PeerId, s: ShardId, fault: Option<nat>) {
    CanUse(usable, n, s) && fault.None?
  }

  /** Every shard the points go to on node `n` takes its part, and there are shards if there are points. */
  ghost predicate AllWritesSucceed(cfg: Config, usable: Usable, n: PeerId, points: seq<Point>, faults: LocalFaults) {
    && n in cfg.topology && (points != [] ==> cfg.topology[n].Keys != {})
    && forall s :: s in ShardsOf(cfg.RingOf(n), points) ==> WriteSucceeds(usable, n, s, faults.writing(s))
  }

  /** The call is served, all its numeric points are written, and the reply arrives. */
  ghost predicate CallSucceeds(cfg: Config, usable: Usable, n: PeerId, points: seq<Point>, fault: CallFault) {
    fault.Served? && !fault.replyLost && AllWritesSucceed(cfg, usable, n, Wire(points), fault.local)
  }

  /**
   A call succeeds exactly if it is served and answered, the node is there, and each number sent leads to a shard
   of the node that has its segment and does not fail.
   */
  lemma CallSucceedsExactly(cfg: Config, usable: Usable, n: PeerId, points: seq<Point>, fault: CallFault)
    ensures CallSucceeds(cfg, usable, n, points, fault) <==>
            && fault.Served? && !fault.replyLost && n in cfg.topology
            && forall p :: p in points && p.id.Id? ==>
                 && cfg.topology[n].Keys != {}
                 && var s := cfg.RingOf(n).At(p.id);
                    n in usable && s in usable[n] && fault.local.writing(s) == None
  {
    WireExactly(points);
    if fault.Served? && n in cfg.topology {
      var ring := cfg.RingOf(n);
      assert forall p :: p in points && p.id.Id? ==> p in Wire(points) && ring.At(p.id) in ShardsOf(ring, Wire(points));
      assert Wire(points) != [] ==> Wire(points)[0] in Wire(points);
    }
  }

  /** Texts are not sent, so a call for texts only succeeds whenever it gets through, whatever the node can store. */
  lemma TextsAreAcknowledgedUnread(cfg: Config, usable: Usable, n: PeerId, points: seq<Point>, fault: CallFault)
    requires n in cfg.topology && forall p :: p in points ==> p.id.Uuid?
    ensures CallSucceeds(cfg, usable, n, points, fault) <==> fault.Served? && !fault.replyLost
  {
    NoTextIsSent(points);
  }

  lemma {:induction false} NoTextIsSent(points: seq<Point>)
    requires forall p :: p in points ==> p.id.Uuid?
    ensures Wire(points) == []
  {
    if points != [] {
      NoTextIsSent(points[..|points| - 1]);
    }
  }

  /** The remotes that acknowledge a shard's points. */
  ghost function Acks(cfg: Config, usable: Usable, faults: Faults, self: PeerId, s: ShardId, points: seq<Point>,
                      localOnly: bool): set<PeerId>
    requires self in cfg.topology && s in cfg.topology[self]
  {
    set n | n in cfg.topology[self][s] && !localOnly && CallSucceeds(cfg, usable, n, points, faults.calls(s, n))
  }

  ghost predicate GroupSucceeds(cfg: Config, usable: Usable, faults: Faults, self: PeerId, s: ShardId,
                                points: seq<Point>, localOnly: bool)
  {
    && self in cfg.topology && s in cfg.topology[self]
    && WriteSucceeds(usable, self, s, faults.local.writing(s))
    && (localOnly || 1 + |Acks(cfg, usable, faults, self, s, points, localOnly)| >= Enough(cfg, self, s))
  }

  /** Every shard of the batch outside `todo` succeeds. */
  ghost predicate GroupsSucceed(cfg: Config, usable: Usable, faults: Faults, self: PeerId, points: seq<Point>,
                                localOnly: bool, todo: set<ShardId>)
  {
    && self in cfg.topology
    && forall s :: s in ShardsOf(cfg.RingOf(self), points) && s !in todo ==>
         GroupSucceeds(cfg, usable, faults, self, s, Group(cfg.RingOf(self), points, s), localOnly)
  }

  /** An upsert succeeds: it has shards for its points, and every one of them is written and acknowledged enough. */
  ghost predicate UpsertSucceeds(cfg: Config, usable: Usable, faults: Faults, self: PeerId, points: seq<Point>,
                                 localOnly: bool)
  {
    && GroupsSucceed(cfg, usable, faults, self, points, localOnly, {})
    && (points != [] ==> cfg.topology[self].Keys != {})
  }

  /** The acknowledgements recorded for the shards reached are those the faults allow. */
  ghost predicate AckedExactly(cfg: Config, usable: Usable, faults: Faults, self: PeerId, points: seq<Point>,
                               localOnly: bool, acked: map<ShardId, set<PeerId>>)
  {
    && self in cfg.topology
    && forall s :: s in acked ==>
         && s in cfg.topology[self]
         && acked[s] == Acks(cfg, usable, faults, self, s, Group(cfg.RingOf(self), points, s), localOnly)
  }

  /** Of the shards of the batch those outside `todo` have succeeded, with the acknowledgements recorded. */
  ghost predicate Judged(cfg: Config, usable: Usable, faults: Faults, self: PeerId, points: seq<Point>, localOnly: bool,
                         todo: set<ShardId>, acked: map<ShardId, set<PeerId>>)
  {
    && AckedExactly(cfg, usable, faults, self, points, localOnly, acked)
    && GroupsSucceed(cfg, usable, faults, self, points, localOnly, todo)
  }

  /** What has happened to shard `s`: the acknowledgements it got, if this node has it, and whether it succeeded. */
  ghost predicate Attempted(cfg: Config, usable: Usable, faults: Faults, self: PeerId, points: seq<Point>,
                            localOnly: bool, s: ShardId, acked: map<ShardId, set<PeerId>>, ok: bool,
                            after: map<ShardId, set<PeerId>>)
  {
    && self in cfg.topology
    && var group := Group(cfg.RingOf(self), points, s);
    && (ok <==> GroupSucceeds(cfg, usable, faults, self, s, group, localOnly))
    && after == if s in cfg.topology[self] then acked[s := Acks(cfg, usable, faults, self, s, group, localOnly)]
       else acked
  }

  lemma JudgedMore(cfg: Config, usable: Usable, faults: Faults, self: PeerId, points: seq<Point>, localOnly: bool,
                   todo: set<ShardId>, s: ShardId, acked: map<ShardId, set<PeerId>>, ok: bool,
                   after: map<ShardId, set<PeerId>>)
    requires Judged(cfg, usable, faults, self, points, localOnly, todo, acked)
    requires s in todo && s in ShardsOf(cfg.RingOf(self), points)
    requires Attempted(cfg, usable, faults, self, points, localOnly, s, acked, ok, after)
    ensures AckedExactly(cfg, usable, faults, self, points, localOnly, after)
    ensures ok ==> Judged(cfg, usable, faults, self, points, localOnly, todo - {s}, after)
    ensures !ok ==> !GroupsSucceed(cfg, usable, faults, self, points, localOnly, {})
  {
  }

  /** A local upsert succeeds exactly if all its writes do. */
  lemma LocalUpsertSucceeds(cfg: Config, usable: Usable, faults: Faults, self: PeerId, points: seq<Point>)
    ensures UpsertSucceeds(cfg, usable, faults, self, points, true) <==>
            AllWritesSucceed(cfg, usable, self, points, faults.local)
  {
    if self in cfg.topology && cfg.topology[self].Keys != {} {
      forall s | s in ShardsOf(cfg.RingOf(self), points)
        ensures s in cfg.topology[self]
      {
      }
    }
  }

  /** With two acknowledgements enough, a shard's remotes contribute one between them, or there are none. */
  lemma OneRemoteIsEnough(cfg: Config, usable: Usable, faults: Faults, self: PeerId, s: ShardId, points: seq<Point>)
    requires self in cfg.topology && s in cfg.topology[self]
    ensures 1 + |Acks(cfg, usable, faults, self, s, points, false)| >= Enough(cfg, self, s) <==>
            cfg.topology[self][s] == []
            || exists n :: n in cfg.topology[self][s] && CallSucceeds(cfg, usable, n, points, faults.calls(s, n))
  {
    var acks := Acks(cfg, usable, faults, self, s, points, false);
    if exists n :: n in cfg.topology[self][s] && CallSucceeds(cfg, usable, n, points, faults.calls(s, n)) {
      var n :| n in cfg.topology[self][s] && CallSucceeds(cfg, usable, n, points, faults.calls(s, n));
      assert n in acks;
    } else {
      assert acks == {};
    }
  }

  /**
   So a client's upsert succeeds if and only if the batch is empty, or this node has shards, none of the
   shards of the batch fails its local write, and each that has remotes is acknowledged by one of them.
   */
  lemma UpsertSucceedsIff(cfg: Config, usable: Usable, faults: Faults, self: PeerId, points: seq<Point>)
    requires self in cfg.topology
    ensures UpsertSucceeds(cfg, usable, faults, self, points, false) <==>
            && (points != [] ==> cfg.topology[self].Keys != {})
            && forall s :: s in ShardsOf(cfg.RingOf(self), points) ==>
                 && s in cfg.topology[self]
                 && self in usable && s in usable[self] && faults.local.writing(s) == None
                 && (cfg.topology[self][s] == []
                     || exists n :: n in cfg.topology[self][s]
                          && CallSucceeds(cfg, usable, n, Group(cfg.RingOf(self), points, s), faults.calls(s, n)))
  {
    forall s | s in ShardsOf(cfg.RingOf(self), points) && s in cfg.topology[self]
      ensures var group := Group(cfg.RingOf(self), points, s);
              1 + |Acks(cfg, usable, faults, self, s, group, false)| >= Enough(cfg, self, s) <==>
              cfg.topology[self][s] == []
              || exists n :: n in cfg.topology[self][s] && CallSucceeds(cfg, usable, n, group, faults.calls(s, n))
    {
      OneRemoteIsEnough(cfg, usable, faults, self, s, Group(cfg.RingOf(self), points, s));
    }
  }

  /** Every node can use all its shards, and has some; every remote listed is a node. */
  ghost predicate Healthy(cfg: Config, usable: Usable) {
    && (forall n :: n in cfg.topology ==>
          cfg.topology[n].Keys != {} && n in usable && cfg.topology[n].Keys <= usable[n])
    && (forall n, s, m :: n in cfg.topology && s in cfg.topology[n] && m in cfg.topology[n][s] ==> m in cfg.topology)
  }

  lemma RoutedShardsExist(cfg: Config, n: PeerId, points: seq<Point>)
    requires n in cfg.topology && cfg.topology[n].Keys != {}
    ensures ShardsOf(cfg.RingOf(n), points) <= cfg.topology[n].Keys
  {
  }

  /** In a healthy cluster nothing but a fault makes an upsert fail. */
  lemma FaultFreeUpsertSucceeds(cfg: Config, usable: Usable, self: PeerId, points: seq<Point>, localOnly: bool)
    requires Healthy(cfg, usable) && self in cfg.topology
    ensures UpsertSucceeds(cfg, usable, NoFaults(), self, points, localOnly)
  {
    RoutedShardsExist(cfg, self, points);
    forall s | s in ShardsOf(cfg.RingOf(self), points)
      ensures GroupSucceeds(cfg, usable, NoFaults(), self, s, Group(cfg.RingOf(self), points, s), localOnly)
    {
      var group := Group(cfg.RingOf(self), points, s);
      forall n | n in cfg.topology[self][s]
        ensures CallSucceeds(cfg, usable, n, group, NoFaults().calls(s, n))
      {
        RoutedShardsExist(cfg, n, Wire(group));
      }
      OneRemoteIsEnough(cfg, usable, NoFaults(), self, s, group);
      if cfg.topology[self][s] != [] {
        assert cfg.topology[self][s][0] in cfg.topology[self][s];
      }
    }
  }

  // ---------- reads ----------

  predicate ReadSucceeds(usable: Usable, n: PeerId, s: ShardId, fails: bool) {
    CanUse(usable, n, s) && !fails
  }

  /** Remote `n` answers for shard `s`; one it does not have it answers with nothing. */
  ghost predicate AnswerArrives(cfg: Config, usable: Usable, n: PeerId, s: ShardId, fault: CallFault) {
    && n in cfg.topology && fault.Served? && !fault.replyLost
    && (s in cfg.topology[n] ==> ReadSucceeds(usable, n, s, fault.local.reading(s)))
  }

  /** Every replica of shard `s` answers. */
  ghost predicate ShardAnswers(cfg: Config, usable: Usable, faults: Faults, self: PeerId, s: ShardId, localOnly: bool) {
    && self in cfg.topology && s in cfg.topology[self]
    && ReadSucceeds(usable, self, s, faults.local.reading(s))
    && (localOnly || forall n :: n in cfg.topology[self][s] ==> AnswerArrives(cfg, usable, n, s, faults.calls(s, n)))
  }

  /** A listing succeeds: every replica of every visited shard answers. */
  ghost predicate ListSucceeds(cfg: Config, usable: Usable, faults: Faults, self: PeerId, only: Option<ShardId>,
                               localOnly: bool)
  {
    && self in cfg.topology
    && forall s :: s in Visited(cfg, self, only) ==> ShardAnswers(cfg, usable, faults, self, s, localOnly)
  }

  /** A read by ids succeeds: there are shards to find ids in, and the local shards they lead to can be read. */
  ghost predicate FindSucceeds(cfg: Config, usable: Usable, faults: LocalFaults, self: PeerId, ids: seq<PointId>) {
    && self in cfg.topology && (ids != [] ==> cfg.topology[self].Keys != {})
    && forall id :: id in ids ==>
         var s := cfg.RingOf(self).At(id);
         ReadSucceeds(usable, self, s, faults.reading(s))
  }

  /** Spelt out, a listing succeeds exactly if each replica of each shard visited can be read and gets through. */
  lemma ListSucceedsExactly(cfg: Config, usable: Usable, faults: Faults, self: PeerId, only: Option<ShardId>,
                            localOnly: bool)
    requires self in cfg.topology
    ensures ListSucceeds(cfg, usable, faults, self, only, localOnly) <==>
            forall s :: s in cfg.topology[self] && (only == None || only == Some(s)) ==>
              && self in usable && s in usable[self] && !faults.local.reading(s)
              && (localOnly || forall n :: n in cfg.topology[self][s] ==>
                    && n in cfg.topology && faults.calls(s, n).Served? && !faults.calls(s, n).replyLost
                    && (s in cfg.topology[n] ==>
                          n in usable && s in usable[n] && !faults.calls(s, n).local.reading(s)))
  {
    assert forall s :: s in Visited(cfg, self, only) <==> s in cfg.topology[self] && (only == None || only == Some(s));
    if ListSucceeds(cfg, usable, faults, self, only, localOnly) {
      forall s, n | s in Visited(cfg, self, only) && n in cfg.topology[self][s] && !localOnly
        ensures AnswerArrives(cfg, usable, n, s, faults.calls(s, n))
      {
      }
    }
  }

  ghost predicate GetSucceeds(cfg: Config, usable: Usable, faults: Faults, self: PeerId, ids: Option<seq<PointId>>,
                              shardId: Option<ShardId>, localOnly: bool)
  {
    if ids.None? then ListSucceeds(cfg, usable, faults, self, shardId, localOnly)
    else if shardId.None? then FindSucceeds(cfg, usable, faults.local, self, ids.value)
    else self in cfg.topology && shardId.value in cfg.topology[self]
         && ReadSucceeds(usable, self, shardId.value, faults.local.reading(shardId.value))
  }

  /** In a healthy cluster nothing but a fault, or an unknown shard, makes a read fail. */
  lemma FaultFreeReadSucceeds(cfg: Config, usable: Usable, self: PeerId, ids: Option<seq<PointId>>,
                              shardId: Option<ShardId>, localOnly: bool)
    requires Healthy(cfg, usable) && self in cfg.topology
    ensures GetSucceeds(cfg, usable, NoFaults(), self, ids, shardId, localOnly) <==>
            ids.None? || shardId.None? || shardId.value in cfg.topology[self]
  {
  }
}
