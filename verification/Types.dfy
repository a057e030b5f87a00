/** Identifiers, points and results shared by every module. */
module Types {
  const U64_LIMIT: nat := 0x1_0000_0000_0000_0000

  type U64 = n: int | 0 <= n < U64_LIMIT
  type ShardId = nat
  type PeerId = nat
  type SegmentId = nat
  type CollectionName = string

  datatype Option<+T> = None | Some(value: T)

  /** The two kinds of storage error; the message text is not modelled. */
  datatype Error = BadInput | ServiceError

  datatype Result<+T> = Ok(value: T) | Err(error: Error)

  datatype PointId = Id(number: U64) | Uuid(text: string)

  /** A payload is its JSON text; nothing below ever looks inside it. */
  datatype Point = Point(id: PointId, payload: string)

  function Get<K, V>(m: map<K, V>, k: K): Option<V> {
    if k in m then Some(m[k]) else None
  }

  /** Two maps that answer every lookup alike are the same map. */
  lemma SameLookups<K, V>(a: map<K, V>, b: map<K, V>)
    requires forall k :: Get(a, k) == Get(b, k)
    ensures a == b
  {
    forall k
      ensures k in a <==> k in b
      ensures k in a ==> a[k] == b[k]
    {
      assert Get(a, k) == Get(b, k);
    }
  }

  lemma SameEntries<K, V>(a: map<K, V>, b: map<K, V>)
    requires forall k :: k in a <==> k in b
    requires forall k :: k in a ==> a[k] == b[k]
    ensures a == b
  {
  }

  lemma UpdatedKeys<K, V>(m: map<K, V>, k: K, v: V)
    ensures m[k := v].Keys == m.Keys + {k}
  {
  }

  lemma TakeAll<T>(s: seq<T>)
    ensures s[..|s|] == s
  {
  }

  lemma TakeMore<T>(s: seq<T>, i: nat)
    requires i < |s|
    ensures s[..i + 1] == s[..i] + [s[i]]
  {
  }

  lemma TimesOneMore(n: nat, d: nat)
    ensures (n + 1) * d == n * d + d
  {
  }

  lemma TimesMonotone(a: nat, b: nat, d: nat)
    requires a <= b
    ensures a * d <= b * d
  {
  }

  lemma AddedOne<T>(s: set<T>, x: T)
    requires x !in s
    ensures |s + {x}| == |s| + 1
  {
  }

  lemma RemovedOne<T>(s: set<T>, x: T)
    requires x in s
    ensures |s - {x}| == |s| - 1
  {
  }

  lemma {:induction false} SubsetSize<T>(a: set<T>, b: set<T>)
    requires a <= b
    ensures |a| <= |b|
  {
    if a != {} {
      var x :| x in a;
      SubsetSize(a - {x}, b - {x});
    }
  }

  lemma OtherThan<T>(s: set<T>, x: T) returns (y: T)
    requires |s| >= 2
    ensures y in s && y != x
  {
    if s - {x} == {} {
      SubsetSize(s, {x});
    }
    y :| y in s - {x};
  }
}
