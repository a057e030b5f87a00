/** The order of point ids in a listing: numbers before texts, each in its own order. */
module IdOrder {
  import opened Types

  predicate TextLess(a: string, b: string) {
    if b == [] then false
    else if a == [] then true
    else a[0] < b[0] || (a[0] == b[0] && TextLess(a[1..], b[1..]))
  }

  predicate Less(a: PointId, b: PointId) {
    match (a, b)
    case (Id(m), Id(n)) => m < n
    case (Id(_), Uuid(_)) => true
    case (Uuid(_), Id(_)) => false
    case (Uuid(s), Uuid(t)) => TextLess(s, t)
  }

  lemma {:induction false} TextIrreflexive(a: string)
    ensures !TextLess(a, a)
  {
    if a != [] {
      TextIrreflexive(a[1..]);
    }
  }

  lemma {:induction false} TextTotal(a: string, b: string)
    ensures a == b || TextLess(a, b) || TextLess(b, a)
    ensures !(TextLess(a, b) && TextLess(b, a))
  {
    if a != [] && b != [] {
      TextTotal(a[1..], b[1..]);
      assert a == [a[0]] + a[1..] && b == [b[0]] + b[1..];
    }
  }

  lemma {:induction false} TextTransitive(a: string, b: string, c: string)
    requires TextLess(a, b) && TextLess(b, c)
    ensures TextLess(a, c)
  {
    if a != [] && a[0] == b[0] == c[0] {
      TextTransitive(a[1..], b[1..], c[1..]);
    }
  }

  lemma {:induction false} FirstDifference(a: string, b: string) returns (i: nat)
    requires TextLess(a, b)
    ensures i <= |a| && i < |b| && a[..i] == b[..i] && (i == |a| || (i < |a| && a[i] < b[i]))
  {
    if a != [] && a[0] == b[0] {
      var j := FirstDifference(a[1..], b[1..]);
      i := j + 1;
      assert a[..i] == [a[0]] + a[1..][..j];
      assert b[..i] == [b[0]] + b[1..][..j];
    } else {
      i := 0;
    }
  }

  lemma {:induction false} LessFromDifference(a: string, b: string, i: nat)
    requires i <= |a| && i < |b| && a[..i] == b[..i] && (i == |a| || (i < |a| && a[i] < b[i]))
    ensures TextLess(a, b)
  {
    if i > 0 {
      assert a[0] == a[..i][0] == b[..i][0] == b[0];
      assert a[1..][..i - 1] == a[..i][1..] == b[..i][1..] == b[1..][..i - 1];
      LessFromDifference(a[1..], b[1..], i - 1);
    }
  }

  /** Of two texts the earlier is a proper prefix of the later, or has the smaller character where they first differ. */
  lemma TextLessExactly(a: string, b: string)
    ensures TextLess(a, b) <==>
            exists i: nat :: i <= |a| && i < |b| && a[..i] == b[..i] && (i == |a| || (i < |a| && a[i] < b[i]))
  {
    if TextLess(a, b) {
      var i := FirstDifference(a, b);
    } else if exists i: nat :: i <= |a| && i < |b| && a[..i] == b[..i] && (i == |a| || (i < |a| && a[i] < b[i])) {
      var i: nat :| i <= |a| && i < |b| && a[..i] == b[..i] && (i == |a| || (i < |a| && a[i] < b[i]));
      LessFromDifference(a, b, i);
    }
  }

  lemma LessTotal(a: PointId, b: PointId)
    ensures a == b || Less(a, b) || Less(b, a)
    ensures !(Less(a, b) && Less(b, a))
    ensures !Less(a, a)
  {
    if a.Uuid? {
      TextIrreflexive(a.text);
      if b.Uuid? {
        TextTotal(a.text, b.text);
      }
    }
  }

  lemma LessTransitive(a: PointId, b: PointId, c: PointId)
    requires Less(a, b) && Less(b, c)
    ensures Less(a, c)
  {
    if a.Uuid? && b.Uuid? && c.Uuid? {
      TextTransitive(a.text, b.text, c.text);
    }
  }

  ghost predicate IsLeast(id: PointId, ids: set<PointId>) {
    id in ids && forall other :: other in ids ==> other == id || Less(id, other)
  }

  lemma {:induction false} LeastExists(ids: set<PointId>) returns (least: PointId)
    requires ids != {}
    ensures IsLeast(least, ids)
  {
    var first :| first in ids;
    least := first;
    var rest := ids - {first};
    assert ids == rest + {first};
    if rest != {} {
      var next := LeastExists(rest);
      LessTotal(first, next);
      if Less(next, first) {
        least := next;
      } else {
        forall other | other in rest && other != next
          ensures Less(first, other)
        {
          LessTransitive(first, next, other);
        }
      }
    }
  }

  /** Strictly increasing ids, hence no id twice. */
  ghost predicate StrictlySorted(points: seq<Point>) {
    forall i, j :: 0 <= i < j < |points| ==> Less(points[i].id, points[j].id)
  }

  /**
   What that means for two points of a sorted sequence: numbers come before texts, numbers ascend by value, and
   texts character by character, a prefix before what continues it.
   */
  lemma SortedExactly(points: seq<Point>, i: nat, j: nat)
    requires StrictlySorted(points) && i < j < |points|
    ensures var a, b := points[i].id, points[j].id;
            && (a.Uuid? ==> b.Uuid?)
            && (a.Id? && b.Id? ==> a.number < b.number)
            && (a.Uuid? && b.Uuid? ==>
                  exists l: nat ::
                    && l <= |a.text| && l < |b.text| && a.text[..l] == b.text[..l]
                    && (l == |a.text| || (l < |a.text| && a.text[l] < b.text[l])))
  {
    assert Less(points[i].id, points[j].id);
    if points[i].id.Uuid? && points[j].id.Uuid? {
      TextLessExactly(points[i].id.text, points[j].id.text);
    }
  }

  /** A strictly sorted sequence is determined by the set of its elements. */
  lemma {:induction false} SortedDetermined(a: seq<Point>, b: seq<Point>)
    requires StrictlySorted(a) && StrictlySorted(b)
    requires forall p :: p in a <==> p in b
    ensures a == b
  {
    assert a == [] || a[0] in b;
    assert b == [] || b[0] in a;
    if a != [] && b != [] {
      var i :| 0 <= i < |b| && b[i] == a[0];
      var j :| 0 <= j < |a| && a[j] == b[0];
      LessTotal(a[0].id, b[0].id);
      assert a[0] == b[0];
      forall p
        ensures p in a[1..] <==> p in b[1..]
      {
        LessTotal(a[0].id, a[0].id);
        if p in a[1..] {
          assert p in b;
        }
        if p in b[1..] {
          assert p in a;
        }
      }
      SortedDetermined(a[1..], b[1..]);
      assert a == [a[0]] + a[1..] && b == [b[0]] + b[1..];
    }
  }

  /** The values of an id-keyed ordered map, in key order. */
  method IntoValues(points: map<PointId, Point>) returns (values: seq<Point>)
    requires forall id :: id in points ==> points[id].id == id
    ensures StrictlySorted(values)
    ensures forall p :: p in values <==> p.id in points && points[p.id] == p
    ensures |values| == |points|
  {
    values := [];
    var todo := points.Keys;
    while todo != {}
      invariant todo <= points.Keys
      invariant StrictlySorted(values)
      invariant forall p :: p in values <==> p.id in points.Keys - todo && points[p.id] == p
      invariant forall p, id :: p in values && id in todo ==> Less(p.id, id)
      invariant |values| + |todo| == |points|
      decreases |todo|
    {
      ghost var witnessed := LeastExists(todo);
      assert IsLeast(witnessed, todo);
      var least :| least in todo && forall other :: other in todo ==> other == least || Less(least, other);
      values := values + [points[least]];
      todo := todo - {least};
    }
  }
}
