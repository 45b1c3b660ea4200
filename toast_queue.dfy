/** The list rules of the toast provider as functions on sequences: head
    insertion, urgent promotion, truncation to the ceiling, and removal by
    id. The provider's methods are proved against these. */
module ToastQueue {
  import opened ToastTypes

  /** The ids present in a toast list. */
  function IdSet(s: seq<Toast>): set<ToastId> {
    set t | t in s :: t.id
  }

  /** No two records of the list share an id. */
  predicate DistinctIds(s: seq<Toast>) {
    forall i, j :: 0 <= i < j < |s| ==> s[i].id != s[j].id
  }

  lemma IdSetAppend(a: seq<Toast>, b: seq<Toast>)
    ensures IdSet(a + b) == IdSet(a) + IdSet(b)
  {
    forall id | id in IdSet(a + b) ensures id in IdSet(a) + IdSet(b) {
      var t :| t in a + b && t.id == id;
    }
    forall id | id in IdSet(a) + IdSet(b) ensures id in IdSet(a + b) {
      if id in IdSet(a) {
        var t :| t in a && t.id == id;
        assert t in a + b;
      } else {
        var t :| t in b && t.id == id;
        assert t in a + b;
      }
    }
  }

  /** `prevToasts.filter(t => t.priority !== 'urgent')`. */
  function NonUrgent(s: seq<Toast>): (r: seq<Toast>)
    ensures |r| <= |s|
    ensures forall t :: t in r <==> t in s && t.priority != Urgent
  {
    if s == [] then []
    else if s[0].priority == Urgent then NonUrgent(s[1..])
    else [s[0]] + NonUrgent(s[1..])
  }

  /** The filter keeps order: it distributes over concatenation. */
  lemma {:induction false} NonUrgentAppend(a: seq<Toast>, b: seq<Toast>)
    ensures NonUrgent(a + b) == NonUrgent(a) + NonUrgent(b)
    decreases |a|
  {
    if a == [] {
      assert a + b == b;
    } else {
      assert (a + b)[1..] == a[1..] + b;
      NonUrgentAppend(a[1..], b);
    }
  }

  /** A list without urgent records is left as it is. */
  lemma {:induction false} NonUrgentNoUrgent(s: seq<Toast>)
    requires forall i :: 0 <= i < |s| ==> s[i].priority != Urgent
    ensures NonUrgent(s) == s
    decreases |s|
  {
    if s != [] {
      NonUrgentNoUrgent(s[1..]);
    }
  }

  /** The filter keeps distinct ids distinct. */
  lemma {:induction false} NonUrgentDistinct(s: seq<Toast>)
    requires DistinctIds(s)
    ensures DistinctIds(NonUrgent(s))
    decreases |s|
  {
    if s != [] {
      NonUrgentDistinct(s[1..]);
      if s[0].priority != Urgent {
        var r := NonUrgent(s[1..]);
        forall t | t in r ensures t.id != s[0].id {
          var k :| 0 <= k < |s[1..]| && s[1..][k] == t;
          assert s[k + 1] == t;
        }
        ConsDistinct(s[0], r);
      }
    }
  }

  /** Prefixing a record whose id the list lacks keeps ids distinct. */
  lemma ConsDistinct(t: Toast, s: seq<Toast>)
    requires DistinctIds(s)
    requires forall u :: u in s ==> u.id != t.id
    ensures DistinctIds([t] + s)
  {
    var r := [t] + s;
    forall i, j | 0 <= i < j < |r| ensures r[i].id != r[j].id {
      if i > 0 {
        assert r[i] == s[i - 1] && r[j] == s[j - 1];
      } else {
        assert r[j] == s[j - 1];
        assert r[j] in s;
      }
    }
  }

  /** The list before truncation: the new record at the head, followed by
      the previous records, or only the previous non-urgent records when
      the new record is urgent. */
  function Inserted(prev: seq<Toast>, t: Toast): (r: seq<Toast>)
    ensures |r| >= 1 && r[0] == t
  {
    if t.priority == Urgent then [t] + NonUrgent(prev) else [t] + prev
  }

  /** A non-urgent record goes in front of all previous records, which keep
      their order. */
  lemma InsertedNonUrgent(prev: seq<Toast>, t: Toast)
    requires t.priority != Urgent
    ensures Inserted(prev, t) == [t] + prev
    ensures Inserted(prev, t)[1..] == prev
  {
  }

  /** An urgent record goes in front, and behind it exactly the previous
      non-urgent records remain: no earlier urgent record survives. */
  lemma InsertedUrgent(prev: seq<Toast>, t: Toast)
    requires t.priority == Urgent
    ensures Inserted(prev, t)[1..] == NonUrgent(prev)
    ensures forall u :: u in Inserted(prev, t)[1..] <==> u in prev && u.priority != Urgent
    ensures forall i :: 1 <= i < |Inserted(prev, t)| ==> Inserted(prev, t)[i].priority != Urgent
  {
    var r := Inserted(prev, t);
    assert r[1..] == NonUrgent(prev);
    forall i | 1 <= i < |r| ensures r[i].priority != Urgent {
      assert r[i] in r[1..];
    }
  }

  /** `list.slice(0, max)` when the list is longer than the ceiling. */
  function Truncate(s: seq<Toast>, max: nat): (r: seq<Toast>)
    ensures |r| <= max && |r| <= |s|
    ensures |r| == if |s| > max then max else |s|
    ensures r == s[..|r|]
  {
    if |s| > max then s[..max] else s
  }

  /** `list.slice(max)`: the tail that truncation cuts off. */
  function Evicted(s: seq<Toast>, max: nat): (r: seq<Toast>)
    ensures Truncate(s, max) + r == s
  {
    if |s| > max then s[max..] else []
  }

  /** The list `addToast` leaves behind. */
  function AfterAdd(prev: seq<Toast>, t: Toast, max: nat): (r: seq<Toast>)
    ensures |r| <= max && |r| <= |Inserted(prev, t)|
    ensures |r| == if |Inserted(prev, t)| > max then max else |Inserted(prev, t)|
    ensures r == Inserted(prev, t)[..|r|]
    ensures max > 0 ==> |r| >= 1 && r[0] == t
  {
    Truncate(Inserted(prev, t), max)
  }

  /** Adding a record with a fresh id to a list of distinct ids keeps ids
      distinct and respects the ceiling. */
  lemma AfterAddDistinct(prev: seq<Toast>, t: Toast, max: nat)
    requires DistinctIds(prev) && t.id !in IdSet(prev)
    ensures DistinctIds(AfterAdd(prev, t, max))
    ensures |AfterAdd(prev, t, max)| <= max
  {
    InsertedDistinct(prev, t);
    var r := Inserted(prev, t);
    var k := |AfterAdd(prev, t, max)|;
    assert AfterAdd(prev, t, max) == r[..k];
  }

  /** After an add, every id of the list is the new one or was there
      before; the ids cut off are no longer in the list. */
  lemma AfterAddIds(prev: seq<Toast>, t: Toast, max: nat)
    requires DistinctIds(prev) && t.id !in IdSet(prev)
    ensures IdSet(AfterAdd(prev, t, max)) <= IdSet(prev) + {t.id}
    ensures IdSet(AfterAdd(prev, t, max)) !! IdSet(Evicted(Inserted(prev, t), max))
    ensures t.priority != Urgent ==>
      IdSet(AfterAdd(prev, t, max)) + IdSet(Evicted(Inserted(prev, t), max)) == IdSet(prev) + {t.id}
  {
    var r := Inserted(prev, t);
    var kept := AfterAdd(prev, t, max);
    var cut := Evicted(r, max);
    assert kept + cut == r;
    IdSetAppend(kept, cut);
    InsertedIds(prev, t);
    InsertedDistinct(prev, t);
    SplitDisjoint(r, |kept|);
    assert r[..|kept|] == kept && r[|kept|..] == cut;
  }

  /** The records after an insertion are the new one and earlier ones;
      all of them when it is not urgent. */
  lemma InsertedIds(prev: seq<Toast>, t: Toast)
    ensures IdSet(Inserted(prev, t)) <= IdSet(prev) + {t.id}
    ensures t.priority != Urgent ==> IdSet(Inserted(prev, t)) == IdSet(prev) + {t.id}
  {
    var r := Inserted(prev, t);
    forall u | u in r ensures u == t || u in prev {
    }
    if t.priority != Urgent {
      assert r == [t] + prev;
      IdSetAppend([t], prev);
    }
  }

  /** The two sides of a cut through a list with distinct ids share no id. */
  lemma SplitDisjoint(r: seq<Toast>, k: nat)
    requires DistinctIds(r) && k <= |r|
    ensures IdSet(r[..k]) !! IdSet(r[k..])
  {
    forall x, y | x in r[..k] && y in r[k..] ensures x.id != y.id {
      var i :| 0 <= i < k && r[..k][i] == x;
      var j :| 0 <= j < |r| - k && r[k..][j] == y;
      assert r[i] == x && r[k + j] == y;
    }
  }

  lemma InsertedDistinct(prev: seq<Toast>, t: Toast)
    requires DistinctIds(prev) && t.id !in IdSet(prev)
    ensures DistinctIds(Inserted(prev, t))
  {
    var rest := if t.priority == Urgent then NonUrgent(prev) else prev;
    if t.priority == Urgent {
      NonUrgentDistinct(prev);
    }
    forall u | u in rest ensures u.id != t.id {
      assert u in prev;
    }
    ConsDistinct(t, rest);
  }

  /** `prevToasts.filter(toast => toast.id !== id)`. */
  function Without(s: seq<Toast>, id: ToastId): (r: seq<Toast>)
    ensures |r| <= |s|
    ensures forall t :: t in r <==> t in s && t.id != id
  {
    if s == [] then []
    else if s[0].id == id then Without(s[1..], id)
    else [s[0]] + Without(s[1..], id)
  }

  /** Removal keeps the order of the other records: it distributes over
      concatenation. */
  lemma {:induction false} WithoutAppend(a: seq<Toast>, b: seq<Toast>, id: ToastId)
    ensures Without(a + b, id) == Without(a, id) + Without(b, id)
    decreases |a|
  {
    if a == [] {
      assert a + b == b;
    } else {
      assert (a + b)[1..] == a[1..] + b;
      WithoutAppend(a[1..], b, id);
    }
  }

  /** Removing an id that is not present changes nothing; in particular
      removing the same id twice is the same as removing it once. */
  lemma {:induction false} WithoutAbsent(s: seq<Toast>, id: ToastId)
    requires id !in IdSet(s)
    ensures Without(s, id) == s
    decreases |s|
  {
    if s != [] {
      assert s[0] in s;
      WithoutAbsent(s[1..], id);
    }
  }

  lemma WithoutIdempotent(s: seq<Toast>, id: ToastId)
    ensures Without(Without(s, id), id) == Without(s, id)
  {
    assert id !in IdSet(Without(s, id));
    WithoutAbsent(Without(s, id), id);
  }

  /** Removal keeps distinct ids distinct and takes exactly `id` out of
      the id set. */
  lemma {:induction false} WithoutDistinct(s: seq<Toast>, id: ToastId)
    requires DistinctIds(s)
    ensures DistinctIds(Without(s, id))
    ensures IdSet(Without(s, id)) == IdSet(s) - {id}
    decreases |s|
  {
    if s != [] {
      assert DistinctIds(s[1..]) by {
        forall i, j | 0 <= i < j < |s[1..]| ensures s[1..][i].id != s[1..][j].id {
          assert s[1..][i] == s[i + 1] && s[1..][j] == s[j + 1];
        }
      }
      WithoutDistinct(s[1..], id);
      var r := Without(s[1..], id);
      if s[0].id != id {
        forall u | u in r ensures u.id != s[0].id {
          var k :| 0 <= k < |s[1..]| && s[1..][k] == u;
          assert s[k + 1] == u;
        }
        ConsDistinct(s[0], r);
      }
      assert s == [s[0]] + s[1..];
      IdSetAppend([s[0]], s[1..]);
      if s[0].id != id {
        IdSetAppend([s[0]], r);
      }
    }
  }

  /** The stagger index of a record: its position in the list. */
  function StaggerIndex(s: seq<Toast>, id: ToastId): (r: int)
    ensures -1 <= r < |s|
    ensures r >= 0 ==> s[r].id == id && id !in IdSet(s[..r])
    ensures r == -1 <==> id !in IdSet(s)
  {
    if s == [] then -1
    else if s[0].id == id then 0
    else
      var k := StaggerIndex(s[1..], id);
      assert s[0] in s;
      assert id in IdSet(s) ==> id in IdSet(s[1..]) by {
        if id in IdSet(s) {
          var t :| t in s && t.id == id;
          assert t in s[1..] by { var i :| 0 <= i < |s| && s[i] == t; assert i != 0; assert s[1..][i - 1] == t; }
        }
      }
      if k < 0 then -1
      else
        assert s[..k + 1] == [s[0]] + s[1..][..k];
        IdSetAppend([s[0]], s[1..][..k]);
        k + 1
  }

  /** Four normal toasts A, B, C, D under a ceiling of three: the oldest,
      A, is evicted and the newest is on top. */
  lemma EvictionOrderExample(a: Toast, b: Toast, c: Toast, d: Toast)
    requires a.priority == Normal && b.priority == Normal && c.priority == Normal && d.priority == Normal
    ensures AfterAdd(AfterAdd(AfterAdd(AfterAdd([], a, 3), b, 3), c, 3), d, 3) == [d, c, b]
    ensures Evicted(Inserted([c, b, a], d), 3) == [a]
  {
    assert AfterAdd([], a, 3) == [a];
    assert AfterAdd([a], b, 3) == [b, a];
    assert AfterAdd([b, a], c, 3) == [c, b, a];
    assert Inserted([c, b, a], d) == [d, c, b, a];
  }

  /** Normal A and B, then urgent C, under a ceiling of two: C is on top,
      followed by the newer of the normal records. */
  lemma UrgentOverrideExample(a: Toast, b: Toast, c: Toast)
    requires a.priority == Normal && b.priority == Normal && c.priority == Urgent
    ensures AfterAdd(AfterAdd(AfterAdd([], a, 2), b, 2), c, 2) == [c, b]
  {
    assert AfterAdd([], a, 2) == [a];
    assert AfterAdd([a], b, 2) == [b, a];
    assert NonUrgent([b, a]) == [b, a] by {
      NonUrgentNoUrgent([b, a]);
    }
    assert Inserted([b, a], c) == [c, b, a];
  }
}
