// The sort of the series normaliser (App.jsx,
// `.sort((a, b) => new Date(a.DateTime) - new Date(b.DateTime))`): ascending by
// timestamp, and stable, as `Array.prototype.sort` is required to be.

module TimeSort {
  import opened Observations

  /** Ascending by timestamp. */
  predicate SortedByTime(s: seq<Observation>) {
    forall i, j :: 0 <= i < j < |s| ==> s[i].dateTime <= s[j].dateTime
  }

  /** The records of `s` stamped `t`, in their order in `s`. */
  function WithTime(s: seq<Observation>, t: int): seq<Observation> {
    if s == [] then []
    else (if s[0].dateTime == t then [s[0]] else []) + WithTime(s[1..], t)
  }

  lemma {:induction false} WithTimeAppend(a: seq<Observation>, b: seq<Observation>, t: int)
    ensures WithTime(a + b, t) == WithTime(a, t) + WithTime(b, t)
  {
    if a == [] {
      assert a + b == b;
    } else {
      var head := if a[0].dateTime == t then [a[0]] else [];
      calc {
        WithTime(a + b, t);
        { assert (a + b)[0] == a[0]; assert (a + b)[1..] == a[1..] + b; }
        head + WithTime(a[1..] + b, t);
        { WithTimeAppend(a[1..], b, t); }
        head + (WithTime(a[1..], t) + WithTime(b, t));
        (head + WithTime(a[1..], t)) + WithTime(b, t);
        WithTime(a, t) + WithTime(b, t);
      }
    }
  }

  lemma WithTimeSingle(o: Observation, t: int)
    ensures WithTime([o], t) == if o.dateTime == t then [o] else []
  {
  }

  /**
   * Puts `x` in front of the first record that is not earlier than it, so
   * that `x` stays ahead of the records with its timestamp.
   */
  function Insert(x: Observation, s: seq<Observation>): (r: seq<Observation>)
    ensures |r| == |s| + 1 && x in r
  {
    if s == [] || x.dateTime <= s[0].dateTime then [x] + s
    else [s[0]] + Insert(x, s[1..])
  }

  /** Inserting adds exactly `x`. */
  lemma {:induction false} InsertPermutes(x: Observation, s: seq<Observation>)
    ensures multiset(Insert(x, s)) == multiset(s) + multiset{x}
  {
    if s != [] && x.dateTime > s[0].dateTime {
      InsertPermutes(x, s[1..]);
      assert s == [s[0]] + s[1..];
    }
  }

  /** A bound below `x` and every record of `s` stays below every record of the result. */
  lemma {:induction false} InsertLowerBound(x: Observation, s: seq<Observation>, bound: int)
    requires bound <= x.dateTime
    requires forall k :: 0 <= k < |s| ==> bound <= s[k].dateTime
    ensures forall k :: 0 <= k < |Insert(x, s)| ==> bound <= Insert(x, s)[k].dateTime
  {
    if s != [] && x.dateTime > s[0].dateTime {
      InsertLowerBound(x, s[1..], bound);
    }
  }

  /** Inserting into a sorted sequence keeps it sorted. */
  lemma {:induction false} InsertSorted(x: Observation, s: seq<Observation>)
    requires SortedByTime(s)
    ensures SortedByTime(Insert(x, s))
  {
    if s != [] && x.dateTime > s[0].dateTime {
      var rest := Insert(x, s[1..]);
      InsertSorted(x, s[1..]);
      InsertLowerBound(x, s[1..], s[0].dateTime);
      var r := [s[0]] + rest;
      assert Insert(x, s) == r;
      forall i, j | 0 <= i < j < |r| ensures r[i].dateTime <= r[j].dateTime {
        assert r[j] == rest[j - 1];
        if i > 0 {
          assert r[i] == rest[i - 1];
        }
      }
    }
  }

  /** Insertion sort: a permutation of `s`, ascending by timestamp. */
  function SortByTime(s: seq<Observation>): (r: seq<Observation>)
    ensures multiset(r) == multiset(s)
    ensures |r| == |s|
    ensures SortedByTime(r)
  {
    if s == [] then []
    else
      var rest := SortByTime(s[1..]);
      InsertPermutes(s[0], rest);
      InsertSorted(s[0], rest);
      assert s == [s[0]] + s[1..];
      Insert(s[0], rest)
  }

  /** Inserting keeps the order among records stamped alike as if `x` were prepended. */
  lemma {:induction false} InsertKeepsTies(x: Observation, s: seq<Observation>, t: int)
    ensures WithTime(Insert(x, s), t) == WithTime([x] + s, t)
  {
    if s == [] || x.dateTime <= s[0].dateTime {
    } else {
      var rest := Insert(x, s[1..]);
      var hs, hx := WithTime([s[0]], t), WithTime([x], t);
      WithTimeSingle(s[0], t);
      WithTimeSingle(x, t);
      assert Insert(x, s) == [s[0]] + rest;
      calc {
        WithTime(Insert(x, s), t);
        WithTime([s[0]] + rest, t);
        { WithTimeAppend([s[0]], rest, t); }
        hs + WithTime(rest, t);
        { InsertKeepsTies(x, s[1..], t); }
        hs + WithTime([x] + s[1..], t);
        { WithTimeAppend([x], s[1..], t); }
        hs + (hx + WithTime(s[1..], t));
        hx + (hs + WithTime(s[1..], t));
        { WithTimeAppend([s[0]], s[1..], t); assert [s[0]] + s[1..] == s; }
        hx + WithTime(s, t);
        { WithTimeAppend([x], s, t); }
        WithTime([x] + s, t);
      }
    }
  }

  /** The sort is stable: records with equal timestamps keep their input order. */
  lemma {:induction false} SortKeepsTies(s: seq<Observation>, t: int)
    ensures WithTime(SortByTime(s), t) == WithTime(s, t)
  {
    if s != [] {
      SortKeepsTies(s[1..], t);
      InsertKeepsTies(s[0], SortByTime(s[1..]), t);
      WithTimeAppend([s[0]], SortByTime(s[1..]), t);
      WithTimeAppend([s[0]], s[1..], t);
      assert s == [s[0]] + s[1..];
    }
  }

  /** Stability for every timestamp at once. */
  lemma SortIsStable(s: seq<Observation>)
    ensures forall t :: WithTime(SortByTime(s), t) == WithTime(s, t)
  {
    forall t ensures WithTime(SortByTime(s), t) == WithTime(s, t) {
      SortKeepsTies(s, t);
    }
  }

  lemma WithTimeHead(s: seq<Observation>)
    requires s != []
    ensures WithTime(s, s[0].dateTime) != [] && WithTime(s, s[0].dateTime)[0] == s[0]
  {
  }

  lemma {:induction false} WithTimeMember(s: seq<Observation>, t: int, o: Observation)
    requires o in WithTime(s, t)
    ensures o in s && o.dateTime == t
  {
    if s != [] {
      if o != s[0] || s[0].dateTime != t {
        WithTimeMember(s[1..], t, o);
      }
    }
  }

  /** Two sorted, non-empty sequences with the same groups start with the same record. */
  lemma SameTiesSameHead(a: seq<Observation>, b: seq<Observation>)
    requires a != [] && b != []
    requires SortedByTime(a) && SortedByTime(b)
    requires WithTime(a, a[0].dateTime) == WithTime(b, a[0].dateTime)
    requires WithTime(a, b[0].dateTime) == WithTime(b, b[0].dateTime)
    ensures a[0] == b[0]
  {
    var ta, tb := a[0].dateTime, b[0].dateTime;
    WithTimeHead(a);
    WithTimeHead(b);
    WithTimeMember(b, ta, WithTime(a, ta)[0]);
    WithTimeMember(a, tb, WithTime(b, tb)[0]);
    assert ta == tb;
    assert WithTime(a, ta)[0] == WithTime(b, ta)[0];
  }

  /** Removing the same first record from both sides keeps the groups equal. */
  lemma {:induction false} SameTiesTail(a: seq<Observation>, b: seq<Observation>, t: int)
    requires a != [] && b != [] && a[0] == b[0]
    requires WithTime(a, t) == WithTime(b, t)
    ensures WithTime(a[1..], t) == WithTime(b[1..], t)
  {
    var h := if a[0].dateTime == t then [a[0]] else [];
    assert WithTime(a, t) == h + WithTime(a[1..], t);
    assert WithTime(b, t) == h + WithTime(b[1..], t);
    assert WithTime(a[1..], t) == WithTime(a, t)[|h|..];
  }

  /**
   * A sequence sorted by timestamp is fixed by its groups of equal
   * timestamps: two sorted sequences with the same groups are equal.
   */
  lemma {:induction false} SortedDeterminedByTies(a: seq<Observation>, b: seq<Observation>)
    requires SortedByTime(a) && SortedByTime(b)
    requires forall t :: WithTime(a, t) == WithTime(b, t)
    ensures a == b
  {
    if a == [] {
      if b != [] {
        WithTimeHead(b);
      }
    } else if b == [] {
      WithTimeHead(a);
    } else {
      SameTiesSameHead(a, b);
      forall t ensures WithTime(a[1..], t) == WithTime(b[1..], t) {
        SameTiesTail(a, b, t);
      }
      SortedDeterminedByTies(a[1..], b[1..]);
      assert a == [a[0]] + a[1..];
      assert b == [b[0]] + b[1..];
    }
  }

  /**
   * `SortByTime` is THE stable sort: any sequence that is ascending by
   * timestamp and keeps the input order within each timestamp equals it.
   */
  lemma StableSortIsUnique(s: seq<Observation>, r: seq<Observation>)
    requires SortedByTime(r)
    requires forall t :: WithTime(r, t) == WithTime(s, t)
    ensures r == SortByTime(s)
  {
    SortIsStable(s);
    SortedDeterminedByTies(r, SortByTime(s));
  }
}
