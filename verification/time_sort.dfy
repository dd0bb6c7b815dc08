/**
 The ordering step of the chart formatter: a copy of the fetched records is
 sorted ascending by `lastUpdatedAt` with a stable sort, as
 `Array.prototype.sort` is required to be (ECMA-262, 2023 edition,
 section 23.1.3.30). Timestamps are modelled by their ordering key, an integer.
 */
module TimeSort {

  /** One price sample: the price is only passed through, the timestamp is the sort key. */
  datatype Record = Record(price: real, lastUpdatedAt: int)

  /** Ascending by timestamp; equal timestamps are allowed. */
  ghost predicate SortedByTime(s: seq<Record>) {
    forall i, j :: 0 <= i < j < |s| ==> s[i].lastUpdatedAt <= s[j].lastUpdatedAt
  }

  /** The subsequence of `s` whose records carry timestamp `t`, in their order in `s`. */
  function WithTime(s: seq<Record>, t: int): (r: seq<Record>)
    ensures |r| <= |s|
  {
    if |s| == 0 then []
    else (if s[0].lastUpdatedAt == t then [s[0]] else []) + WithTime(s[1..], t)
  }

  /**
   `out` is what a stable sort by timestamp makes of `input`: it is ascending,
   and for every timestamp the records carrying it appear in `out` exactly as
   they appear in `input` (so ties keep their input order).
   */
  ghost predicate StableSortOf(input: seq<Record>, out: seq<Record>) {
    && SortedByTime(out)
    && forall t :: WithTime(out, t) == WithTime(input, t)
  }

  /** Unfolds `WithTime` over a sequence with a known first record. */
  lemma WithTimeCons(x: Record, s: seq<Record>, t: int)
    ensures WithTime([x] + s, t) == (if x.lastUpdatedAt == t then [x] else []) + WithTime(s, t)
  {
    assert ([x] + s)[1..] == s;
  }

  /** A record no later than the head of an ascending sequence can go in front of it. */
  lemma ConsSorted(y: Record, s: seq<Record>)
    requires SortedByTime(s)
    requires |s| == 0 || y.lastUpdatedAt <= s[0].lastUpdatedAt
    ensures SortedByTime([y] + s)
  {
  }

  /** Inserts `x` in front of the first record whose timestamp is not smaller. */
  function Insert(x: Record, s: seq<Record>): (r: seq<Record>)
    requires SortedByTime(s)
    ensures SortedByTime(r)
    ensures multiset(r) == multiset(s) + multiset{x}
    ensures r[0] == x || (|s| != 0 && r[0] == s[0])
  {
    if |s| == 0 || x.lastUpdatedAt <= s[0].lastUpdatedAt then
      [x] + s
    else
      var tail := Insert(x, s[1..]);
      ConsSorted(s[0], tail);
      assert multiset(s) == multiset{s[0]} + multiset(s[1..]) by {
        assert s == [s[0]] + s[1..];
      }
      [s[0]] + tail
  }

  /**
   Inserting `x` puts it before every record of equal timestamp and leaves the
   relative order of everything else alone.
   */
  lemma {:induction false} InsertGroups(x: Record, s: seq<Record>, t: int)
    requires SortedByTime(s)
    ensures WithTime(Insert(x, s), t) == (if x.lastUpdatedAt == t then [x] else []) + WithTime(s, t)
  {
    if |s| == 0 || x.lastUpdatedAt <= s[0].lastUpdatedAt {
      assert Insert(x, s) == [x] + s;
      WithTimeCons(x, s, t);
    } else {
      var tail := Insert(x, s[1..]);
      assert Insert(x, s) == [s[0]] + tail;
      InsertGroups(x, s[1..], t);
      WithTimeCons(s[0], tail, t);
      // x comes strictly after s[0], so at most one of them carries t
      if x.lastUpdatedAt == t {
        assert WithTime(s, t) == WithTime(s[1..], t);
      } else if s[0].lastUpdatedAt == t {
        assert WithTime(tail, t) == WithTime(s[1..], t);
      } else {
        assert WithTime(s, t) == WithTime(s[1..], t);
      }
    }
  }

  /** The stable sort of a copy of the records, ascending by timestamp. */
  function SortByTime(s: seq<Record>): (r: seq<Record>)
    ensures SortedByTime(r)
    ensures multiset(r) == multiset(s)
    ensures |r| == |s|
  {
    if |s| == 0 then []
    else
      assert s == [s[0]] + s[1..];
      Insert(s[0], SortByTime(s[1..]))
  }

  /** Ties keep their input order: `SortByTime` is a stable sort of its input. */
  lemma {:induction false} SortByTimeIsStable(s: seq<Record>)
    ensures StableSortOf(s, SortByTime(s))
  {
    if |s| > 0 {
      SortByTimeIsStable(s[1..]);
      forall t ensures WithTime(SortByTime(s), t) == WithTime(s, t) {
        InsertGroups(s[0], SortByTime(s[1..]), t);
        WithTimeCons(s[0], s[1..], t);
        assert s == [s[0]] + s[1..];
      }
    }
  }

  /** A record with timestamp `t` occurs wherever the subsequence for `t` is non-empty. */
  lemma {:induction false} WithTimeWitness(s: seq<Record>, t: int) returns (i: nat)
    requires WithTime(s, t) != []
    ensures i < |s| && s[i].lastUpdatedAt == t
  {
    if s[0].lastUpdatedAt == t {
      i := 0;
    } else {
      var k := WithTimeWitness(s[1..], t);
      i := k + 1;
    }
  }

  /**
   When two sequences agree on the subsequence of every timestamp, a non-empty
   first one makes the second non-empty, and an ascending second one starts no
   later than the first.
   */
  lemma FirstTimesAgree(a: seq<Record>, b: seq<Record>)
    requires SortedByTime(b)
    requires forall t :: WithTime(a, t) == WithTime(b, t)
    ensures |a| != 0 ==> |b| != 0 && b[0].lastUpdatedAt <= a[0].lastUpdatedAt
  {
    if |a| != 0 {
      var t := a[0].lastUpdatedAt;
      assert WithTime(a, t) != [] by {
        assert WithTime(a, t) == [a[0]] + WithTime(a[1..], t);
      }
      assert WithTime(b, t) != [];
      var i := WithTimeWitness(b, t);
      assert b[0].lastUpdatedAt <= b[i].lastUpdatedAt;
    }
  }

  /**
   Two ascending sequences that agree on the subsequence of every timestamp are
   equal: the order of a stable sort's output is fully determined.
   */
  lemma {:induction false} SameGroupsSameSequence(a: seq<Record>, b: seq<Record>)
    requires SortedByTime(a) && SortedByTime(b)
    requires forall t :: WithTime(a, t) == WithTime(b, t)
    ensures a == b
    decreases |a|
  {
    if |a| != 0 || |b| != 0 {
      FirstTimesAgree(a, b);
      FirstTimesAgree(b, a);
      var ka := a[0].lastUpdatedAt;
      assert a == [a[0]] + a[1..];
      assert b == [b[0]] + b[1..];
      WithTimeCons(a[0], a[1..], ka);
      WithTimeCons(b[0], b[1..], ka);
      var ga, gb := WithTime(a, ka), WithTime(b, ka);
      assert ga == gb;
      assert ga[0] == a[0] && gb[0] == b[0];
      assert ga[1..] == WithTime(a[1..], ka);
      assert gb[1..] == WithTime(b[1..], ka);
      forall t ensures WithTime(a[1..], t) == WithTime(b[1..], t) {
        if t != ka {
          WithTimeCons(a[0], a[1..], t);
          WithTimeCons(b[0], b[1..], t);
          assert WithTime(a, t) == WithTime(a[1..], t);
          assert WithTime(b, t) == WithTime(b[1..], t);
          assert WithTime(a, t) == WithTime(b, t);
        } else {
          assert WithTime(a[1..], t) == ga[1..] == gb[1..] == WithTime(b[1..], t);
        }
      }
      SameGroupsSameSequence(a[1..], b[1..]);
    }
  }

  /**
   Any stable sort of the input yields exactly `SortByTime` of it, so the model
   agrees with every conforming implementation of `Array.prototype.sort`.
   */
  lemma StableSortIsUnique(input: seq<Record>, out: seq<Record>)
    requires StableSortOf(input, out)
    ensures out == SortByTime(input)
  {
    SortByTimeIsStable(input);
    SameGroupsSameSequence(out, SortByTime(input));
  }

  /** A stable sort of already ascending records leaves them as they are. */
  lemma SortOfSortedIsIdentity(s: seq<Record>)
    requires SortedByTime(s)
    ensures SortByTime(s) == s
  {
    StableSortIsUnique(s, s);
  }
}
