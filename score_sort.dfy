/**
 * The sort the leaderboard applies to player summaries: a stable sort by
 * `score`, ascending (a comparator `a.score - b.score` handed to the
 * language's stable array sort). The library sort is specified here by a
 * functional insertion sort; `StableSortIsUnique` shows that every stable
 * sort by score yields exactly the same sequence, so the choice of
 * algorithm does not matter.
 */
module ScoreSort {

  import opened Types

  predicate SortedByScore(s: seq<PlayerScore>) {
    forall i, j :: 0 <= i < j < |s| ==> s[i].score <= s[j].score
  }

  /** The summaries whose score is `k`, in their order in `s`. */
  function WithScore(s: seq<PlayerScore>, k: int): seq<PlayerScore> {
    if s == [] then []
    else (if s[0].score == k then [s[0]] else []) + WithScore(s[1..], k)
  }

  /** The number of summaries in `s` with a score strictly below `v`. */
  function CountBelow(s: seq<PlayerScore>, v: int): nat {
    if s == [] then 0
    else (if s[0].score < v then 1 else 0) + CountBelow(s[1..], v)
  }

  /** Inserts `x` before the first element whose score is not below its own. */
  function Insert(x: PlayerScore, t: seq<PlayerScore>): seq<PlayerScore> {
    if t == [] then [x]
    else if x.score <= t[0].score then [x] + t
    else [t[0]] + Insert(x, t[1..])
  }

  /** The result of sorting `s` by ascending score, ties in input order. */
  function SortByScore(s: seq<PlayerScore>): (r: seq<PlayerScore>)
    ensures |r| == |s|
    ensures SortedByScore(r)
  {
    if s == [] then []
    else
      var t := SortByScore(s[1..]);
      InsertSorted(s[0], t);
      Insert(s[0], t)
  }

  /** Sorting is a permutation: the same summaries, each as often as before. */
  lemma {:induction false} SortByScorePermutes(s: seq<PlayerScore>)
    ensures multiset(SortByScore(s)) == multiset(s)
  {
    if s != [] {
      SortByScorePermutes(s[1..]);
      InsertMultiset(s[0], SortByScore(s[1..]));
      assert s == [s[0]] + s[1..];
    }
  }

  lemma {:induction false} InsertSorted(x: PlayerScore, t: seq<PlayerScore>)
    requires SortedByScore(t)
    ensures SortedByScore(Insert(x, t))
    ensures |Insert(x, t)| == |t| + 1
  {
    if t != [] && x.score > t[0].score {
      InsertSorted(x, t[1..]);
      InsertLowerBound(x, t[1..], t[0].score);
    }
  }

  /** Every element of `Insert(x, t)` scores at least `lo` when `x` and all of `t` do. */
  lemma {:induction false} InsertLowerBound(x: PlayerScore, t: seq<PlayerScore>, lo: int)
    requires lo <= x.score
    requires forall j :: 0 <= j < |t| ==> lo <= t[j].score
    ensures forall j :: 0 <= j < |Insert(x, t)| ==> lo <= Insert(x, t)[j].score
  {
    if t != [] && x.score > t[0].score {
      InsertLowerBound(x, t[1..], lo);
    }
  }

  lemma {:induction false} InsertMultiset(x: PlayerScore, t: seq<PlayerScore>)
    ensures multiset(Insert(x, t)) == multiset(t) + multiset{x}
  {
    if t != [] && x.score > t[0].score {
      InsertMultiset(x, t[1..]);
      assert t == [t[0]] + t[1..];
    }
  }

  lemma {:induction false} WithScoreAppend(a: seq<PlayerScore>, b: seq<PlayerScore>, k: int)
    ensures WithScore(a + b, k) == WithScore(a, k) + WithScore(b, k)
  {
    if a != [] {
      var head := if a[0].score == k then [a[0]] else [];
      assert (a + b)[0] == a[0];
      assert (a + b)[1..] == a[1..] + b;
      WithScoreAppend(a[1..], b, k);
      calc {
        WithScore(a + b, k);
        head + WithScore(a[1..] + b, k);
        head + (WithScore(a[1..], k) + WithScore(b, k));
        (head + WithScore(a[1..], k)) + WithScore(b, k);
        WithScore(a, k) + WithScore(b, k);
      }
    } else {
      assert a + b == b;
    }
  }

  /**
   * Inserting `x` places it before every element of `t` with the same
   * score, so the earliest input element stays first among equal scores.
   */
  lemma {:induction false} InsertWithScore(x: PlayerScore, t: seq<PlayerScore>, k: int)
    ensures WithScore(Insert(x, t), k) == (if x.score == k then [x] else []) + WithScore(t, k)
  {
    if t != [] && x.score > t[0].score {
      InsertWithScore(x, t[1..], k);
      WithScoreAppend([t[0]], Insert(x, t[1..]), k);
      assert ([t[0]] + Insert(x, t[1..]))[1..] == Insert(x, t[1..]);
    } else if t != [] {
      assert ([x] + t)[1..] == t;
    }
  }

  lemma {:induction false} InsertCountBelow(x: PlayerScore, t: seq<PlayerScore>, v: int)
    ensures CountBelow(Insert(x, t), v) == (if x.score < v then 1 else 0) + CountBelow(t, v)
  {
    if t != [] && x.score > t[0].score {
      InsertCountBelow(x, t[1..], v);
      assert ([t[0]] + Insert(x, t[1..]))[1..] == Insert(x, t[1..]);
    } else if t != [] {
      assert ([x] + t)[1..] == t;
    }
  }

  /**
   * Sorting is stable: for every score, the summaries with that score keep
   * their input order.
   */
  lemma {:induction false} SortByScoreIsStable(s: seq<PlayerScore>, k: int)
    ensures WithScore(SortByScore(s), k) == WithScore(s, k)
  {
    if s != [] {
      SortByScoreIsStable(s[1..], k);
      InsertWithScore(s[0], SortByScore(s[1..]), k);
    }
  }

  /** Sorting does not change how many summaries score below a value. */
  lemma {:induction false} SortByScoreCountBelow(s: seq<PlayerScore>, v: int)
    ensures CountBelow(SortByScore(s), v) == CountBelow(s, v)
  {
    if s != [] {
      SortByScoreCountBelow(s[1..], v);
      InsertCountBelow(s[0], SortByScore(s[1..]), v);
    }
  }

  lemma {:induction false} WithScoreMembers(s: seq<PlayerScore>, k: int, y: PlayerScore)
    ensures y in WithScore(s, k) <==> y in s && y.score == k
  {
    if s != [] {
      WithScoreMembers(s[1..], k, y);
      assert s == [s[0]] + s[1..];
    }
  }

  lemma WithScoreOfHead(s: seq<PlayerScore>)
    ensures s != [] ==> WithScore(s, s[0].score) != []
  {
  }

  /** If `a`'s first score occurs in sorted `b` in the same way, `b` starts no higher. */
  lemma HeadNotAbove(a: seq<PlayerScore>, b: seq<PlayerScore>)
    requires a != [] && b != [] && SortedByScore(b)
    requires WithScore(a, a[0].score) == WithScore(b, a[0].score)
    ensures b[0].score <= a[0].score
  {
    var k := a[0].score;
    assert a[0] in WithScore(a, k);
    WithScoreMembers(b, k, a[0]);
    var i :| 0 <= i < |b| && b[i] == a[0];
  }

  lemma TailsAgree(a: seq<PlayerScore>, b: seq<PlayerScore>, k: int)
    requires a != [] && b != [] && a[0] == b[0]
    requires WithScore(a, k) == WithScore(b, k)
    ensures WithScore(a[1..], k) == WithScore(b[1..], k)
  {
    var head := if a[0].score == k then [a[0]] else [];
    assert WithScore(a, k) == head + WithScore(a[1..], k);
    assert WithScore(b, k) == head + WithScore(b[1..], k);
    assert (head + WithScore(a[1..], k))[|head|..] == WithScore(a[1..], k);
    assert (head + WithScore(b[1..], k))[|head|..] == WithScore(b[1..], k);
  }

  /**
   * Two sequences sorted by score that agree, score by score, on the order
   * of their elements are equal: the stable sort's result is determined.
   */
  lemma {:induction false} StableSortIsUnique(a: seq<PlayerScore>, b: seq<PlayerScore>)
    requires SortedByScore(a) && SortedByScore(b)
    requires forall k :: WithScore(a, k) == WithScore(b, k)
    ensures a == b
  {
    if a == [] || b == [] {
      WithScoreOfHead(a);
      WithScoreOfHead(b);
    } else {
      var k := a[0].score;
      HeadNotAbove(a, b);
      HeadNotAbove(b, a);
      assert WithScore(a, k)[0] == a[0];
      assert WithScore(b, k)[0] == b[0];
      forall k' ensures WithScore(a[1..], k') == WithScore(b[1..], k') {
        TailsAgree(a, b, k');
      }
      StableSortIsUnique(a[1..], b[1..]);
      assert a == [a[0]] + a[1..] && b == [b[0]] + b[1..];
    }
  }

  /** Any stable sort by score of `s` is `SortByScore(s)`. */
  lemma StableSortIsSortByScore(s: seq<PlayerScore>, r: seq<PlayerScore>)
    requires SortedByScore(r)
    requires forall k :: WithScore(r, k) == WithScore(s, k)
    ensures r == SortByScore(s)
  {
    forall k ensures WithScore(r, k) == WithScore(SortByScore(s), k) {
      SortByScoreIsStable(s, k);
    }
    StableSortIsUnique(r, SortByScore(s));
  }
}
