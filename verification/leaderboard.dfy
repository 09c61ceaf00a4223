/**
 The score list discipline: insert, stable sort by descending wpm, keep the
 best fifty; and the top-N query with an optional exact category filter.
 The score file is not modelled: the list is passed in and returned.
 */
module Leaderboard {

  import opened Options
  import opened Nats

  /** The most entries the list keeps after an insertion. */
  const MaxEntries: nat := 50

  /** One stored result. `timestamp` is the formatted wall-clock reading,
      carried as an opaque string. */
  datatype Score = Score(name: string, wpm: real, accuracy: real, quoteLength: string, timestamp: string)

  /** Non-increasing by wpm. */
  predicate SortedByWpm(s: seq<Score>) {
    forall i, j :: 0 <= i < j < |s| ==> s[i].wpm >= s[j].wpm
  }

  /** The entries of `s` whose wpm is `w`, in their order in `s`. */
  function WithWpm(s: seq<Score>, w: real): (r: seq<Score>)
    ensures |r| <= |s|
    ensures forall x :: x in r <==> x in s && x.wpm == w
  {
    if |s| == 0 then [] else (if s[0].wpm == w then [s[0]] else []) + WithWpm(s[1..], w)
  }

  /** `out` is a stable descending-by-wpm sort of `s`: sorted, and entries
      of equal wpm keep their relative order from `s`. */
  ghost predicate IsStableSort(s: seq<Score>, out: seq<Score>) {
    SortedByWpm(out) && forall w :: WithWpm(out, w) == WithWpm(s, w)
  }

  /** Puts `x` in front of the first entry whose wpm is not greater, so `x`
      precedes the entries of equal wpm. */
  function Insert(x: Score, s: seq<Score>): (r: seq<Score>)
    ensures |r| == |s| + 1
    ensures multiset(r) == multiset(s) + multiset{x}
    ensures forall y :: y in r <==> y == x || y in s
  {
    if |s| == 0 then [x]
    else if s[0].wpm > x.wpm then
      assert s == [s[0]] + s[1..];
      [s[0]] + Insert(x, s[1..])
    else [x] + s
  }

  /** Inserting into a sorted list keeps it sorted. */
  lemma {:induction false} InsertKeepsSorted(x: Score, s: seq<Score>)
    requires SortedByWpm(s)
    ensures SortedByWpm(Insert(x, s))
    decreases |s|
  {
    if |s| > 0 && s[0].wpm > x.wpm {
      InsertKeepsSorted(x, s[1..]);
      var rest := Insert(x, s[1..]);
      assert forall k :: 0 <= k < |rest| ==> rest[k].wpm <= s[0].wpm by {
        forall k | 0 <= k < |rest|
          ensures rest[k].wpm <= s[0].wpm
        {
          assert rest[k] in rest;
        }
      }
    }
  }

  /** The group of `w` in a list with a given head. */
  lemma WithWpmCons(y: Score, t: seq<Score>, w: real)
    ensures WithWpm([y] + t, w) == (if y.wpm == w then [y] else []) + WithWpm(t, w)
  {
    assert ([y] + t)[1..] == t;
  }

  lemma SwapWhenOneEmpty(g: seq<Score>, h: seq<Score>, t: seq<Score>)
    requires |g| == 0 || |h| == 0
    ensures g + (h + t) == h + (g + t)
  {
    if |g| == 0 {
      assert g + (h + t) == h + t;
      assert g + t == t;
    } else {
      assert h + t == t;
      assert h + (g + t) == g + t;
    }
  }

  /** Inserting into a sorted list puts `x` ahead of every entry of equal
      wpm and leaves the order within every other group alone. */
  lemma {:induction false} InsertIsStable(x: Score, s: seq<Score>, w: real)
    requires SortedByWpm(s)
    ensures WithWpm(Insert(x, s), w) == (if x.wpm == w then [x] else []) + WithWpm(s, w)
    decreases |s|
  {
    var gx := if x.wpm == w then [x] else [];
    if |s| == 0 {
    } else if s[0].wpm > x.wpm {
      InsertIsStable(x, s[1..], w);
      var rest := Insert(x, s[1..]);
      var g := if s[0].wpm == w then [s[0]] else [];
      var t := WithWpm(s[1..], w);
      WithWpmCons(s[0], rest, w);
      WithWpmCons(s[0], s[1..], w);
      assert s == [s[0]] + s[1..];
      SwapWhenOneEmpty(g, gx, t);
      calc {
        WithWpm(Insert(x, s), w);
        WithWpm([s[0]] + rest, w);
        g + WithWpm(rest, w);
        g + (gx + t);
        gx + (g + t);
        gx + WithWpm(s, w);
      }
    } else {
      WithWpmCons(x, s, w);
    }
  }

  /** Insertion sort: a stable sort by descending wpm. */
  function SortByWpm(s: seq<Score>): (r: seq<Score>)
    ensures multiset(r) == multiset(s)
    ensures IsStableSort(s, r)
  {
    if |s| == 0 then []
    else
      var rest := SortByWpm(s[1..]);
      assert s == [s[0]] + s[1..];
      InsertKeepsSorted(s[0], rest);
      assert forall w :: WithWpm(Insert(s[0], rest), w) == WithWpm(s, w) by {
        forall w
          ensures WithWpm(Insert(s[0], rest), w) == WithWpm(s, w)
        {
          InsertIsStable(s[0], rest, w);
        }
      }
      Insert(s[0], rest)
  }

  /** The slice `s[:n]`: the first `n` entries, or all of them when there
      are fewer. */
  function Take(s: seq<Score>, n: nat): (r: seq<Score>)
    ensures r <= s
    ensures |r| == Min(n, |s|)
  {
    if n <= |s| then s[..n] else s
  }

  lemma SortedHeadIsMax(s: seq<Score>, x: Score)
    requires SortedByWpm(s) && x in s
    ensures s[0].wpm >= x.wpm
  {
  }

  lemma SameGroupsSameEmptiness(a: seq<Score>, b: seq<Score>)
    requires forall w :: WithWpm(a, w) == WithWpm(b, w)
    ensures |a| == 0 <==> |b| == 0
  {
    if |a| > 0 {
      assert a[0] in WithWpm(a, a[0].wpm);
    }
    if |b| > 0 {
      assert b[0] in WithWpm(b, b[0].wpm);
    }
  }

  /** Two sorted lists with the same groups start with the same entry: the
      head of each is a highest-wpm entry, and the first of its group. */
  lemma SameGroupsSameHead(a: seq<Score>, b: seq<Score>)
    requires SortedByWpm(a) && SortedByWpm(b) && |a| > 0 && |b| > 0
    requires forall w :: WithWpm(a, w) == WithWpm(b, w)
    ensures a[0] == b[0]
  {
    var m := a[0].wpm;
    assert a[0] in WithWpm(b, m) by { assert a[0] in WithWpm(a, m); }
    SortedHeadIsMax(b, a[0]);
    assert b[0] in WithWpm(a, b[0].wpm) by { assert b[0] in WithWpm(b, b[0].wpm); }
    SortedHeadIsMax(a, b[0]);
    assert WithWpm(a, m)[0] == a[0];
    assert WithWpm(b, m)[0] == b[0];
  }

  /** Dropping a common head keeps the groups equal. */
  lemma SameGroupsSameTails(a: seq<Score>, b: seq<Score>, w: real)
    requires |a| > 0 && |b| > 0 && a[0] == b[0]
    requires WithWpm(a, w) == WithWpm(b, w)
    ensures WithWpm(a[1..], w) == WithWpm(b[1..], w)
  {
    var head := if a[0].wpm == w then [a[0]] else [];
    assert WithWpm(a, w) == head + WithWpm(a[1..], w);
    assert WithWpm(b, w) == head + WithWpm(b[1..], w);
    assert (head + WithWpm(a[1..], w))[|head|..] == WithWpm(a[1..], w);
    assert (head + WithWpm(b[1..], w))[|head|..] == WithWpm(b[1..], w);
  }

  /** A stable sort is determined by its input: two lists that are both
      sorted and agree on the order of every group of equal wpm are equal. */
  lemma {:induction false} StableSortIsUnique(a: seq<Score>, b: seq<Score>)
    requires SortedByWpm(a) && SortedByWpm(b)
    requires forall w :: WithWpm(a, w) == WithWpm(b, w)
    ensures a == b
    decreases |a|
  {
    SameGroupsSameEmptiness(a, b);
    if |a| > 0 {
      SameGroupsSameHead(a, b);
      forall w
        ensures WithWpm(a[1..], w) == WithWpm(b[1..], w)
      {
        SameGroupsSameTails(a, b, w);
      }
      StableSortIsUnique(a[1..], b[1..]);
      assert a == [a[0]] + a[1..];
      assert b == [b[0]] + b[1..];
    }
  }

  /** `add_score` without the save: append the new entry, sort the whole list
      stably by descending wpm, keep the first fifty. */
  function AddScore(scores: seq<Score>, entry: Score): (r: seq<Score>)
    ensures SortedByWpm(r)
    ensures |r| == Min(|scores| + 1, MaxEntries)
    ensures multiset(r) <= multiset(scores + [entry])
    ensures |scores| < MaxEntries ==> entry in r && multiset(r) == multiset(scores + [entry])
  {
    var sorted := SortByWpm(scores + [entry]);
    assert |sorted| == |scores| + 1 by {
      assert |multiset(sorted)| == |multiset(scores + [entry])|;
    }
    var r := Take(sorted, MaxEntries);
    assert sorted == r + sorted[|r|..];
    assert multiset(sorted) == multiset(r) + multiset(sorted[|r|..]);
    assert entry in multiset(scores + [entry]);
    r
  }

  /** Whatever order the list had before, the result is the first fifty
      entries of THE stable descending sort of the old entries plus the new one. */
  lemma AddScoreIsStableSortPrefix(scores: seq<Score>, entry: Score, out: seq<Score>)
    requires IsStableSort(scores + [entry], out)
    ensures AddScore(scores, entry) == Take(out, MaxEntries)
  {
    var sorted := SortByWpm(scores + [entry]);
    StableSortIsUnique(sorted, out);
  }

  /** The entries of `s` in category `c`, in their order in `s`. */
  function WithCategory(s: seq<Score>, c: string): (r: seq<Score>)
    ensures |r| <= |s|
    ensures forall x :: x in r <==> x in s && x.quoteLength == c
  {
    if |s| == 0 then []
    else (if s[0].quoteLength == c then [s[0]] else []) + WithCategory(s[1..], c)
  }

  /** Filtering a sorted list by category keeps it sorted, so the filtered
      top scores are the best scores of that category. */
  lemma {:induction false} WithCategoryKeepsSorted(s: seq<Score>, c: string)
    ensures SortedByWpm(s) ==> SortedByWpm(WithCategory(s, c))
    decreases |s|
  {
    if |s| > 0 && SortedByWpm(s) {
      WithCategoryKeepsSorted(s[1..], c);
      var rest := WithCategory(s[1..], c);
      assert forall x :: x in rest ==> x in s[1..];
    }
  }

  /** `get_top_scores`: the first `limit` entries, after keeping only the
      category `quoteLength` when one is given and non-empty. */
  function TopScores(scores: seq<Score>, limit: nat, quoteLength: Option<string>): (r: seq<Score>)
    ensures |r| <= limit
    ensures quoteLength.Some? && quoteLength.value != "" ==>
              r <= WithCategory(scores, quoteLength.value) &&
              forall x :: x in r ==> x in scores && x.quoteLength == quoteLength.value
    ensures quoteLength.Some? && quoteLength.value != "" ==>
              |r| == Min(limit, |WithCategory(scores, quoteLength.value)|)
    ensures quoteLength.None? || quoteLength.value == "" ==>
              r <= scores && |r| == Min(limit, |scores|)
    ensures SortedByWpm(scores) ==> SortedByWpm(r)
  {
    if quoteLength.Some? && quoteLength.value != "" then
      var f := WithCategory(scores, quoteLength.value);
      var r := Take(f, limit);
      WithCategoryKeepsSorted(scores, quoteLength.value);
      assert forall x :: x in r ==> x in f;
      r
    else Take(scores, limit)
  }
}
