/** The ranking step of GetBestScores: `OrderByDescending(x => x.Score)`,
    which is a stable sort, followed by `Take(10)`. */
module Leaderboard {
  import opened ScoreRecord

  /** How many entries the leaderboard shows. */
  const MaxEntries: nat := 10

  predicate SortedByScoreDesc(s: seq<ScoreEntry>) {
    forall i, j :: 0 <= i < j < |s| ==> s[i].score >= s[j].score
  }

  /** The entries of `s` whose score is `k`, in their order in `s`. */
  function WithScore(s: seq<ScoreEntry>, k: int): seq<ScoreEntry> {
    if s == [] then [] else (if s[0].score == k then [s[0]] else []) + WithScore(s[1..], k)
  }

  /** `r` lists the entries of `s` by score, highest first, and entries with
      equal scores in the order they have in `s`: the result a stable
      descending sort must give. */
  ghost predicate IsStableDescendingOrderOf(r: seq<ScoreEntry>, s: seq<ScoreEntry>) {
    SortedByScoreDesc(r) && forall k :: WithScore(r, k) == WithScore(s, k)
  }

  /** Puts `e` in front of the first entry whose score is not higher, so it
      precedes the entries of equal score that were already there. */
  function Insert(e: ScoreEntry, s: seq<ScoreEntry>): (r: seq<ScoreEntry>)
    requires SortedByScoreDesc(s)
    ensures SortedByScoreDesc(r)
    ensures multiset(r) == multiset(s) + multiset{e}
    ensures |r| == |s| + 1
  {
    if s == [] || e.score >= s[0].score then ConsSorted(e, s); [e] + s
    else
      var ins := Insert(e, s[1..]);
      assert s == [s[0]] + s[1..];
      TailBounded(s);
      BoundedBy(ins, s[0].score);
      ConsSorted(s[0], ins);
      [s[0]] + ins
  }

  /** An entry scoring at least the first of a sorted sequence can go in front. */
  lemma {:induction false} ConsSorted(x: ScoreEntry, t: seq<ScoreEntry>)
    requires SortedByScoreDesc(t) && (t == [] || x.score >= t[0].score)
    ensures SortedByScoreDesc([x] + t)
  {
    var r := [x] + t;
    forall i, j | 0 <= i < j < |r| ensures r[i].score >= r[j].score {
      if i == 0 {
        assert r[j] == t[j - 1];
        if j > 1 { assert t[0].score >= t[j - 1].score; }
      } else {
        assert r[i] == t[i - 1] && r[j] == t[j - 1];
      }
    }
  }

  /** In a sorted sequence no later entry outscores the first one. */
  lemma {:induction false} TailBounded(s: seq<ScoreEntry>)
    requires SortedByScoreDesc(s) && s != []
    ensures forall x | x in multiset(s[1..]) :: x.score <= s[0].score
  {
    forall x | x in multiset(s[1..]) ensures x.score <= s[0].score {
      var i :| 0 <= i < |s[1..]| && s[1..][i] == x;
      assert s[i + 1] == x;
    }
  }

  lemma {:induction false} BoundedBy(t: seq<ScoreEntry>, m: int)
    requires forall x | x in multiset(t) :: x.score <= m
    ensures forall j :: 0 <= j < |t| ==> t[j].score <= m
  {
    forall j | 0 <= j < |t| ensures t[j].score <= m {
      assert t[j] in multiset(t);
    }
  }

  /** OrderByDescending(x => x.Score): a permutation of `s`, highest score first. */
  function SortByScoreDesc(s: seq<ScoreEntry>): (r: seq<ScoreEntry>)
    ensures SortedByScoreDesc(r)
    ensures multiset(r) == multiset(s)
    ensures |r| == |s|
  {
    if s == [] then []
    else
      assert s == [s[0]] + s[1..];
      Insert(s[0], SortByScoreDesc(s[1..]))
  }

  lemma {:induction false} WithScoreCons(e: ScoreEntry, s: seq<ScoreEntry>, k: int)
    ensures WithScore([e] + s, k) == (if e.score == k then [e] else []) + WithScore(s, k)
  {
    assert ([e] + s)[1..] == s;
  }

  /** Inserting adds `e` in front of its equals and changes no other score's entries. */
  lemma {:induction false} WithScoreInsert(e: ScoreEntry, s: seq<ScoreEntry>, k: int)
    requires SortedByScoreDesc(s)
    ensures WithScore(Insert(e, s), k) == (if e.score == k then [e] else []) + WithScore(s, k)
    decreases |s|
  {
    if s == [] || e.score >= s[0].score {
      WithScoreCons(e, s, k);
    } else {
      WithScoreInsert(e, s[1..], k);
      WithScoreCons(s[0], Insert(e, s[1..]), k);
      WithScoreCons(s[0], s[1..], k);
      assert s == [s[0]] + s[1..];
    }
  }

  /** The sort is stable: it is the stable descending order of its input. */
  lemma {:induction false} SortIsStable(s: seq<ScoreEntry>)
    ensures IsStableDescendingOrderOf(SortByScoreDesc(s), s)
    decreases |s|
  {
    if s != [] {
      SortIsStable(s[1..]);
      forall k ensures WithScore(SortByScoreDesc(s), k) == WithScore(s, k) {
        WithScoreInsert(s[0], SortByScoreDesc(s[1..]), k);
        WithScoreCons(s[0], s[1..], k);
        assert s == [s[0]] + s[1..];
      }
    }
  }

  lemma {:induction false} InWithScore(s: seq<ScoreEntry>, x: ScoreEntry, k: int)
    ensures x in WithScore(s, k) <==> x in s && x.score == k
    decreases |s|
  {
    if s != [] {
      InWithScore(s[1..], x, k);
      assert s == [s[0]] + s[1..];
    }
  }

  /** There is only one stable descending order of a sequence, so any
      stable sort by descending score gives what SortByScoreDesc gives. */
  lemma {:induction false} StableOrderUnique(a: seq<ScoreEntry>, b: seq<ScoreEntry>)
    requires SortedByScoreDesc(a) && SortedByScoreDesc(b)
    requires forall k :: WithScore(a, k) == WithScore(b, k)
    ensures a == b
    decreases |a| + |b|
  {
    if a == [] || b == [] {
      if a != [] {
        InWithScore(a, a[0], a[0].score);
      } else if b != [] {
        InWithScore(b, b[0], b[0].score);
      }
    } else {
      SameHead(a, b);
      SameTails(a, b);
      StableOrderUnique(a[1..], b[1..]);
      assert a == [a[0]] + a[1..] && b == [b[0]] + b[1..];
    }
  }

  /** Two sorted sequences with the same entries per score start alike. */
  lemma {:induction false} SameHead(a: seq<ScoreEntry>, b: seq<ScoreEntry>)
    requires SortedByScoreDesc(a) && SortedByScoreDesc(b) && a != [] && b != []
    requires forall k :: WithScore(a, k) == WithScore(b, k)
    ensures a[0] == b[0]
  {
    var x, y := a[0], b[0];
    InWithScore(a, x, x.score);
    InWithScore(b, x, x.score);
    InWithScore(a, y, y.score);
    InWithScore(b, y, y.score);
    var j :| 0 <= j < |b| && b[j] == x;
    var i :| 0 <= i < |a| && a[i] == y;
    assert x.score == y.score;
    WithScoreCons(x, a[1..], x.score);
    WithScoreCons(y, b[1..], x.score);
    assert a == [x] + a[1..] && b == [y] + b[1..];
    assert WithScore(a, x.score)[0] == x && WithScore(b, x.score)[0] == y;
  }

  /** Dropping the same first entry keeps the per-score agreement. */
  lemma {:induction false} SameTails(a: seq<ScoreEntry>, b: seq<ScoreEntry>)
    requires a != [] && b != [] && a[0] == b[0]
    requires forall k :: WithScore(a, k) == WithScore(b, k)
    ensures forall k :: WithScore(a[1..], k) == WithScore(b[1..], k)
  {
    forall k ensures WithScore(a[1..], k) == WithScore(b[1..], k) {
      WithScoreCons(a[0], a[1..], k);
      WithScoreCons(b[0], b[1..], k);
      assert a == [a[0]] + a[1..] && b == [b[0]] + b[1..];
      assert WithScore(a, k) == WithScore(b, k);
      var p := if a[0].score == k then [a[0]] else [];
      assert WithScore(a[1..], k) == WithScore(a, k)[|p|..];
      assert WithScore(b[1..], k) == WithScore(b, k)[|p|..];
    }
  }

  /** Take(10) after the sort: the leaderboard shown to the player. */
  function TopScores(entries: seq<ScoreEntry>): (r: seq<ScoreEntry>)
    ensures |r| == if |entries| < MaxEntries then |entries| else MaxEntries
    ensures SortedByScoreDesc(r)
    ensures multiset(r) <= multiset(entries)
  {
    var sorted := SortByScoreDesc(entries);
    var n := if |sorted| < MaxEntries then |sorted| else MaxEntries;
    assert sorted == sorted[..n] + sorted[n..];
    sorted[..n]
  }

  /** With at most ten entries nothing is dropped: the leaderboard is every
      entry, in stable descending order. */
  lemma {:induction false} TopScoresKeepsAll(entries: seq<ScoreEntry>)
    requires |entries| <= MaxEntries
    ensures multiset(TopScores(entries)) == multiset(entries)
    ensures IsStableDescendingOrderOf(TopScores(entries), entries)
  {
    var sorted := SortByScoreDesc(entries);
    assert sorted[..|sorted|] == sorted;
    SortIsStable(entries);
  }

  /** No entry left off the leaderboard has a higher score than any entry on it. */
  lemma {:induction false} TopScoresKeepsBest(entries: seq<ScoreEntry>)
    ensures forall x, y :: x in multiset(entries) - multiset(TopScores(entries)) && y in TopScores(entries)
                           ==> x.score <= y.score
  {
    var sorted := SortByScoreDesc(entries);
    var r := TopScores(entries);
    var rest := sorted[|r|..];
    assert multiset(entries) - multiset(r) == multiset(rest) by {
      assert sorted == r + rest;
    }
    SortedSplit(sorted, |r|);
  }

  /** In a sorted sequence, nothing after position n outscores anything before it. */
  lemma {:induction false} SortedSplit(sorted: seq<ScoreEntry>, n: nat)
    requires SortedByScoreDesc(sorted) && n <= |sorted|
    ensures forall x, y :: x in multiset(sorted[n..]) && y in sorted[..n] ==> x.score <= y.score
  {
    forall x, y | x in multiset(sorted[n..]) && y in sorted[..n] ensures x.score <= y.score {
      var j :| 0 <= j < |sorted[n..]| && sorted[n..][j] == x;
      var i :| 0 <= i < n && sorted[..n][i] == y;
      assert sorted[i] == y && sorted[n + j] == x;
    }
  }

  /** Entries of equal score appear on the leaderboard in file order: for
      each score, the leaderboard's entries are the first ones of that
      score in the input. */
  lemma {:induction false} TopScoresKeepsFileOrder(entries: seq<ScoreEntry>, k: int)
    ensures WithScore(TopScores(entries), k) <= WithScore(entries, k)
  {
    var sorted := SortByScoreDesc(entries);
    var r := TopScores(entries);
    SortIsStable(entries);
    assert sorted == r + sorted[|r|..];
    WithScoreAppend(r, sorted[|r|..], k);
  }

  lemma {:induction false} WithScoreAppend(p: seq<ScoreEntry>, q: seq<ScoreEntry>, k: int)
    ensures WithScore(p + q, k) == WithScore(p, k) + WithScore(q, k)
    decreases |p|
  {
    if p == [] {
      assert p + q == q;
    } else {
      WithScoreAppend(p[1..], q, k);
      assert (p + q)[1..] == p[1..] + q;
    }
  }
}
