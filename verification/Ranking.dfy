/** Counting texts and ranking them: most frequent first, ties in text order. */
module Ranking {
  import opened Lists

  /** Rust's order on strings: the first difference decides, a proper prefix comes first. */
  predicate TextLess(a: string, b: string) {
    b != "" && (a == "" || a[0] < b[0] || (a[0] == b[0] && TextLess(a[1..], b[1..])))
  }

  lemma {:induction false} TextLessIrreflexive(a: string)
    ensures !TextLess(a, a)
  {
    if a != "" {
      TextLessIrreflexive(a[1..]);
    }
  }

  lemma {:induction false} TextLessTotal(a: string, b: string)
    ensures a == b || TextLess(a, b) || TextLess(b, a)
    ensures !(TextLess(a, b) && TextLess(b, a))
    ensures !TextLess(a, a)
  {
    if a != "" && b != "" {
      TextLessTotal(a[1..], b[1..]);
      assert a[0] == b[0] && a[1..] == b[1..] ==> a == [a[0]] + a[1..] == b;
    }
    if a != "" {
      TextLessIrreflexive(a);
    }
  }

  lemma {:induction false} TextLessTransitive(a: string, b: string, c: string)
    requires TextLess(a, b) && TextLess(b, c)
    ensures TextLess(a, c)
  {
    if a != "" && a[0] == b[0] == c[0] {
      TextLessTransitive(a[1..], b[1..], c[1..]);
    }
  }

  ghost predicate ComesBeforeAt(a: string, b: string, n: nat) {
    n <= |a| && n < |b| && a[..n] == b[..n] && (n == |a| || a[n] < b[n])
  }

  /** The first difference decides; a proper beginning comes first. */
  ghost predicate ComesBefore(a: string, b: string) {
    exists n: nat :: ComesBeforeAt(a, b, n)
  }

  lemma {:induction false} TextLessByFirstDifference(a: string, b: string)
    ensures TextLess(a, b) <==> ComesBefore(a, b)
  {
    if b == "" {
      assert !TextLess(a, b);
    } else if a == "" || a[0] < b[0] {
      assert ComesBeforeAt(a, b, 0);
    } else if a[0] == b[0] {
      var x, y := a[1..], b[1..];
      TextLessByFirstDifference(x, y);
      if n: nat :| ComesBeforeAt(x, y, n) {
        assert a[..n + 1] == [a[0]] + x[..n] && b[..n + 1] == [b[0]] + y[..n];
        assert ComesBeforeAt(a, b, n + 1);
      }
      if m: nat :| ComesBeforeAt(a, b, m) {
        assert x[..m - 1] == a[..m][1..] && y[..m - 1] == b[..m][1..];
        assert ComesBeforeAt(x, y, m - 1);
      }
    } else {
      forall n: nat
        ensures !ComesBeforeAt(a, b, n)
      {
        assert n > 0 && n <= |a| && n < |b| ==> a[..n][0] == a[0] && b[..n][0] == b[0];
      }
    }
  }

  // ---------- counting ----------

  /** `counts` holds each listed text with the number of times it is listed. */
  ghost predicate Counts(counts: map<string, nat>, list: seq<string>) {
    && (forall k :: k in counts <==> k in list)
    && (forall k :: k in counts ==> counts[k] == multiset(list)[k])
  }

  /** One more occurrence: the entry is created with zero first. */
  method Count(counts: map<string, nat>, k: string, ghost list: seq<string>) returns (r: map<string, nat>)
    requires Counts(counts, list)
    ensures Counts(r, list + [k])
  {
    var entry := if k in counts then counts[k] else 0;
    assert k !in counts ==> multiset(list)[k] == 0;
    r := counts[k := entry + 1];
  }

  // ---------- ranking ----------

  predicate Outranks(counts: map<string, nat>, a: string, b: string) {
    a in counts && b in counts &&
    (counts[a] > counts[b] || (counts[a] == counts[b] && TextLess(a, b)))
  }

  ghost predicate InOrder(counts: map<string, nat>, r: seq<string>, i: nat, k: nat)
    requires i < |r| && k < |r|
  {
    Outranks(counts, r[i], r[k])
  }

  /** All counted texts, best first. */
  ghost predicate Ranked(counts: map<string, nat>, r: seq<string>) {
    && (forall k :: k in counts <==> k in r)
    && (forall i: nat, k: nat {:trigger InOrder(counts, r, i, k)} :: i < k < |r| ==> InOrder(counts, r, i, k))
  }

  lemma OutranksTransitive(counts: map<string, nat>, a: string, b: string, c: string)
    requires Outranks(counts, a, b) && Outranks(counts, b, c)
    ensures Outranks(counts, a, c)
  {
    if counts[a] == counts[b] == counts[c] {
      TextLessTransitive(a, b, c);
    }
  }

  lemma OutranksTotal(counts: map<string, nat>, a: string, b: string)
    requires a in counts && b in counts
    ensures a == b || Outranks(counts, a, b) || Outranks(counts, b, a)
  {
    TextLessTotal(a, b);
  }

  ghost predicate IsBest(counts: map<string, nat>, names: set<string>, best: string) {
    best in names && forall k :: k in names && k != best ==> Outranks(counts, best, k)
  }

  lemma {:induction false} BestExists(counts: map<string, nat>, names: set<string>)
    requires names != {} && names <= counts.Keys
    ensures exists best :: IsBest(counts, names, best)
    decreases |names|
  {
    var c :| c in names;
    var rest := names - {c};
    if rest == {} {
      assert names == {c};
      assert IsBest(counts, names, c);
    } else {
      BestExists(counts, rest);
      var top :| IsBest(counts, rest, top);
      OutranksTotal(counts, c, top);
      var best := if Outranks(counts, c, top) then c else top;
      forall k | k in names && k != best
        ensures Outranks(counts, best, k)
      {
        assert k != c ==> k in rest;
        if best == c && k != top {
          OutranksTransitive(counts, c, top, k);
        }
      }
      assert IsBest(counts, names, best);
    }
  }

  /** Stands for collecting the counts and sorting them. */
  method SortByRank(counts: map<string, nat>) returns (r: seq<string>)
    ensures Ranked(counts, r)
  {
    r := [];
    var left := counts.Keys;
    while left != {}
      invariant left <= counts.Keys
      invariant forall k :: k in counts <==> k in r || k in left
      invariant forall i: nat, k :: i < |r| && k in left ==> Outranks(counts, r[i], k)
      invariant forall i: nat, k: nat {:trigger InOrder(counts, r, i, k)} ::
        i < k < |r| ==> InOrder(counts, r, i, k)
      decreases left
    {
      BestExists(counts, left);
      var best :| best in left && forall k :: k in left && k != best ==> Outranks(counts, best, k);
      ghost var before := r;
      r := r + [best];
      left := left - {best};
      forall i: nat, k: nat | i < k < |r|
        ensures InOrder(counts, r, i, k)
      {
        assert k < |before| ==> InOrder(counts, before, i, k);
      }
    }
  }

  /** There is only one ranking: it lists each text once. */
  lemma {:induction false} RankedOnce(counts: map<string, nat>, r: seq<string>, i: nat, k: nat)
    requires Ranked(counts, r) && i < k < |r|
    ensures r[i] != r[k]
  {
    assert InOrder(counts, r, i, k);
    TextLessIrreflexive(r[i]);
  }

  lemma PlaceAtOrAfter(counts: map<string, nat>, r: seq<string>, t: seq<string>, m: nat) returns (j: nat)
    requires Ranked(counts, r) && Ranked(counts, t) && m < |r| && m <= |t| && r[..m] == t[..m]
    ensures m <= j < |t| && t[j] == r[m]
  {
    assert r[m] in r && r[m] in counts && r[m] in t;
    j :| j < |t| && t[j] == r[m];
    if j < m {
      assert r[..m][j] == t[..m][j];
      RankedOnce(counts, r, j, m);
    }
  }

  lemma {:induction false} RankingIsUnique(counts: map<string, nat>, r: seq<string>, t: seq<string>, n: nat)
    requires Ranked(counts, r) && Ranked(counts, t) && n <= |r|
    ensures n <= |t| && r[..n] == t[..n]
  {
    if n > 0 {
      var m := n - 1;
      RankingIsUnique(counts, r, t, m);
      var j := PlaceAtOrAfter(counts, r, t, m);
      var i := PlaceAtOrAfter(counts, t, r, m);
      assert j > m ==> InOrder(counts, t, m, j);
      assert i > m ==> InOrder(counts, r, m, i);
      TextLessTotal(r[m], t[m]);
      assert r[..n] == r[..m] + [r[m]] && t[..n] == t[..m] + [t[m]];
    }
  }

  lemma RankingsAgree(counts: map<string, nat>, r: seq<string>, t: seq<string>)
    requires Ranked(counts, r) && Ranked(counts, t)
    ensures r == t
  {
    RankingIsUnique(counts, r, t, |r|);
    RankingIsUnique(counts, t, r, |t|);
    TakeAll(r);
    TakeAll(t);
  }

  /** The first `limit` of the ranked texts of a list. */
  ghost predicate BestOf(list: seq<string>, limit: nat, best: seq<string>) {
    exists counts, ranked :: Counts(counts, list) && Ranked(counts, ranked) && best == Take(ranked, limit)
  }

  lemma BestOfIsUnique(list: seq<string>, limit: nat, a: seq<string>, b: seq<string>)
    requires BestOf(list, limit, a) && BestOf(list, limit, b)
    ensures a == b
  {
    var counts, r :| Counts(counts, list) && Ranked(counts, r) && a == Take(r, limit);
    var others, t :| Counts(others, list) && Ranked(others, t) && b == Take(t, limit);
    assert counts.Keys == others.Keys;
    assert counts == others;
    RankingsAgree(counts, r, t);
  }

  /** Listed more often, or as often and earlier in text order. */
  ghost predicate RanksAbove(list: seq<string>, a: string, b: string) {
    multiset(list)[a] > multiset(list)[b] || (multiset(list)[a] == multiset(list)[b] && ComesBefore(a, b))
  }

  /** Each text is among the best once, it is listed, and no listed text that is left out
      outranks one that is chosen. */
  lemma BestOfMeaning(list: seq<string>, limit: nat, best: seq<string>, counts: map<string, nat>)
    requires BestOf(list, limit, best) && Counts(counts, list)
    ensures |best| <= limit && forall t :: t in best ==> t in list
    ensures forall i, k :: 0 <= i < k < |best| ==> RanksAbove(list, best[i], best[k])
    ensures forall t, i :: t in list && t !in best && 0 <= i < |best| ==>
      |best| == limit && RanksAbove(list, best[i], t)
  {
    var others, r :| Counts(others, list) && Ranked(others, r) && best == Take(r, limit);
    assert counts.Keys == others.Keys;
    assert counts == others;
    forall i, k | 0 <= i < k < |best|
      ensures RanksAbove(list, best[i], best[k])
    {
      assert InOrder(counts, r, i, k);
      TextLessByFirstDifference(best[i], best[k]);
    }
    forall t, i | t in list && t !in best && 0 <= i < |best|
      ensures |best| == limit && RanksAbove(list, best[i], t)
    {
      TextLessByFirstDifference(best[i], t);
      assert t in counts && t in r;
      var k :| 0 <= k < |r| && r[k] == t;
      TakeHolds(r, limit, k);
      assert InOrder(counts, r, i, k);
    }
  }
}
