/** Maximal runs of the elements of a list that satisfy a predicate, and lists without
    repeated keys. Words, entity phrases and tokens are all runs of something. */
module Lists {

  /** The last element belongs to a run that may still grow. */
  predicate Open<T>(s: seq<T>, keep: T -> bool) {
    s != [] && keep(s[|s| - 1])
  }

  /** Adds one element to the last run, or starts a run with it. */
  function Grow<T>(r: seq<seq<T>>, open: bool, x: T): (g: seq<seq<T>>)
    requires open ==> r != []
    ensures g != []
  {
    if open then r[..|r| - 1] + [r[|r| - 1] + [x]] else r + [[x]]
  }

  function Runs<T>(s: seq<T>, keep: T -> bool): (r: seq<seq<T>>)
    ensures Open(s, keep) ==> r != []
    ensures forall i :: 0 <= i < |r| ==> r[i] != []
    ensures forall i, k :: 0 <= i < |r| && 0 <= k < |r[i]| ==> keep(r[i][k])
  {
    if s == [] then []
    else
      var p, x := s[..|s| - 1], s[|s| - 1];
      if keep(x) then Grow(Runs(p, keep), Open(p, keep), x) else Runs(p, keep)
  }

  lemma RunsSnoc<T>(s: seq<T>, x: T, keep: T -> bool)
    ensures !keep(x) ==> Runs(s + [x], keep) == Runs(s, keep)
    ensures keep(x) ==> Runs(s + [x], keep) == Grow(Runs(s, keep), Open(s, keep), x)
    ensures Open(s + [x], keep) == keep(x)
  {
    assert (s + [x])[..|s|] == s;
  }

  lemma GrowConcat<T>(a: seq<seq<T>>, r: seq<seq<T>>, open: bool, x: T)
    requires open ==> r != []
    ensures Grow(a + r, open, x) == a + Grow(r, open, x)
  {
    if open {
      assert (a + r)[..|a + r| - 1] == a + r[..|r| - 1];
    }
  }

  /** Any element outside the runs separates them. */
  lemma {:induction false} RunsSplit<T>(a: seq<T>, sep: T, b: seq<T>, keep: T -> bool)
    requires !keep(sep)
    ensures Runs(a + [sep] + b, keep) == Runs(a, keep) + Runs(b, keep)
    ensures Open(a + [sep] + b, keep) == Open(b, keep)
    decreases |b|
  {
    if b == [] {
      RunsSnoc(a, sep, keep);
      assert a + [sep] + b == a + [sep];
    } else {
      var p, x := b[..|b| - 1], b[|b| - 1];
      RunsSplit(a, sep, p, keep);
      RunsSnoc(a + [sep] + p, x, keep);
      RunsSnoc(p, x, keep);
      assert a + [sep] + b == (a + [sep] + p) + [x] && b == p + [x];
      GrowConcat(Runs(a, keep), Runs(p, keep), Open(p, keep), x);
    }
  }

  lemma GrowOnly<T>(p: seq<T>, x: T)
    ensures Grow(if p == [] then [] else [p], p != [], x) == [p + [x]]
  {
    if p != [] {
      assert [p][..0] == [];
    } else {
      assert [] + [x] == [x];
    }
  }

  lemma RunGoesOn<T>(p: seq<T>, x: T, keep: T -> bool, before: seq<seq<T>>)
    requires keep(x) && (p != [] ==> keep(p[|p| - 1]))
    requires before == Runs(p, keep) && before == if p == [] then [] else [p]
    ensures Runs(p + [x], keep) == [p + [x]]
  {
    RunsSnoc(p, x, keep);
    GrowOnly(p, x);
  }

  /** A list all of whose elements qualify is a single run. */
  lemma {:induction false} RunsOfRun<T>(s: seq<T>, keep: T -> bool)
    requires forall i :: 0 <= i < |s| ==> keep(s[i])
    ensures Runs(s, keep) == if s == [] then [] else [s]
  {
    if s != [] {
      var p, x := s[..|s| - 1], s[|s| - 1];
      assert s == p + [x];
      RunsOfRun(p, keep);
      RunGoesOn(p, x, keep, Runs(p, keep));
    }
  }

  function Take<T>(s: seq<T>, limit: nat): (r: seq<T>)
    ensures |r| <= limit && r <= s
    ensures |s| <= limit ==> r == s
    ensures |s| > limit ==> |r| == limit
  {
    if |s| <= limit then s else s[..limit]
  }

  lemma TakeHolds<T>(s: seq<T>, limit: nat, k: nat)
    requires k < |s|
    ensures k < limit ==> s[k] in Take(s, limit)
  {
    assert k < limit ==> Take(s, limit)[k] == s[k];
  }

  lemma TakeSnoc<T>(s: seq<T>, i: nat)
    requires i < |s|
    ensures s[..i + 1] == s[..i] + [s[i]]
  {
  }

  lemma TakeAll<T>(s: seq<T>)
    ensures s[..|s|] == s
  {
  }

  lemma ConcatIsAssociative<T>(a: seq<T>, b: seq<T>, c: seq<T>)
    ensures (a + b) + c == a + (b + c)
  {
  }

  function FlatMap<S, T>(s: seq<S>, f: S -> seq<T>): seq<T> {
    if s == [] then [] else FlatMap(s[..|s| - 1], f) + f(s[|s| - 1])
  }

  lemma {:induction false} FlatMapConcat<S, T>(a: seq<S>, b: seq<S>, f: S -> seq<T>)
    ensures FlatMap(a + b, f) == FlatMap(a, f) + FlatMap(b, f)
    decreases |b|
  {
    if b == [] {
      assert a + b == a;
    } else {
      var front, last := b[..|b| - 1], b[|b| - 1];
      FlatMapConcat(a, front, f);
      assert (a + b)[..|a + b| - 1] == a + front;
    }
  }

  lemma FlatMapOne<S, T>(x: S, f: S -> seq<T>)
    ensures FlatMap([x], f) == f(x)
  {
    assert [x][..0] == [] && [] + f(x) == f(x);
  }

  /** Consecutive groups of `n`; the last may be shorter. */
  function Chunks<T>(s: seq<T>, n: nat): (g: seq<seq<T>>)
    requires n > 0
    ensures s != [] ==> g != []
  {
    if s == [] then []
    else if |s| <= n then [s]
    else [s[..n]] + Chunks(s[n..], n)
  }

  lemma {:induction false} ChunksCount<T>(s: seq<T>, n: nat, k: nat)
    requires n > 0 && |s| <= k * n
    ensures |Chunks(s, n)| <= k
    decreases k
  {
    if |s| > n {
      assert k * n == (k - 1) * n + n;
      ChunksCount(s[n..], n, k - 1);
    } else if s != [] {
      assert k > 0;
    }
  }

  /** All groups are full except perhaps the last. */
  lemma {:induction false} ChunksAreFull<T>(s: seq<T>, n: nat, k: nat)
    requires n > 0 && k < |Chunks(s, n)|
    ensures 0 < |Chunks(s, n)[k]| <= n
    ensures k < |Chunks(s, n)| - 1 ==> |Chunks(s, n)[k]| == n
  {
    if |s| > n && k > 0 {
      ChunksAreFull(s[n..], n, k - 1);
    }
  }

  /** Where group number `k` begins. */
  function Start(n: nat, k: nat): nat {
    if k == 0 then 0 else Start(n, k - 1) + n
  }

  lemma {:induction false} StartIsProduct(n: nat, k: nat)
    ensures Start(n, k) == n * k
  {
    if k > 0 {
      StartIsProduct(n, k - 1);
      assert n * k == n * (k - 1) + n;
    }
  }

  lemma ChunksCons<T>(s: seq<T>, n: nat)
    requires n > 0 && |s| > n
    ensures Chunks(s, n) == [s[..n]] + Chunks(s[n..], n)
  {
  }

  lemma SliceOfRest<T>(s: seq<T>, n: nat, at: nat, end: nat)
    requires n <= at <= end <= |s|
    ensures s[n..][at - n..end - n] == s[at..end]
  {
  }

  lemma {:induction false} ChunkFrom<T>(s: seq<T>, n: nat, k: nat, at: nat)
    requires n > 0 && at == Start(n, k)
    ensures k < |Chunks(s, n)| <==> at < |s|
    ensures k < |Chunks(s, n)| ==> Chunks(s, n)[k] == s[at..if at + n <= |s| then at + n else |s|]
    decreases k
  {
    if |s| <= n {
      assert k > 0 ==> at >= n;
    } else if k > 0 {
      ChunksCons(s, n);
      ChunkFrom(s[n..], n, k - 1, at - n);
      if at < |s| {
        SliceOfRest(s, n, at, if at + n <= |s| then at + n else |s|);
      }
    }
  }

  /** Group number `k` begins at element `n * k`. */
  lemma ChunkAt<T>(s: seq<T>, n: nat, k: nat)
    requires n > 0
    ensures k < |Chunks(s, n)| <==> n * k < |s|
    ensures k < |Chunks(s, n)| ==> Chunks(s, n)[k] == s[n * k..if n * k + n <= |s| then n * k + n else |s|]
  {
    StartIsProduct(n, k);
    ChunkFrom(s, n, k, Start(n, k));
  }

  function Flatten<T>(parts: seq<seq<T>>): seq<T> {
    if parts == [] then [] else parts[0] + Flatten(parts[1..])
  }

  /** The groups put together are the list. */
  lemma {:induction false} ChunksFlatten<T>(s: seq<T>, n: nat)
    requires n > 0
    ensures Flatten(Chunks(s, n)) == s
  {
    if |s| > n {
      ChunksFlatten(s[n..], n);
      assert Chunks(s, n)[1..] == Chunks(s[n..], n);
    } else if s != [] {
      assert Chunks(s, n)[1..] == [];
    }
  }

  lemma {:induction false} SmallerSet<T>(a: set<T>, b: set<T>)
    requires a <= b
    ensures |a| <= |b|
  {
    if a != {} {
      var x :| x in a;
      SmallerSet(a - {x}, b - {x});
    }
  }

  // ---------- dropping repeats ----------

  predicate HasKey<T>(s: seq<T>, key: T -> string, k: string) {
    exists i :: 0 <= i < |s| && key(s[i]) == k
  }

  /** Keeps the first element with each key. */
  function Firsts<T>(s: seq<T>, key: T -> string): seq<T> {
    if s == [] then []
    else
      var p, x := s[..|s| - 1], s[|s| - 1];
      Firsts(p, key) + (if HasKey(p, key, key(x)) then [] else [x])
  }

  /** No two kept elements share a key, every element's key is kept, all kept elements are
      elements, and a list without repeats is kept whole. */
  lemma {:induction false} FirstsMeaning<T>(s: seq<T>, key: T -> string)
    ensures var r := Firsts(s, key);
      && |r| <= |s|
      && (forall i, k :: 0 <= i < k < |r| ==> key(r[i]) != key(r[k]))
      && (forall x :: x in r ==> x in s)
      && (forall k :: HasKey(s, key, k) <==> HasKey(r, key, k))
      && (s != [] ==> r != [] && r[0] == s[0])
  {
    if s != [] {
      var p, x := s[..|s| - 1], s[|s| - 1];
      FirstsMeaning(p, key);
      var r, q := Firsts(s, key), Firsts(p, key);
      forall k
        ensures HasKey(s, key, k) <==> HasKey(r, key, k)
      {
        if HasKey(s, key, k) {
          var i :| 0 <= i < |s| && key(s[i]) == k;
          if i < |p| {
            assert key(p[i]) == k && HasKey(p, key, k);
            var j :| 0 <= j < |q| && key(q[j]) == k;
            assert r[j] == q[j];
          } else if HasKey(p, key, k) {
            var j :| 0 <= j < |q| && key(q[j]) == k;
            assert r[j] == q[j];
          } else {
            assert r[|q|] == x;
          }
        }
        if HasKey(r, key, k) {
          var i :| 0 <= i < |r| && key(r[i]) == k;
          if i < |q| {
            assert key(q[i]) == k && HasKey(q, key, k);
            var j :| 0 <= j < |p| && key(p[j]) == k;
            assert s[j] == p[j];
          } else {
            assert key(s[|p|]) == k;
          }
        }
      }
      forall i, k | 0 <= i < k < |r|
        ensures key(r[i]) != key(r[k])
      {
        if k == |q| {
          assert key(q[i]) == key(r[i]);
          assert HasKey(q, key, key(r[i]));
        }
      }
      if p != [] {
        assert r[0] == q[0] && s[0] == p[0];
      }
    }
  }

  /** The indices rise, and stay below `n`. */
  predicate Rising(src: seq<nat>, n: nat) {
    && (forall i :: 0 <= i < |src| ==> src[i] < n)
    && (forall i, k :: 0 <= i < k < |src| ==> src[i] < src[k])
  }

  ghost predicate KeptBy<T>(r: seq<T>, key: T -> string, src: seq<nat>, x: T, m: nat)
    requires |src| == |r|
  {
    exists i :: 0 <= i < |r| && key(r[i]) == key(x) && src[i] <= m
  }

  /** The kept elements stand at `src` in the list; each element's key is kept at its own place
      or an earlier one. */
  ghost predicate FirstsAt<T>(s: seq<T>, key: T -> string, r: seq<T>, src: seq<nat>) {
    && |src| == |r| && Rising(src, |s|)
    && (forall i :: 0 <= i < |r| ==> r[i] == s[src[i]])
    && (forall m {:trigger KeptBy(r, key, src, s[m], m)} :: 0 <= m < |s| ==> KeptBy(r, key, src, s[m], m))
  }

  lemma KeptByMore<T>(q: seq<T>, r: seq<T>, key: T -> string, earlier: seq<nat>, src: seq<nat>, x: T, m: nat)
    requires |earlier| == |q| && |src| == |r| && q <= r && earlier <= src && KeptBy(q, key, earlier, x, m)
    ensures KeptBy(r, key, src, x, m)
  {
    var i :| 0 <= i < |q| && key(q[i]) == key(x) && earlier[i] <= m;
    assert r[i] == q[i] && src[i] == earlier[i];
  }

  lemma KeptByAll<T>(p: seq<T>, s: seq<T>, key: T -> string, q: seq<T>, r: seq<T>, earlier: seq<nat>, src: seq<nat>)
    requires FirstsAt(p, key, q, earlier) && |src| == |r| && q <= r && earlier <= src
    requires p <= s && |s| == |p| + 1 && KeptBy(r, key, src, s[|p|], |p|)
    ensures forall m {:trigger KeptBy(r, key, src, s[m], m)} :: 0 <= m < |s| ==> KeptBy(r, key, src, s[m], m)
  {
    forall m {:trigger KeptBy(r, key, src, s[m], m)} | 0 <= m < |s|
      ensures KeptBy(r, key, src, s[m], m)
    {
      if m < |p| {
        assert KeptBy(q, key, earlier, p[m], m);
        KeptByMore(q, r, key, earlier, src, p[m], m);
      }
    }
  }

  lemma RepeatIsKept<T>(p: seq<T>, x: T, key: T -> string, q: seq<T>, src: seq<nat>)
    requires FirstsAt(p, key, q, src) && HasKey(p, key, key(x))
    ensures KeptBy(q, key, src, x, |p|)
  {
    var m :| 0 <= m < |p| && key(p[m]) == key(x);
    assert KeptBy(q, key, src, p[m], m);
    var i :| 0 <= i < |q| && key(q[i]) == key(p[m]) && src[i] <= m;
    assert key(q[i]) == key(x) && src[i] <= |p|;
  }

  lemma NewIsKept<T>(p: seq<T>, x: T, key: T -> string, q: seq<T>, earlier: seq<nat>, r: seq<T>, src: seq<nat>)
    requires |earlier| == |q| && Rising(earlier, |p|) && r == q + [x] && src == earlier + [|p|]
    ensures Rising(src, |p| + 1) && KeptBy(r, key, src, x, |p|)
  {
    assert key(r[|q|]) == key(x) && src[|q|] <= |p|;
  }

  lemma FirstsAtGrows<T>(p: seq<T>, x: T, s: seq<T>, key: T -> string, q: seq<T>, r: seq<T>, earlier: seq<nat>)
    returns (src: seq<nat>)
    requires s == p + [x] && FirstsAt(p, key, q, earlier)
    requires r == if HasKey(p, key, key(x)) then q else q + [x]
    ensures FirstsAt(s, key, r, src)
  {
    if HasKey(p, key, key(x)) {
      src := earlier;
      RepeatIsKept(p, x, key, q, earlier);
    } else {
      src := earlier + [|p|];
      NewIsKept(p, x, key, q, earlier, r, src);
    }
    KeptByAll(p, s, key, q, r, earlier, src);
  }

  /** Whatever is kept is the first of its kind, and in order. */
  lemma {:induction false} FirstsComeFirst<T>(s: seq<T>, key: T -> string) returns (src: seq<nat>)
    ensures FirstsAt(s, key, Firsts(s, key), src)
  {
    if s == [] {
      src := [];
    } else {
      var p, x := s[..|s| - 1], s[|s| - 1];
      var earlier := FirstsComeFirst(p, key);
      src := FirstsAtGrows(p, x, s, key, Firsts(p, key), Firsts(s, key), earlier);
    }
  }

  /** The code's loop: an element is kept when inserting its key into a set succeeds. */
  method Dedupe<T>(s: seq<T>, key: T -> string) returns (r: seq<T>)
    ensures r == Firsts(s, key)
  {
    var seen: set<string> := {};
    r := [];
    for i := 0 to |s|
      invariant r == Firsts(s[..i], key)
      invariant forall k :: k in seen <==> HasKey(s[..i], key, k)
    {
      var k := key(s[i]);
      assert s[..i + 1][..i] == s[..i] && s[..i + 1][i] == s[i];
      if k !in seen {
        r := r + [s[i]];
      }
      seen := seen + {k};
      forall l
        ensures l in seen <==> HasKey(s[..i + 1], key, l)
      {
        if HasKey(s[..i], key, l) {
          var n :| 0 <= n < i && key(s[..i][n]) == l;
          assert key(s[..i + 1][n]) == l;
        }
        if HasKey(s[..i + 1], key, l) {
          var n :| 0 <= n < i + 1 && key(s[..i + 1][n]) == l;
          assert n < i ==> key(s[..i][n]) == l;
        }
        assert key(s[..i + 1][i]) == k;
      }
    }
    assert s[..|s|] == s;
  }
}
