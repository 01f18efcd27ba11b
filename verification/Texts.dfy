/** Text as sequences of Unicode scalar values, and the small string operations the modules
    share: splitting and joining, ASCII case, trimming, searching and truncating. */
module Texts {
  import opened Wrappers

  /** The Unicode tables the code consults. They stay parameters, so every theorem holds for
      all tables that satisfy `Sane`. */
  datatype Unicode = Unicode(
    isSpace: char -> bool, isAlphanumeric: char -> bool, isAlphabetic: char -> bool,
    isNumeric: char -> bool, isUppercase: char -> bool, lower: char -> string)

  const ELLIPSIS: char := '\U{2026}'
  // The longest text of one embedding input.
  const MAX_INPUT_CHARS: nat := 700

  ghost predicate LowersToSomething(u: Unicode) {
    forall c :: u.lower(c) != ""
  }

  ghost predicate Sane(u: Unicode) {
    && u.isSpace(' ') && u.isSpace('\n') && !u.isSpace(ELLIPSIS)
    && (forall c :: 'a' <= c <= 'z' || '0' <= c <= '9' || c == '-' || c == '.' ==> !u.isSpace(c))
    && LowersToSomething(u)
  }

  predicate AllNumeric(u: Unicode, s: string) {
    forall i :: 0 <= i < |s| ==> u.isNumeric(s[i])
  }

  // ---------- ASCII case ----------

  function LowerChar(c: char): (r: char)
    ensures !('A' <= r <= 'Z')
    ensures !('A' <= c <= 'Z') ==> r == c
  {
    if 'A' <= c <= 'Z' then c - 'A' + 'a' else c
  }

  function AsciiLower(s: string): (r: string)
    ensures |r| == |s|
    ensures forall i :: 0 <= i < |s| ==> r[i] == LowerChar(s[i])
  {
    seq(|s|, i requires 0 <= i < |s| => LowerChar(s[i]))
  }

  lemma LowerTwice(s: string)
    ensures AsciiLower(AsciiLower(s)) == AsciiLower(s)
    ensures forall i :: 0 <= i < |s| ==> !('A' <= AsciiLower(s)[i] <= 'Z')
  {
  }

  predicate SameLetter(a: char, b: char) {
    || a == b
    || ('A' <= a <= 'Z' && 'a' <= b <= 'z' && b as int - 'a' as int == a as int - 'A' as int)
    || ('A' <= b <= 'Z' && 'a' <= a <= 'z' && a as int - 'a' as int == b as int - 'A' as int)
  }

  predicate EqualIgnoringCase(a: string, b: string) {
    |a| == |b| && forall i :: 0 <= i < |a| ==> SameLetter(a[i], b[i])
  }

  /** Comparing in lower case is comparing letter by letter, whatever their case. */
  lemma LowerComparesIgnoringCase(a: string, b: string)
    ensures AsciiLower(a) == AsciiLower(b) <==> EqualIgnoringCase(a, b)
  {
    if AsciiLower(a) == AsciiLower(b) {
      forall i | 0 <= i < |a|
        ensures SameLetter(a[i], b[i])
      {
        assert AsciiLower(a)[i] == LowerChar(a[i]) && AsciiLower(b)[i] == LowerChar(b[i]);
      }
    }
    if EqualIgnoringCase(a, b) {
      forall i | 0 <= i < |a|
        ensures AsciiLower(a)[i] == AsciiLower(b)[i]
      {
        assert SameLetter(a[i], b[i]);
      }
    }
  }

  // ---------- splitting and joining ----------

  /** `str::split` on one character: always at least one part. */
  function Split(s: string, sep: char): (parts: seq<string>)
    ensures |parts| >= 1
  {
    if s == "" then [""]
    else
      var rest := Split(s[1..], sep);
      if s[0] == sep then [""] + rest else [[s[0]] + rest[0]] + rest[1..]
  }

  function Join(parts: seq<string>, sep: string): string {
    if |parts| == 0 then ""
    else if |parts| == 1 then parts[0]
    else parts[0] + sep + Join(parts[1..], sep)
  }

  lemma {:induction false} JoinSplit(s: string, sep: char)
    ensures Join(Split(s, sep), [sep]) == s
  {
    if s != "" {
      JoinSplit(s[1..], sep);
      var rest := Split(s[1..], sep);
      if s[0] == sep {
        assert ([""] + rest)[1..] == rest;
      } else {
        assert ([[s[0]] + rest[0]] + rest[1..])[1..] == rest[1..];
      }
    }
  }

  /** One more character in front. */
  function PutInFront(c: char, sep: char, rest: seq<string>): seq<string>
    requires rest != []
  {
    if c == sep then [""] + rest else [[c] + rest[0]] + rest[1..]
  }

  lemma SplitCons(c: char, s: string, sep: char, all: string)
    requires all == [c] + s
    ensures Split(all, sep) == PutInFront(c, sep, Split(s, sep))
  {
    assert all[1..] == s;
  }

  lemma PutInFrontOfBoth(c: char, sep: char, a: seq<string>, b: seq<string>)
    requires a != []
    ensures PutInFront(c, sep, a + b) == PutInFront(c, sep, a) + b
  {
    assert (a + b)[1..] == a[1..] + b;
  }

  lemma {:induction false} SplitConcat(x: string, y: string, sep: char)
    ensures Split(x + [sep] + y, sep) == Split(x, sep) + Split(y, sep)
  {
    if x == "" {
      SplitCons(sep, y, sep, x + [sep] + y);
    } else {
      var c, rest := x[0], x[1..];
      SplitConcat(rest, y, sep);
      SplitCons(c, rest + [sep] + y, sep, x + [sep] + y);
      SplitCons(c, rest, sep, x);
      PutInFrontOfBoth(c, sep, Split(rest, sep), Split(y, sep));
    }
  }

  lemma {:induction false} OnePart(p: string, sep: char)
    requires sep !in p
    ensures Split(p, sep) == [p]
  {
    if p != "" {
      assert p[0] in p;
      OnePart(p[1..], sep);
      assert p == [p[0]] + p[1..] && [p[1..]][1..] == [];
    }
  }

  lemma {:induction false} JoinConcat(a: seq<string>, b: seq<string>, sep: string)
    requires a != [] && b != []
    ensures Join(a + b, sep) == Join(a, sep) + sep + Join(b, sep)
  {
    if |a| == 1 {
      assert (a + b)[1..] == b;
    } else {
      JoinConcat(a[1..], b, sep);
      assert (a + b)[1..] == a[1..] + b;
    }
  }

  lemma JoinSnoc(a: seq<string>, w: string, sep: string)
    ensures Join(a + [w], sep) == if a == [] then w else Join(a, sep) + sep + w
  {
    if a != [] {
      JoinConcat(a, [w], sep);
    } else {
      assert a + [w] == [w];
    }
  }

  lemma JoinOfLongerList(parts: seq<string>, all: seq<string>, sep: char)
    requires parts != [] && parts <= all
    ensures var b, p := Join(parts, [sep]), Join(all, [sep]); p == b || (b < p && p[|b|] == sep)
  {
    var rest := all[|parts|..];
    assert all == parts + rest;
    if rest == [] {
      assert all == parts;
    } else {
      JoinConcat(parts, rest, [sep]);
    }
  }

  lemma SplitOfLongerText(b: string, p: string, sep: char)
    requires p == b || (b < p && p[|b|] == sep)
    ensures Split(b, sep) <= Split(p, sep)
  {
    if p != b {
      var y := p[|b| + 1..];
      assert p == b + [sep] + y;
      SplitConcat(b, y, sep);
    }
  }

  /** Splitting at `sep` turns "is this text followed by `sep`" into "is this a list prefix". */
  lemma SplitPrefix(b: string, p: string, sep: char)
    ensures Split(b, sep) <= Split(p, sep) <==> p == b || (b < p && p[|b|] == sep)
  {
    if p == b || (b < p && p[|b|] == sep) {
      SplitOfLongerText(b, p, sep);
    }
    if Split(b, sep) <= Split(p, sep) {
      JoinOfLongerList(Split(b, sep), Split(p, sep), sep);
      JoinSplit(b, sep);
      JoinSplit(p, sep);
    }
  }

  predicate EndsWith(s: string, tail: string) {
    |tail| <= |s| && s[|s| - |tail|..] == tail
  }

  predicate ListEndsWith(s: seq<string>, tail: seq<string>) {
    |tail| <= |s| && s[|s| - |tail|..] == tail
  }

  lemma SplitOfTextInFront(r: string, h: string, sep: char)
    requires EndsWith(h, [sep] + r)
    ensures ListEndsWith(Split(h, sep), Split(r, sep))
  {
    var x := h[..|h| - |r| - 1];
    assert h == x + ([sep] + r) == x + [sep] + r;
    SplitConcat(x, r, sep);
  }

  lemma JoinOfListInFront(front: seq<string>, tail: seq<string>, sep: char)
    requires tail != []
    ensures var h, r := Join(front + tail, [sep]), Join(tail, [sep]); h == r || EndsWith(h, [sep] + r)
  {
    if front == [] {
      assert front + tail == tail;
    } else {
      JoinConcat(front, tail, [sep]);
      assert Join(front + tail, [sep]) == Join(front, [sep]) + ([sep] + Join(tail, [sep]));
    }
  }

  lemma SplitSuffix(r: string, h: string, sep: char)
    ensures ListEndsWith(Split(h, sep), Split(r, sep)) <==> h == r || EndsWith(h, [sep] + r)
  {
    if EndsWith(h, [sep] + r) {
      SplitOfTextInFront(r, h, sep);
    }
    var all, tail := Split(h, sep), Split(r, sep);
    if ListEndsWith(all, tail) {
      JoinOfListInFront(all[..|all| - |tail|], tail, sep);
      assert all == all[..|all| - |tail|] + tail;
      JoinSplit(r, sep);
      JoinSplit(h, sep);
    }
  }

  // ---------- trimming ----------

  function TrimEnd(s: string, drop: char -> bool): (r: string)
    ensures r <= s
    ensures r != "" ==> !drop(r[|r| - 1])
    ensures forall i :: |r| <= i < |s| ==> drop(s[i])
  {
    if s == "" || !drop(s[|s| - 1]) then s else TrimEnd(s[..|s| - 1], drop)
  }

  function TrimStart(s: string, drop: char -> bool): (r: string)
    ensures |r| <= |s| && r == s[|s| - |r|..]
    ensures r != "" ==> !drop(r[0])
    ensures forall i :: 0 <= i < |s| - |r| ==> drop(s[i])
  {
    if s == "" || !drop(s[0]) then s else TrimStart(s[1..], drop)
  }

  function Trim(s: string, drop: char -> bool): string {
    TrimEnd(TrimStart(s, drop), drop)
  }

  /** A text with no character to drop at either end is left alone. */
  lemma TrimNothing(s: string, drop: char -> bool)
    requires s != "" ==> !drop(s[0]) && !drop(s[|s| - 1])
    ensures Trim(s, drop) == s && TrimEnd(s, drop) == s
  {
  }

  /** What is left when the last run of characters to drop is gone. */
  lemma {:induction false} TrimEndIs(s: string, n: nat, drop: char -> bool)
    requires n <= |s| && (forall i :: n <= i < |s| ==> drop(s[i])) && (n > 0 ==> !drop(s[n - 1]))
    ensures TrimEnd(s, drop) == s[..n]
    decreases |s|
  {
    if n < |s| {
      TrimEndIs(s[..|s| - 1], n, drop);
      assert s[..|s| - 1][..n] == s[..n];
    } else {
      assert s[..n] == s;
    }
  }

  lemma {:induction false} TrimStartIs(before: string, s: string, drop: char -> bool)
    requires (forall c :: c in before ==> drop(c)) && (s != "" ==> !drop(s[0]))
    ensures TrimStart(before + s, drop) == s
  {
    if before == "" {
      assert before + s == s;
    } else {
      assert (before + s)[1..] == before[1..] + s;
      TrimStartIs(before[1..], s, drop);
    }
  }

  /** Trimming takes away what is to be dropped at either end. */
  lemma TrimBoth(before: string, s: string, after: string, drop: char -> bool)
    requires s != "" && !drop(s[0]) && !drop(s[|s| - 1])
    requires forall c :: c in before + after ==> drop(c)
    ensures Trim(before + (s + after), drop) == s
  {
    TrimStartIs(before, s + after, drop);
    forall i | |s| <= i < |s + after|
      ensures drop((s + after)[i])
    {
      assert (s + after)[i] in before + after;
    }
    TrimEndIs(s + after, |s|, drop);
    assert (s + after)[..|s|] == s;
  }

  // ---------- searching ----------

  predicate OccursAt(s: string, needle: string, i: nat) {
    i + |needle| <= |s| && s[i..i + |needle|] == needle
  }

  /** The first place at or after `from` where `needle` occurs. */
  function Find(s: string, needle: string, from: nat): (r: Option<nat>)
    requires from <= |s|
    ensures r.Some? ==> from <= r.value && OccursAt(s, needle, r.value)
    decreases |s| - from
  {
    if OccursAt(s, needle, from) then Some(from)
    else if from == |s| then None
    else Find(s, needle, from + 1)
  }

  lemma {:induction false} FindsFirst(s: string, needle: string, from: nat)
    requires from <= |s|
    ensures var r := Find(s, needle, from);
      forall i :: from <= i && (r.Some? ==> i < r.value) ==> !OccursAt(s, needle, i)
    decreases |s| - from
  {
    if !OccursAt(s, needle, from) && from < |s| {
      FindsFirst(s, needle, from + 1);
    }
  }

  /** A needle whose first character does not come again in it is found right where it was put
      behind a text that does not contain it. */
  lemma FindBehind(pre: string, x: string, needle: string, rest: string)
    requires needle != "" && forall k :: 0 < k < |needle| ==> needle[k] != needle[0]
    requires forall i: nat :: !OccursAt(x, needle, i)
    ensures Find(pre + x + needle + rest, needle, |pre|) == Some(|pre| + |x|)
  {
    var s, at := pre + x + needle + rest, |pre| + |x|;
    FindsFirst(s, needle, |pre|);
    assert s[at..at + |needle|] == needle;
    assert OccursAt(s, needle, at);
    forall i: nat | |pre| <= i < at
      ensures !OccursAt(s, needle, i)
    {
      if i + |needle| <= at {
        assert s[i..i + |needle|] == x[i - |pre|..i - |pre| + |needle|];
        assert !OccursAt(x, needle, i - |pre|);
      } else if i + |needle| <= |s| {
        assert s[i..i + |needle|][at - i] == s[at] == needle[0];
      }
    }
  }

  // ---------- truncating ----------

  /** Texts that are too long keep all but their last place for an ellipsis. */
  function TruncateChars(value: string, max: nat): (r: string)
    requires max >= 1
    ensures |r| == (if |value| <= max then |value| else max)
    ensures |value| <= max ==> r == value
    ensures |value| > max ==> r[..max - 1] == value[..max - 1] && r[max - 1] == '\U{2026}'
  {
    if |value| <= max then value else value[..max - 1] + [ELLIPSIS]
  }
}
