/** Removal of script, style and similar blocks from HTML text, and of its markup. */
module HtmlBlocks {
  import opened Wrappers
  import opened Texts
  import opened Lists

  const TAGS: seq<string> := ["script", "style", "noscript", "template", "svg"]

  function Opening(tag: string): string { "<" + tag }

  function Closing(tag: string): string { "</" + tag + ">" }

  /** The opening occurs somewhere, in any ASCII case. */
  ghost predicate HasOpening(s: string, tag: string) {
    exists i: nat :: OccursAt(AsciiLower(s), Opening(tag), i)
  }

  /** Where the block that opens at `start` ends: after its first closing tag, or with the text. */
  function BlockEnd(s: string, tag: string, start: nat): (end: nat)
    requires start + 2 <= |s|
    ensures start + 2 <= end <= |s|
  {
    var close := Find(AsciiLower(s), Closing(tag), start);
    if close.Some? then close.value + |Closing(tag)| else |s|
  }

  function Cut(s: string, start: nat, end: nat): (r: string)
    requires start <= end <= |s|
    ensures |r| == |s| - (end - start) + 1
  {
    s[..start] + " " + s[end..]
  }

  /** Replaces every block of one kind by a blank, first block first. */
  function RemoveTag(s: string, tag: string): string
    requires tag != ""
    decreases |s|
  {
    var start := Find(AsciiLower(s), Opening(tag), 0);
    if start.None? then s
    else RemoveTag(Cut(s, start.value, BlockEnd(s, tag, start.value)), tag)
  }

  function RemoveTags(s: string, tags: seq<string>): string
    requires "" !in tags
    decreases tags
  {
    if tags == [] then s else RemoveTags(RemoveTag(s, tags[0]), tags[1..])
  }

  /** The code's loop: each pass edits the text in place until the tag's opening is gone. */
  method RemoveIgnoredHtmlBlocks(input: string) returns (output: string)
    ensures output == RemoveTags(input, TAGS)
  {
    output := input;
    for t := 0 to |TAGS|
      invariant RemoveTags(output, TAGS[t..]) == RemoveTags(input, TAGS)
    {
      var tag := TAGS[t];
      ghost var whole := RemoveTag(output, tag);
      while true
        invariant RemoveTag(output, tag) == whole
        decreases |output|
      {
        var lowered := AsciiLower(output);
        var start := Find(lowered, Opening(tag), 0);
        if start.None? {
          break;
        }
        var close := Find(lowered, Closing(tag), start.value);
        var end := if close.Some? then close.value + |Closing(tag)| else |output|;
        output := output[..start.value] + " " + output[end..];
      }
      assert TAGS[t..][1..] == TAGS[t + 1..];
    }
  }

  // ---------- nothing is left, nothing comes back ----------

  lemma CoversNoBlank(c: string, start: nat, needle: string, i: nat)
    requires start < |c| && c[start] == ' ' && ' ' !in needle
    ensures OccursAt(c, needle, i) ==> i + |needle| <= start || start < i
  {
    if i <= start < i + |needle| <= |c| {
      assert c[i..i + |needle|][start - i] == ' ';
    }
  }

  /** An occurrence in a cut text that does not cover the blank was in the text before. */
  lemma OccurrenceBeforeCut(l: string, c: string, start: nat, end: nat, needle: string, i: nat) returns (j: nat)
    requires start <= end <= |l| && c == l[..start] + " " + l[end..]
    requires ' ' !in needle && OccursAt(c, needle, i) && needle != ""
    ensures OccursAt(l, needle, j)
  {
    CoversNoBlank(c, start, needle, i);
    j := if i < start then i else i - start - 1 + end;
    assert l[j..j + |needle|] == c[i..i + |needle|];
  }

  /** A cut leaves a blank, so it joins no opening that was not there before. */
  lemma CutMakesNoOpening(s: string, start: nat, end: nat, tag: string)
    requires start <= end <= |s| && ' ' !in tag
    ensures HasOpening(Cut(s, start, end), tag) ==> HasOpening(s, tag)
  {
    var l, c := AsciiLower(s), AsciiLower(Cut(s, start, end));
    if HasOpening(Cut(s, start, end), tag) {
      var i: nat :| OccursAt(c, Opening(tag), i);
      assert c == l[..start] + " " + l[end..];
      var j := OccurrenceBeforeCut(l, c, start, end, Opening(tag), i);
    }
  }

  lemma {:induction false} RemoveTagMakesNoOpening(s: string, tag: string, other: string)
    requires tag != "" && ' ' !in other
    ensures HasOpening(RemoveTag(s, tag), other) ==> HasOpening(s, other)
    decreases |s|
  {
    var start := Find(AsciiLower(s), Opening(tag), 0);
    if start.Some? {
      var end := BlockEnd(s, tag, start.value);
      CutMakesNoOpening(s, start.value, end, other);
      RemoveTagMakesNoOpening(Cut(s, start.value, end), tag, other);
    }
  }

  lemma {:induction false} RemoveTagRemoves(s: string, tag: string)
    requires tag != ""
    ensures !HasOpening(RemoveTag(s, tag), tag)
    decreases |s|
  {
    var start := Find(AsciiLower(s), Opening(tag), 0);
    FindsFirst(AsciiLower(s), Opening(tag), 0);
    if start.Some? {
      RemoveTagRemoves(Cut(s, start.value, BlockEnd(s, tag, start.value)), tag);
    }
  }

  lemma {:induction false} LaterTagsMakeNoOpening(s: string, tags: seq<string>, other: string)
    requires "" !in tags && ' ' !in other
    ensures HasOpening(RemoveTags(s, tags), other) ==> HasOpening(s, other)
    decreases tags
  {
    if tags != [] {
      RemoveTagMakesNoOpening(s, tags[0], other);
      LaterTagsMakeNoOpening(RemoveTag(s, tags[0]), tags[1..], other);
    }
  }

  /** After all passes no opening of any of the tags is left, in any ASCII case. */
  lemma {:induction false} NoOpeningIsLeft(s: string, tags: seq<string>)
    requires "" !in tags && forall t :: t in tags ==> ' ' !in t
    ensures forall t :: t in tags ==> !HasOpening(RemoveTags(s, tags), t)
    decreases tags
  {
    if tags != [] {
      RemoveTagRemoves(s, tags[0]);
      LaterTagsMakeNoOpening(RemoveTag(s, tags[0]), tags[1..], tags[0]);
      NoOpeningIsLeft(RemoveTag(s, tags[0]), tags[1..]);
    }
  }

  lemma OpeningIsGone(rest: string, tag: string, opening: string, i: nat)
    requires !HasOpening(rest, tag) && opening == Opening(tag)
    ensures !OccursAt(AsciiLower(rest), opening, i)
  {
  }

  lemma NoneOfTheFive(rest: string, i: nat)
    requires forall t :: t in TAGS ==> !HasOpening(rest, t)
    ensures var lower := AsciiLower(rest);
      && !OccursAt(lower, "<script", i) && !OccursAt(lower, "<style", i) && !OccursAt(lower, "<noscript", i)
      && !OccursAt(lower, "<template", i) && !OccursAt(lower, "<svg", i)
  {
    assert TAGS[0] == "script" && TAGS[1] == "style" && TAGS[2] == "noscript";
    assert TAGS[3] == "template" && TAGS[4] == "svg";
    OpeningIsGone(rest, "script", "<script", i);
    OpeningIsGone(rest, "style", "<style", i);
    OpeningIsGone(rest, "noscript", "<noscript", i);
    OpeningIsGone(rest, "template", "<template", i);
    OpeningIsGone(rest, "svg", "<svg", i);
  }

  lemma IgnoredBlocksAreGone(s: string, i: nat)
    ensures var lower := AsciiLower(RemoveTags(s, TAGS));
      && !OccursAt(lower, "<script", i) && !OccursAt(lower, "<style", i) && !OccursAt(lower, "<noscript", i)
      && !OccursAt(lower, "<template", i) && !OccursAt(lower, "<svg", i)
  {
    NoOpeningIsLeft(s, TAGS);
    NoneOfTheFive(RemoveTags(s, TAGS), i);
  }

  // ---------- what is kept ----------

  const BLANK: int := -1

  /** Each character of `t` is a blank put in, or comes from the place `src` says in `s`;
      the places rise. */
  ghost predicate KeptInOrder(s: string, t: string, src: seq<int>) {
    && |src| == |t|
    && (forall i :: 0 <= i < |t| ==>
          if src[i] == BLANK then t[i] == ' ' else 0 <= src[i] < |s| && t[i] == s[src[i]])
    && (forall i, k :: 0 <= i < k < |t| && src[i] != BLANK && src[k] != BLANK ==> src[i] < src[k])
  }

  function Through(first: seq<int>, second: seq<int>): (src: seq<int>)
    requires forall i :: 0 <= i < |second| ==> second[i] == BLANK || 0 <= second[i] < |first|
    ensures |src| == |second|
    ensures forall i :: 0 <= i < |src| ==>
      src[i] == if second[i] == BLANK then BLANK else first[second[i]]
  {
    seq(|second|, i requires 0 <= i < |second| => if second[i] == BLANK then BLANK else first[second[i]])
  }

  lemma KeptThrough(s: string, t: string, r: string, first: seq<int>, second: seq<int>)
    requires KeptInOrder(s, t, first) && KeptInOrder(t, r, second)
    ensures KeptInOrder(s, r, Through(first, second))
  {
  }

  /** The places of a text before a cut of it. */
  function CutSource(n: nat, start: nat, end: nat): (src: seq<int>)
    requires start <= end <= n
    ensures |src| == n - (end - start) + 1
  {
    seq(n - (end - start) + 1, i requires 0 <= i =>
      if i < start then i else if i == start then BLANK else i - start - 1 + end)
  }

  lemma CutKeepsOrder(s: string, start: nat, end: nat)
    requires start <= end <= |s|
    ensures KeptInOrder(s, Cut(s, start, end), CutSource(|s|, start, end))
  {
  }

  /** Whatever survives the removal of a tag's blocks keeps its order. */
  lemma {:induction false} RemoveTagKeepsOrder(s: string, tag: string) returns (src: seq<int>)
    requires tag != ""
    ensures KeptInOrder(s, RemoveTag(s, tag), src)
    decreases |s|
  {
    var start := Find(AsciiLower(s), Opening(tag), 0);
    if start.None? {
      src := seq(|s|, i => i);
    } else {
      var end := BlockEnd(s, tag, start.value);
      var rest := RemoveTagKeepsOrder(Cut(s, start.value, end), tag);
      var first := CutSource(|s|, start.value, end);
      CutKeepsOrder(s, start.value, end);
      KeptThrough(s, Cut(s, start.value, end), RemoveTag(s, tag), first, rest);
      src := Through(first, rest);
    }
  }

  lemma {:induction false} RemoveTagsKeepsOrder(s: string, tags: seq<string>) returns (src: seq<int>)
    requires "" !in tags
    ensures KeptInOrder(s, RemoveTags(s, tags), src)
    decreases tags
  {
    if tags == [] {
      src := seq(|s|, i => i);
    } else {
      var first := RemoveTagKeepsOrder(s, tags[0]);
      var rest := RemoveTagsKeepsOrder(RemoveTag(s, tags[0]), tags[1..]);
      KeptThrough(s, RemoveTag(s, tags[0]), RemoveTags(s, tags), first, rest);
      src := Through(first, rest);
    }
  }

  lemma FoundHasOpening(s: string, tag: string)
    ensures Find(AsciiLower(s), Opening(tag), 0).Some? ==> HasOpening(s, tag)
  {
    var start := Find(AsciiLower(s), Opening(tag), 0);
    if start.Some? {
      assert OccursAt(AsciiLower(s), Opening(tag), start.value);
    }
  }

  /** A text without openings is left alone. */
  lemma {:induction false} CleanTextUntouched(s: string, tags: seq<string>)
    requires "" !in tags && forall t :: t in tags ==> !HasOpening(s, t)
    ensures RemoveTags(s, tags) == s
    decreases tags
  {
    if tags != [] {
      FoundHasOpening(s, tags[0]);
      CleanTextUntouched(s, tags[1..]);
    }
  }

  // ---------- one block ----------

  lemma LowerConcat(a: string, b: string)
    ensures AsciiLower(a + b) == AsciiLower(a) + AsciiLower(b)
  {
  }

  lemma LowerOfBlock(a: string, block: string, close: string, c: string)
    ensures AsciiLower(a + block + close + c) == AsciiLower(a) + AsciiLower(block) + AsciiLower(close) + AsciiLower(c)
  {
    LowerConcat(a, block);
    LowerConcat(a + block, close);
    LowerConcat(a + block + close, c);
  }

  lemma BlockEndIs(s: string, lower: string, tag: string, start: nat, close: Option<nat>)
    requires lower == AsciiLower(s) && start + 2 <= |s| && close == Find(lower, Closing(tag), start)
    ensures BlockEnd(s, tag, start) == if close.Some? then close.value + |Closing(tag)| else |s|
  {
  }

  /** One turn of the removal, with what it finds given. */
  lemma BlockRemoved(s: string, lower: string, tag: string, start: nat, end: nat, next: string, rest: string)
    requires tag != "" && lower == AsciiLower(s) && Find(lower, Opening(tag), 0) == Some(start)
    requires start + 2 <= |s| && end == BlockEnd(s, tag, start) && next == Cut(s, start, end)
    requires rest == RemoveTag(next, tag)
    ensures RemoveTag(s, tag) == rest
  {
  }

  /** No character behind the first repeats the first. */
  ghost predicate Distinctive(needle: string) {
    needle != "" && forall k :: 0 < k < |needle| ==> needle[k] != needle[0]
  }

  lemma TagsAreDistinctive(tag: string)
    requires '<' !in tag
    ensures Distinctive(Opening(tag)) && Distinctive(Closing(tag))
  {
    var closing := Closing(tag);
    forall k | 0 < k < |closing|
      ensures closing[k] != closing[0]
    {
      assert 2 <= k < |closing| - 1 ==> closing[k] == tag[k - 2];
    }
  }

  /** Where the first block stands in the lower-cased text. */
  lemma OpeningStandsAt(lower: string, la: string, opening: string, tail: string, start: nat)
    requires Distinctive(opening) && lower == la + (opening + tail) && start == |la|
    requires forall i: nat :: !OccursAt(la, opening, i)
    ensures Find(lower, opening, 0) == Some(start)
  {
    assert lower == "" + la + opening + tail;
    FindBehind("", la, opening, tail);
  }

  lemma ClosingStandsAt(lower: string, la: string, block: string, closing: string, lc: string, start: nat, at: nat)
    requires Distinctive(closing) && lower == la + block + closing + lc
    requires start == |la| && at == |la| + |block|
    requires forall i: nat :: !OccursAt(block, closing, i)
    ensures Find(lower, closing, start) == Some(at)
  {
    FindBehind(la, block, closing, lc);
  }

  lemma CutMiddle(a: string, x: string, y: string, c: string)
    ensures Cut(a + x + y + c, |a|, |a| + |x| + |y|) == a + " " + c
  {
  }

  lemma BlockInTheMiddle(la: string, opening: string, lbody: string, closing: string, lc: string, tail: string)
    requires tail == lbody + closing + lc
    ensures la + (opening + lbody) + closing + lc == la + (opening + tail)
  {
    ConcatIsAssociative(la, opening + lbody, closing);
    ConcatIsAssociative(la, (opening + lbody) + closing, lc);
    ConcatIsAssociative(opening, lbody, closing);
    ConcatIsAssociative(opening, lbody + closing, lc);
  }

  /** The first block, written in any case, becomes one blank: `a` holds no opening, and no
      closing tag comes before `close`. */
  lemma FirstBlockIsCut(a: string, open: string, body: string, close: string, c: string, tag: string)
    requires tag != "" && '<' !in tag
    requires AsciiLower(open) == Opening(tag) && AsciiLower(close) == Closing(tag)
    requires forall i: nat :: !OccursAt(AsciiLower(a), Opening(tag), i)
    requires forall i: nat :: !OccursAt(AsciiLower(open + body), Closing(tag), i)
    ensures RemoveTag(a + (open + body) + close + c, tag) == RemoveTag(a + " " + c, tag)
  {
    var block := open + body;
    var s, next := a + block + close + c, a + " " + c;
    var lower, start, at := AsciiLower(s), |a|, |a| + |block|;
    var la, lblock, lbody, lc := AsciiLower(a), AsciiLower(block), AsciiLower(body), AsciiLower(c);
    var tail := lbody + Closing(tag) + lc;
    LowerConcat(open, body);
    LowerOfBlock(a, block, close, c);
    TagsAreDistinctive(tag);
    BlockInTheMiddle(la, Opening(tag), lbody, Closing(tag), lc, tail);
    OpeningStandsAt(lower, la, Opening(tag), tail, start);
    ClosingStandsAt(lower, la, lblock, Closing(tag), lc, start, at);
    BlockEndIs(s, lower, tag, start, Some(at));
    CutMiddle(a, block, close, c);
    BlockRemoved(s, lower, tag, start, at + |Closing(tag)|, next, RemoveTag(next, tag));
  }

  lemma OccursInTail(lower: string, pre: string, x: string, needle: string, i: nat)
    requires lower == pre + x && |pre| <= i
    ensures OccursAt(lower, needle, i) ==> OccursAt(x, needle, i - |pre|)
  {
    var end := i + |needle|;
    assert end <= |lower| ==> lower[i..end] == x[i - |pre|..end - |pre|];
  }

  lemma NotFoundBehind(lower: string, pre: string, x: string, needle: string, start: nat)
    requires lower == pre + x && start == |pre| && forall i: nat :: !OccursAt(x, needle, i)
    ensures Find(lower, needle, start) == None
  {
    forall i: nat | start <= i
      ensures !OccursAt(lower, needle, i)
    {
      OccursInTail(lower, pre, x, needle, i);
    }
  }

  lemma NothingToRemove(s: string, tag: string)
    requires tag != "" && !HasOpening(s, tag)
    ensures RemoveTag(s, tag) == s
  {
    FoundHasOpening(s, tag);
  }

  lemma BlankAddsNoOpening(a: string, tag: string)
    requires ' ' !in tag && forall i: nat :: !OccursAt(AsciiLower(a), Opening(tag), i)
    ensures !HasOpening(a + " ", tag)
  {
    CutMakesNoOpening(a, |a|, |a|, tag);
    assert Cut(a, |a|, |a|) == a + " ";
  }

  /** A block that is never closed takes the rest of the text with it. */
  lemma UnclosedBlockIsCutToTheEnd(a: string, open: string, body: string, tag: string)
    requires tag != "" && '<' !in tag && ' ' !in tag && AsciiLower(open) == Opening(tag)
    requires forall i: nat :: !OccursAt(AsciiLower(a), Opening(tag), i)
    requires forall i: nat :: !OccursAt(AsciiLower(open + body), Closing(tag), i)
    ensures RemoveTag(a + (open + body), tag) == a + " "
  {
    var block := open + body;
    var s := a + block;
    var la, lb, lower := AsciiLower(a), AsciiLower(block), AsciiLower(s);
    LowerConcat(open, body);
    LowerConcat(a, block);
    TagsAreDistinctive(tag);
    var start := |a|;
    OpeningStandsAt(lower, la, Opening(tag), AsciiLower(body), start);
    NotFoundBehind(lower, la, lb, Closing(tag), start);
    BlockEndIs(s, lower, tag, start, None);
    assert Cut(s, start, |s|) == a + " ";
    BlankAddsNoOpening(a, tag);
    NothingToRemove(a + " ", tag);
    BlockRemoved(s, lower, tag, start, |s|, a + " ", a + " ");
  }

  // ---------- markup ----------

  /** Whether the text so far ends inside a tag: its last angle bracket opens one. */
  predicate InsideTag(s: string) {
    if s == "" then false
    else if s[|s| - 1] == '<' then true
    else if s[|s| - 1] == '>' then false
    else InsideTag(s[..|s| - 1])
  }

  /** Brackets become blanks, text inside tags goes, the rest stays. */
  function Visible(s: string): (r: string)
    ensures '<' !in r && '>' !in r
  {
    if s == "" then ""
    else
      var p, c := s[..|s| - 1], s[|s| - 1];
      if c == '<' || c == '>' then Visible(p) + " "
      else if InsideTag(p) then Visible(p)
      else Visible(p) + [c]
  }

  method StripMarkup(input: string) returns (output: string)
    ensures output == Visible(input)
  {
    output := "";
    var insideTag := false;
    for i := 0 to |input|
      invariant output == Visible(input[..i]) && insideTag == InsideTag(input[..i])
    {
      assert input[..i + 1][..i] == input[..i];
      match input[i] {
        case '<' =>
          insideTag := true;
          output := output + " ";
        case '>' =>
          insideTag := false;
          output := output + " ";
        case c =>
          if !insideTag {
            output := output + [c];
          }
      }
    }
    assert input[..|input|] == input;
  }

  /** A closing bracket is a blank, and the text behind it is read afresh. */
  lemma {:induction false} VisibleBehindBracket(a: string, c: string)
    ensures Visible(a + ">" + c) == Visible(a) + " " + Visible(c)
    ensures InsideTag(a + ">" + c) == InsideTag(c)
  {
    var s := a + ">" + c;
    if c == "" {
      assert s == a + ">" && s[..|s| - 1] == a;
      assert Visible(a) + " " + Visible(c) == Visible(a) + " ";
    } else {
      var p := c[..|c| - 1];
      VisibleBehindBracket(a, p);
      assert s[..|s| - 1] == a + ">" + p && s[|s| - 1] == c[|c| - 1];
    }
  }

  /** An opening bracket is a blank, and nothing behind it is kept up to the next bracket. */
  lemma {:induction false} TagTextGoes(a: string, b: string)
    requires '<' !in b && '>' !in b
    ensures Visible(a + "<" + b) == Visible(a) + " " && InsideTag(a + "<" + b)
  {
    var s := a + "<" + b;
    if b == "" {
      assert s == a + "<" && s[..|s| - 1] == a;
    } else {
      var p := b[..|b| - 1];
      TagTextGoes(a, p);
      assert s[..|s| - 1] == a + "<" + p && s[|s| - 1] == b[|b| - 1] && b[|b| - 1] in b;
    }
  }

  /** Hence a tag, whatever it holds, becomes two blanks. */
  lemma TagsBecomeBlanks(a: string, b: string, c: string)
    requires '<' !in b && '>' !in b
    ensures Visible(a + "<" + b + ">" + c) == Visible(a) + "  " + Visible(c)
  {
    TagTextGoes(a, b);
    VisibleBehindBracket(a + "<" + b, c);
    assert (Visible(a) + " ") + " " + Visible(c) == Visible(a) + "  " + Visible(c);
  }

  /** Text without angle brackets is all visible. */
  lemma {:induction false} PlainTextIsVisible(s: string)
    requires '<' !in s && '>' !in s
    ensures Visible(s) == s && !InsideTag(s)
  {
    if s != "" {
      PlainTextIsVisible(s[..|s| - 1]);
      assert s == s[..|s| - 1] + [s[|s| - 1]];
    }
  }
}
