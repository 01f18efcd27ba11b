/** The texts of the elements of one tag, as the title and the headings are read. */
module TagTexts {
  import opened Wrappers
  import opened Texts
  import opened Lists
  import opened Whitespace
  import opened HtmlBlocks

  /** What stands between the opening tag that begins at `open` and its closing tag, and where
      the scan goes on behind that. */
  datatype Content = Content(open: nat, start: nat, end: nat, next: nat)

  predicate TagBoundary(c: char) {
    c == '>' || c == ' ' || c == '\t' || c == '\r' || c == '\n'
  }

  /** An opening of exactly this tag: `<h1` in `<h1>`, but not in `<h10>`. */
  predicate OpensAt(lower: string, tag: string, i: nat) {
    var after := i + |Opening(tag)|;
    OccursAt(lower, Opening(tag), i) && after < |lower| && TagBoundary(lower[after])
  }

  function FirstOpen(lower: string, tag: string, from: nat): (r: Option<nat>)
    requires from <= |lower|
    ensures r.Some? ==> from <= r.value < |lower| && OpensAt(lower, tag, r.value)
    decreases |lower| - from
  {
    if OpensAt(lower, tag, from) then Some(from)
    else if from == |lower| then None
    else FirstOpen(lower, tag, from + 1)
  }

  /** The element that opens at `open`, if it is complete. */
  function ContentAt(lower: string, tag: string, open: nat): (c: Option<Content>)
    requires open <= |lower|
    ensures c.Some? ==> open < c.value.start <= c.value.end < c.value.next <= |lower|
  {
    var bracket := Find(lower, ">", open);
    if bracket.None? then None
    else
      var close := Find(lower, Closing(tag), bracket.value + 1);
      if close.None? then None else Some(Content(open, bracket.value + 1, close.value, close.value + |Closing(tag)|))
  }

  function NextElement(lower: string, tag: string, cursor: nat): (c: Option<Content>)
    requires cursor <= |lower|
    ensures c.Some? ==> c.value.start <= c.value.end && cursor < c.value.next <= |lower|
  {
    var open := FirstOpen(lower, tag, cursor);
    if open.None? then None else ContentAt(lower, tag, open.value)
  }

  /** The contents of the elements from `cursor` on, up to the first incomplete one. */
  function Contents(lower: string, tag: string, cursor: nat): seq<Content>
    requires cursor <= |lower|
    decreases |lower| - cursor
  {
    var c := NextElement(lower, tag, cursor);
    if c.None? then [] else [c.value] + Contents(lower, tag, c.value.next)
  }

  function TextOf(u: Unicode, decode: string -> string, html: string, c: Content): (text: string)
    ensures |text| <= MAX_INPUT_CHARS
  {
    if c.start <= c.end <= |html| then
      TruncateChars(Normal(u, decode(Visible(html[c.start..c.end]))), MAX_INPUT_CHARS)
    else ""
  }

  /** The texts of contents that have any. */
  function TextsOf(u: Unicode, decode: string -> string, html: string, cs: seq<Content>): (texts: seq<string>)
    ensures forall t :: t in texts ==> 0 < |t| <= MAX_INPUT_CHARS
  {
    if cs == [] then []
    else
      var text := TextOf(u, decode, html, cs[0]);
      (if text == "" then [] else [text]) + TextsOf(u, decode, html, cs[1..])
  }

  function TagTextsOf(u: Unicode, decode: string -> string, html: string, tag: string): seq<string> {
    TextsOf(u, decode, html, Contents(AsciiLower(html), tag, 0))
  }

  // ---------- the scan ----------

  lemma InsideOpening(lower: string, tag: string, at: nat, i: nat)
    requires OccursAt(lower, Opening(tag), at) && at <= i < at + |Opening(tag)|
    ensures lower[i] == Opening(tag)[i - at]
    ensures at < i && '<' !in tag ==> !OpensAt(lower, tag, i)
  {
    assert lower[i] == lower[at..at + |Opening(tag)|][i - at];
    assert OccursAt(lower, Opening(tag), i) ==> lower[i..i + |Opening(tag)|][0] == '<';
  }

  lemma {:induction false} FirstOpenSkips(lower: string, tag: string, from: nat, to: nat)
    requires from <= to <= |lower| && forall i :: from <= i < to ==> !OpensAt(lower, tag, i)
    ensures FirstOpen(lower, tag, from) == FirstOpen(lower, tag, to)
    decreases |lower| - from
  {
    if from < to {
      FirstOpenSkips(lower, tag, from + 1, to);
    }
  }

  /** Two openings cannot overlap, so the scan may jump behind one that is none of this tag. */
  lemma JumpMissesNothing(lower: string, tag: string, cursor: nat, found: Option<nat>)
    requires '<' !in tag && cursor <= |lower| && found == Find(lower, Opening(tag), cursor)
    ensures FirstOpen(lower, tag, cursor) ==
      if found.None? || OpensAt(lower, tag, found.value) then found
      else FirstOpen(lower, tag, found.value + |Opening(tag)|)
  {
    FindsFirst(lower, Opening(tag), cursor);
    var at := if found.Some? then found.value else |lower|;
    forall i | cursor <= i < at
      ensures !OpensAt(lower, tag, i)
    {
      assert !OccursAt(lower, Opening(tag), i);
    }
    FirstOpenSkips(lower, tag, cursor, at);
    if found.Some? && !OpensAt(lower, tag, at) {
      forall i | at < i < at + |Opening(tag)|
        ensures !OpensAt(lower, tag, i)
      {
        InsideOpening(lower, tag, at, i);
      }
      FirstOpenSkips(lower, tag, at, at + |Opening(tag)|);
    }
  }

  /** The inner part of the loop: past openings of other tags with this prefix. */
  method FindOpen(lower: string, tag: string, from: nat) returns (open: Option<nat>)
    requires '<' !in tag && from <= |lower|
    ensures open == FirstOpen(lower, tag, from)
  {
    var cursor := from;
    while true
      invariant cursor <= |lower| && FirstOpen(lower, tag, cursor) == FirstOpen(lower, tag, from)
      decreases |lower| - cursor
    {
      var at := Find(lower, Opening(tag), cursor);
      JumpMissesNothing(lower, tag, cursor, at);
      if at.None? {
        return None;
      }
      var after := at.value + |Opening(tag)|;
      if after < |lower| && TagBoundary(lower[after]) {
        return at;
      }
      cursor := after;
    }
  }

  /** The next element as the code searches for it. */
  method FindElement(lower: string, tag: string, cursor: nat) returns (content: Option<Content>)
    requires '<' !in tag && cursor <= |lower|
    ensures content == NextElement(lower, tag, cursor)
  {
    var open := FindOpen(lower, tag, cursor);
    if open.None? {
      return None;
    }
    content := ContentAt(lower, tag, open.value);
  }

  method ReadText(u: Unicode, decode: string -> string, html: string, c: Content) returns (text: string)
    requires c.start <= c.end <= |html|
    ensures text == TextOf(u, decode, html, c)
  {
    var markup := StripMarkup(html[c.start..c.end]);
    var collapsed := CollapseAndTrim(u, decode(markup));
    text := if collapsed == "" then "" else TruncateChars(collapsed, MAX_INPUT_CHARS);
  }

  lemma ContentsCons(lower: string, tag: string, cursor: nat, content: Option<Content>, cs: seq<Content>)
    returns (more: seq<Content>)
    requires cursor <= |lower| && content == NextElement(lower, tag, cursor) && cs == Contents(lower, tag, cursor)
    ensures content.None? ==> cs == []
    ensures content.Some? ==>
      more == Contents(lower, tag, content.value.next) && cs == [content.value] + more
  {
    more := if content.None? then [] else Contents(lower, tag, content.value.next);
  }

  lemma TextsCons(u: Unicode, decode: string -> string, html: string,
                  before: seq<Content>, c: Content, cs: seq<Content>,
                  rest: seq<string>, tail: seq<string>)
    requires before == [c] + cs && rest == TextsOf(u, decode, html, before) && tail == TextsOf(u, decode, html, cs)
    ensures var text := TextOf(u, decode, html, c); rest == if text == "" then tail else [text] + tail
  {
    assert before[1..] == cs;
  }

  lemma PutBefore<T>(front: seq<T>, x: T, rest: seq<T>, tail: seq<T>)
    requires rest == [x] + tail
    ensures (front + [x]) + tail == front + rest
  {
  }

  method ScanTexts(u: Unicode, decode: string -> string, html: string, lower: string, tag: string, limit: nat)
    returns (result: seq<string>)
    requires '<' !in tag && |lower| == |html|
    ensures result == Take(TextsOf(u, decode, html, Contents(lower, tag, 0)), limit)
  {
    var cursor := 0;
    result := [];
    ghost var contents := Contents(lower, tag, 0);
    ghost var all := TextsOf(u, decode, html, contents);
    ghost var rest := all;
    while |result| < limit
      invariant cursor <= |lower| && |result| <= limit
      invariant contents == Contents(lower, tag, cursor) && rest == TextsOf(u, decode, html, contents)
      invariant result + rest == all
      decreases |lower| - cursor
    {
      var content := FindElement(lower, tag, cursor);
      ghost var more := ContentsCons(lower, tag, cursor, content, contents);
      if content.None? {
        break;
      }
      var text := ReadText(u, decode, html, content.value);
      cursor := content.value.next;
      ghost var tail := TextsOf(u, decode, html, more);
      TextsCons(u, decode, html, contents, content.value, more, rest, tail);
      contents := more;
      if text != "" {
        PutBefore(result, text, rest, tail);
        result := result + [text];
      }
      rest := tail;
    }
    assert result <= all;
  }

  /** The texts of the first `limit` elements that have any. */
  method ExtractTagTexts(u: Unicode, decode: string -> string, html: string, tag: string, limit: nat)
    returns (result: seq<string>)
    requires '<' !in tag
    ensures result == Take(TagTextsOf(u, decode, html, tag), limit)
    ensures |result| <= limit && forall t :: t in result ==> 0 < |t| <= MAX_INPUT_CHARS
  {
    result := ScanTexts(u, decode, html, AsciiLower(html), tag, limit);
  }

  // ---------- what the contents are ----------

  /** `<` and the name of the tag, with `>` or a blank behind it. */
  predicate Opens(lower: string, tag: string, i: nat) {
    && OccursAt(lower, "<" + tag, i) && i + 1 + |tag| < |lower|
    && var behind := lower[i + 1 + |tag|];
       behind == '>' || behind == ' ' || behind == '\t' || behind == '\r' || behind == '\n'
  }

  /** From an opening of the tag through the next `>` to the first closing tag behind that. */
  ghost predicate Element(lower: string, tag: string, c: Content) {
    && c.open + 1 + |tag| < c.start <= c.end
    && Opens(lower, tag, c.open)
    && c.start <= |lower| && lower[c.start - 1] == '>'
    && (forall k :: c.open <= k < c.start - 1 && k < |lower| ==> lower[k] != '>')
    && OccursAt(lower, "</" + tag + ">", c.end) && c.next == c.end + 3 + |tag|
    && (forall k :: c.start <= k < c.end ==> !OccursAt(lower, "</" + tag + ">", k))
  }

  lemma BracketAfterOpening(lower: string, tag: string, open: nat, bracket: nat)
    requires '>' !in tag && open <= |lower| && OpensAt(lower, tag, open)
    requires Find(lower, ">", open) == Some(bracket)
    ensures open + |Opening(tag)| <= bracket < |lower| && lower[bracket] == '>'
    ensures forall k :: open <= k < bracket ==> lower[k] != '>'
  {
    FindsFirst(lower, ">", open);
    assert lower[bracket] == lower[bracket..bracket + 1][0] == '>';
    if bracket < open + |Opening(tag)| {
      InsideOpening(lower, tag, open, bracket);
    }
    forall k | open <= k < bracket
      ensures lower[k] != '>'
    {
      assert !OccursAt(lower, ">", k);
      assert lower[k..k + 1] == [lower[k]];
    }
  }

  lemma ClosingIsFirst(lower: string, closing: string, start: nat, end: nat)
    requires start <= |lower| && Find(lower, closing, start) == Some(end)
    ensures start <= end && OccursAt(lower, closing, end)
    ensures forall k :: start <= k < end ==> !OccursAt(lower, closing, k)
  {
    FindsFirst(lower, closing, start);
  }

  lemma ContentIsElement(lower: string, tag: string, open: nat, c: Content)
    requires '>' !in tag && open <= |lower| && OpensAt(lower, tag, open)
    requires ContentAt(lower, tag, open) == Some(c)
    ensures Element(lower, tag, c)
  {
    BracketAfterOpening(lower, tag, open, c.start - 1);
    ClosingIsFirst(lower, Closing(tag), c.start, c.end);
  }

  /** Elements from `cursor` on, none of which begins before the one in front of it is closed. */
  ghost predicate InOrder(lower: string, tag: string, cursor: nat, cs: seq<Content>) {
    && (forall k :: 0 <= k < |cs| ==> cursor <= cs[k].open && Element(lower, tag, cs[k]))
    && (forall k, l :: 0 <= k < l < |cs| ==> cs[k].next <= cs[l].open)
  }

  lemma InOrderCons(lower: string, tag: string, cursor: nat, c: Content, rest: seq<Content>, cs: seq<Content>)
    requires cs == [c] + rest && cursor <= c.open <= c.next && Element(lower, tag, c)
    requires InOrder(lower, tag, c.next, rest)
    ensures InOrder(lower, tag, cursor, cs)
  {
  }

  /** The contents found belong to complete elements, in document order, one behind the other. */
  lemma {:induction false} ContentsInOrder(lower: string, tag: string, cursor: nat, cs: seq<Content>)
    requires '>' !in tag && cursor <= |lower| && cs == Contents(lower, tag, cursor)
    ensures InOrder(lower, tag, cursor, cs)
    decreases |lower| - cursor
  {
    if cs != [] {
      var c := cs[0];
      var next := c.next;
      var rest := Contents(lower, tag, next);
      assert cs == [c] + rest;
      ContentIsElement(lower, tag, c.open, c);
      ContentsInOrder(lower, tag, next, rest);
      InOrderCons(lower, tag, cursor, c, rest, cs);
    }
  }

  lemma FindIs(s: string, needle: string, from: nat, at: nat)
    requires from <= at <= |s| && OccursAt(s, needle, at)
    requires forall i :: from <= i < at ==> !OccursAt(s, needle, i)
    ensures Find(s, needle, from) == Some(at)
  {
    FindsFirst(s, needle, from);
  }

  lemma ElementIsContent(lower: string, tag: string, c: Content)
    requires Element(lower, tag, c)
    ensures OpensAt(lower, tag, c.open) && ContentAt(lower, tag, c.open) == Some(c)
  {
    forall i | c.open <= i < c.start - 1
      ensures !OccursAt(lower, ">", i)
    {
      assert i < |lower| ==> lower[i..i + 1] == [lower[i]];
    }
    assert lower[c.start - 1..c.start] == ">";
    FindIs(lower, ">", c.open, c.start - 1);
    assert Closing(tag) == "</" + tag + ">";
    FindIs(lower, Closing(tag), c.start, c.end);
  }

  lemma {:induction false} FirstOpenIs(lower: string, tag: string, from: nat, at: nat)
    requires from <= at <= |lower| && OpensAt(lower, tag, at)
    requires forall i :: from <= i < at ==> !Opens(lower, tag, i)
    ensures FirstOpen(lower, tag, from) == Some(at)
    decreases at - from
  {
    assert OpensAt(lower, tag, from) <==> Opens(lower, tag, from);
    if from < at {
      FirstOpenIs(lower, tag, from + 1, at);
    }
  }

  /** The first complete element behind the cursor is found, if no opening comes before it. */
  lemma FirstElementIsFound(lower: string, tag: string, cursor: nat, c: Content)
    requires Element(lower, tag, c) && cursor <= c.open
    requires forall i :: cursor <= i < c.open ==> !Opens(lower, tag, i)
    ensures c.next <= |lower| && Contents(lower, tag, cursor) == [c] + Contents(lower, tag, c.next)
  {
    ElementIsContent(lower, tag, c);
    FirstOpenIs(lower, tag, cursor, c.open);
  }

  lemma {:induction false} NoOpenIsNone(lower: string, tag: string, from: nat)
    requires from <= |lower| && forall i :: from <= i < |lower| ==> !Opens(lower, tag, i)
    ensures FirstOpen(lower, tag, from) == None
    decreases |lower| - from
  {
    assert OpensAt(lower, tag, from) <==> Opens(lower, tag, from);
    if from < |lower| {
      NoOpenIsNone(lower, tag, from + 1);
    }
  }

  /** Without an opening there is nothing to find, and an element that is not closed ends the scan. */
  lemma ScanEnds(lower: string, tag: string, cursor: nat, open: nat)
    requires cursor <= open <= |lower| && (open < |lower| ==> Opens(lower, tag, open))
    requires forall i :: cursor <= i < open ==> !Opens(lower, tag, i)
    requires forall i, k :: open <= i < k < |lower| && lower[i] == '>' ==> !OccursAt(lower, "</" + tag + ">", k)
    ensures Contents(lower, tag, cursor) == []
  {
    if open < |lower| {
      assert OpensAt(lower, tag, open);
      FirstOpenIs(lower, tag, cursor, open);
      var bracket := Find(lower, ">", open);
      if bracket.Some? {
        assert lower[bracket.value..bracket.value + 1] == ">";
        assert lower[bracket.value] == '>';
        assert Closing(tag) == "</" + tag + ">";
      }
    } else {
      NoOpenIsNone(lower, tag, cursor);
    }
  }

  /** An element's text is what its content shows, decoded, normalised and cut; it counts unless
      it is empty. */
  lemma ElementText(u: Unicode, decode: string -> string, html: string, c: Content, cs: seq<Content>)
    requires c.start <= c.end <= |html|
    ensures var text := TruncateChars(Normal(u, decode(Visible(html[c.start..c.end]))), 700);
      TextsOf(u, decode, html, [c] + cs) == (if text == "" then [] else [text]) + TextsOf(u, decode, html, cs)
    ensures TextsOf(u, decode, html, []) == []
  {
    assert ([c] + cs)[1..] == cs;
  }
}
