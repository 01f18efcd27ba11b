/** One text for providers that embed a page as a whole: its labelled inputs, line by line. */
module CombinedText {
  import opened Texts
  import opened Lists
  import opened EmbeddingInputs
  import opened SemanticViews

  const MAX_TEXT_CHARS: nat := 24_000
  const MAX_LINE_CHARS: nat := 711
  const SURE_LINES: nat := 33

  function Label(kind: Kind): (name: string)
    ensures 3 <= |name| <= 8
  {
    match kind
    case Title => "title"
    case Heading => "heading"
    case Summary => "summary"
    case Sentence => "sentence"
    case Entity => "entities"
    case Keyword => "keywords"
    case UrlSignal => "url"
    case Document => "document"
  }

  function Line(input: Input): (line: string)
    ensures |line| == |Label(input.kind)| + 3 + |input.text| && line[|line| - 1] == '\n'
    ensures input.text != "" ==> line[|line| - 2] == input.text[|input.text| - 1]
  {
    Label(input.kind) + ": " + input.text + "\n"
  }

  function Lines(inputs: seq<Input>): string {
    FlatMap(inputs, Line)
  }

  lemma LinesSnoc(inputs: seq<Input>, i: nat)
    requires i < |inputs|
    ensures Lines(inputs[..i + 1]) == Lines(inputs[..i]) + Line(inputs[i])
  {
    assert inputs[..i + 1][..i] == inputs[..i];
  }

  /** Each input is one line: the name of its kind, a colon and its text. */
  lemma LineIsLabelled(input: Input)
    ensures Label(Title) == "title" && Label(Heading) == "heading" && Label(Summary) == "summary"
    ensures Label(Sentence) == "sentence" && Label(Entity) == "entities" && Label(Keyword) == "keywords"
    ensures Label(UrlSignal) == "url" && Label(Document) == "document"
    ensures Line(input) == Label(input.kind) + ": " + input.text + "\n"
  {
  }

  lemma {:induction false} LinesGrow(inputs: seq<Input>, i: nat)
    requires i <= |inputs|
    ensures |Lines(inputs[..i])| <= |Lines(inputs)|
    decreases |inputs| - i
  {
    if i < |inputs| {
      LinesSnoc(inputs, i);
      LinesGrow(inputs, i + 1);
    } else {
      TakeAll(inputs);
    }
  }

  /** `n` is the greatest number of lines that fit together. */
  ghost predicate Longest(inputs: seq<Input>, n: nat) {
    && n <= |inputs| && |Lines(inputs[..n])| <= 24_000
    && forall k :: n < k <= |inputs| ==> |Lines(inputs[..k])| > 24_000
  }

  lemma MoreLinesAreLonger(inputs: seq<Input>, i: nat, k: nat)
    requires i <= k <= |inputs|
    ensures |Lines(inputs[..i])| <= |Lines(inputs[..k])|
  {
    LinesGrow(inputs[..k], i);
    assert inputs[..k][..i] == inputs[..i];
  }

  lemma LongestHere(inputs: seq<Input>, n: nat)
    requires n <= |inputs| && |Lines(inputs[..n])| <= MAX_TEXT_CHARS
    requires n < |inputs| ==> |Lines(inputs[..n])| + |Line(inputs[n])| > MAX_TEXT_CHARS
    ensures Longest(inputs, n)
  {
    forall k | n < k <= |inputs|
      ensures |Lines(inputs[..k])| > MAX_TEXT_CHARS
    {
      LinesSnoc(inputs, n);
      MoreLinesAreLonger(inputs, n + 1, k);
    }
  }

  /** Appends lines while they fit, then trims the end. `n` counts the lines taken. */
  method CombinedEmbeddingText(u: Unicode, inputs: seq<Input>) returns (output: string, ghost n: nat)
    ensures Longest(inputs, n) && output == TrimEnd(Lines(inputs[..n]), u.isSpace)
    ensures |output| <= MAX_TEXT_CHARS
  {
    output := "";
    n := |inputs|;
    for i := 0 to |inputs|
      invariant output == Lines(inputs[..i]) && |output| <= MAX_TEXT_CHARS && n == |inputs|
    {
      var line := Line(inputs[i]);
      if |output| + |line| > MAX_TEXT_CHARS {
        n := i;
        break;
      }
      LinesSnoc(inputs, i);
      output := output + line;
    }
    LongestHere(inputs, n);
    output := TrimEnd(output, u.isSpace);
  }

  lemma {:induction false} LinesAreShort(inputs: seq<Input>)
    requires forall input :: input in inputs ==> |input.text| <= MAX_INPUT_CHARS
    ensures |Lines(inputs)| <= MAX_LINE_CHARS * |inputs|
  {
    if inputs != [] {
      LinesAreShort(inputs[..|inputs| - 1]);
      assert |Line(inputs[|inputs| - 1])| <= MAX_LINE_CHARS;
    }
  }

  lemma SureLinesFit(inputs: seq<Input>, n: nat)
    requires Longest(inputs, n) && forall input :: input in inputs ==> |input.text| <= MAX_INPUT_CHARS
    ensures n >= (if |inputs| < SURE_LINES then |inputs| else SURE_LINES)
  {
    LinesAreShort(inputs[..if |inputs| < SURE_LINES then |inputs| else SURE_LINES]);
  }

  lemma TrimOne(s: string, drop: char -> bool)
    requires |s| >= 2 && drop(s[|s| - 1]) && !drop(s[|s| - 2])
    ensures TrimEnd(s, drop) == s[..|s| - 1]
  {
    assert s[..|s| - 1][|s| - 2] == s[|s| - 2];
  }

  lemma TrimLines(u: Unicode, before: string, input: Input, all: string)
    requires u.isSpace('\n') && input.text != "" && !u.isSpace(input.text[|input.text| - 1])
    requires all == before + Line(input)
    ensures all != "" && TrimEnd(all, u.isSpace) == all[..|all| - 1] && all[|all| - 1] == '\n'
  {
    var line := Line(input);
    assert all[|all| - 1] == line[|line| - 1] && all[|all| - 2] == line[|line| - 2];
    TrimOne(all, u.isSpace);
  }

  /** What a line needs so that trimming takes no more than its line end. */
  predicate CleanText(u: Unicode, text: string) {
    0 < |text| <= MAX_INPUT_CHARS && !u.isSpace(text[|text| - 1])
  }

  lemma DeliveredTextsAreClean(u: Unicode, inputs: seq<Input>)
    requires Delivered(u, inputs)
    ensures inputs != [] && forall input :: input in inputs ==> CleanText(u, input.text)
  {
  }

  lemma CombinedTextOfCleanInputs(u: Unicode, inputs: seq<Input>, n: nat, m: nat)
    requires u.isSpace('\n') && n == m + 1 && Longest(inputs, n)
    requires forall input :: input in inputs ==> CleanText(u, input.text)
    ensures var all := Lines(inputs[..n]);
      all != "" && TrimEnd(all, u.isSpace) == all[..|all| - 1] && all[|all| - 1] == '\n'
  {
    LinesSnoc(inputs, m);
    TrimLines(u, Lines(inputs[..m]), inputs[m], Lines(inputs[..n]));
  }

  /** For every extracted document: the longest prefix of whole lines that fits, without its
      last line end, and at least 33 lines of it. */
  lemma CombinedTextOfDocument(u: Unicode, inputs: seq<Input>, n: nat)
    requires Sane(u) && Delivered(u, inputs) && Longest(inputs, n)
    ensures n >= (if |inputs| < SURE_LINES then |inputs| else SURE_LINES)
    ensures var all := Lines(inputs[..n]);
      all != "" && TrimEnd(all, u.isSpace) == all[..|all| - 1] && all[|all| - 1] == '\n'
  {
    DeliveredTextsAreClean(u, inputs);
    SureLinesFit(inputs, n);
    CombinedTextOfCleanInputs(u, inputs, n, n - 1);
  }
}
