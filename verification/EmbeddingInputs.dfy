/** Embedding inputs: what is pushed, how it is cut and named, and what a consumer accepts. */
module EmbeddingInputs {
  import opened Wrappers
  import opened Texts
  import opened Lists
  import opened Whitespace

  const MAX_INPUTS: nat := 96
  const MIN_INPUT_CHARS: nat := 3
  const U16_VALUES: nat := 65_536

  datatype Kind = Title | Heading | Summary | Sentence | Entity | Keyword | UrlSignal | Document

  datatype Input = Input(kind: Kind, ordinal: nat, text: string, weight: real)

  datatype InputError = EmptyContent | InvalidEmbeddingInput | InvalidEmbeddingInputs

  predicate ValidText(u: Unicode, text: string) {
    Trim(text, u.isSpace) != "" && |text| <= MAX_INPUT_CHARS
  }

  predicate ValidWeight(w: real) {
    0.1 <= w <= 2.0
  }

  predicate ValidInput(u: Unicode, input: Input) {
    ValidText(u, input.text) && ValidWeight(input.weight)
  }

  lemma TrimIsEmpty(s: string, drop: char -> bool)
    ensures Trim(s, drop) == "" <==> forall i :: 0 <= i < |s| ==> drop(s[i])
  {
  }

  // ---------- pushing ----------

  /** One line of the plan: a text to push and how much it weighs. */
  datatype View = View(kind: Kind, text: string, weight: real)

  function Prepared(u: Unicode, text: string): string {
    TruncateChars(Normal(u, text), MAX_INPUT_CHARS)
  }

  predicate LongEnough(u: Unicode, text: string) {
    |Prepared(u, text)| >= MIN_INPUT_CHARS
  }

  function PushedOne(u: Unicode): View -> seq<Input> {
    (v: View) => if LongEnough(u, v.text) then [Input(v.kind, 0, Prepared(u, v.text), v.weight)] else []
  }

  function Pushed(u: Unicode, views: seq<View>): seq<Input> {
    FlatMap(views, PushedOne(u))
  }

  lemma {:induction false} PushedCount(u: Unicode, views: seq<View>)
    ensures |Pushed(u, views)| <= |views|
  {
    if views != [] {
      PushedCount(u, views[..|views| - 1]);
    }
  }

  method PushInput(u: Unicode, inputs: seq<Input>, kind: Kind, text: string, weight: real) returns (after: seq<Input>)
    ensures after == inputs + Pushed(u, [View(kind, text, weight)])
  {
    FlatMapOne(View(kind, text, weight), PushedOne(u));
    var collapsed := CollapseAndTrim(u, text);
    var short := TruncateChars(collapsed, MAX_INPUT_CHARS);
    if |short| < MIN_INPUT_CHARS {
      return inputs;
    }
    after := inputs + [Input(kind, 0, short, weight)];
  }

  /** A prepared text neither begins nor ends with whitespace. */
  lemma PreparedEnds(u: Unicode, text: string)
    requires Sane(u)
    ensures var p := Prepared(u, text); p != "" ==> !u.isSpace(p[0]) && !u.isSpace(p[|p| - 1])
  {
    NormalEnds(u, text);
    var n, p := Normal(u, text), Prepared(u, text);
    if |n| > MAX_INPUT_CHARS {
      assert p[0] == p[..MAX_INPUT_CHARS - 1][0] == n[0];
    }
  }

  /** A pushed input is acceptable whatever its view was, if the view's weight is. */
  ghost predicate Sound(u: Unicode, input: Input) {
    && ValidInput(u, input) && MIN_INPUT_CHARS <= |input.text|
    && !u.isSpace(input.text[|input.text| - 1])
  }

  lemma {:induction false} PushedAreSound(u: Unicode, views: seq<View>, input: Input)
    requires Sane(u) && input in Pushed(u, views)
    requires forall v :: v in views ==> ValidWeight(v.weight)
    ensures Sound(u, input)
  {
    var front := views[..|views| - 1];
    if input in Pushed(u, front) {
      PushedAreSound(u, front, input);
    } else {
      var last := views[|views| - 1];
      PreparedEnds(u, last.text);
      TrimIsEmpty(input.text, u.isSpace);
    }
  }

  /** The text of an input: in whitespace normal form, at most 700 characters. */
  function Shown(u: Unicode, text: string): string {
    TruncateChars(Normal(u, text), 700)
  }

  /** The input is what this view gives. */
  ghost predicate GivenBy(u: Unicode, input: Input, v: View, ordinal: nat) {
    && input == Input(v.kind, ordinal, Shown(u, v.text), v.weight)
    && |input.text| >= 3
  }

  /** The pushed inputs are, in order, those of the views whose texts have three characters. */
  ghost predicate PushedAt(u: Unicode, views: seq<View>, r: seq<Input>, src: seq<nat>) {
    && |src| == |r| && Rising(src, |views|)
    && (forall i :: 0 <= i < |r| ==> GivenBy(u, r[i], views[src[i]], 0))
    && (forall m :: 0 <= m < |views| && |Shown(u, views[m].text)| >= 3 ==> m in src)
  }

  lemma PushedAtGrows(u: Unicode, front: seq<View>, v: View, views: seq<View>, q: seq<Input>, r: seq<Input>,
                      earlier: seq<nat>) returns (src: seq<nat>)
    requires views == front + [v] && PushedAt(u, front, q, earlier)
    requires r == q + (if |Shown(u, v.text)| >= 3 then [Input(v.kind, 0, Shown(u, v.text), v.weight)] else [])
    ensures PushedAt(u, views, r, src)
  {
    var n := |front|;
    if |Shown(u, v.text)| >= 3 {
      src := earlier + [n];
      assert src[|earlier|] == n && forall m :: m in earlier ==> m in src;
    } else {
      src := earlier;
    }
    forall m | 0 <= m < |views| && |Shown(u, views[m].text)| >= 3
      ensures m in src
    {
      assert m < n ==> views[m] == front[m];
    }
  }

  lemma {:induction false} PushedFrom(u: Unicode, views: seq<View>) returns (src: seq<nat>)
    ensures PushedAt(u, views, Pushed(u, views), src)
  {
    if views == [] {
      src := [];
    } else {
      var front, v := views[..|views| - 1], views[|views| - 1];
      var earlier := PushedFrom(u, front);
      src := PushedAtGrows(u, front, v, views, Pushed(u, front), Pushed(u, views), earlier);
    }
  }

  // ---------- numbering ----------

  function TextKey(input: Input): string {
    AsciiLower(input.text)
  }

  function Number(inputs: seq<Input>): (r: seq<Input>)
    ensures |r| == |inputs|
    ensures forall i :: 0 <= i < |r| ==> r[i] == inputs[i].(ordinal := i)
  {
    seq(|inputs|, i requires 0 <= i < |inputs| => inputs[i].(ordinal := i))
  }

  /** The view's text is among the inputs, in some ASCII case, at its own place or earlier. */
  ghost predicate ShownBy(inputs: seq<Input>, src: seq<nat>, text: string, m: nat)
    requires |src| == |inputs|
  {
    exists i :: 0 <= i < |inputs| && EqualIgnoringCase(inputs[i].text, text) && src[i] <= m
  }

  /** The inputs are numbered in the order of the views they come from, and show every view's
      text that is long enough, none of them twice. */
  ghost predicate ComesFrom(u: Unicode, views: seq<View>, inputs: seq<Input>, src: seq<nat>) {
    && |src| == |inputs| && Rising(src, |views|)
    && (forall i :: 0 <= i < |inputs| ==>
          GivenBy(u, inputs[i], views[src[i]], i))
    && (forall m {:trigger ShownBy(inputs, src, Shown(u, views[m].text), m)} ::
          0 <= m < |views| && |Shown(u, views[m].text)| >= 3 ==> ShownBy(inputs, src, Shown(u, views[m].text), m))
    && (forall i, k :: 0 <= i < k < |inputs| ==> !EqualIgnoringCase(inputs[i].text, inputs[k].text))
  }

  lemma RisingThrough(first: seq<nat>, second: seq<nat>, n: nat, src: seq<nat>)
    requires Rising(first, n) && Rising(second, |first|) && |src| == |second|
    requires forall i :: 0 <= i < |src| ==> src[i] == first[second[i]]
    ensures Rising(src, n)
  {
  }

  lemma StillShown(pushed: seq<Input>, first: seq<nat>, n: nat, kept: seq<Input>, second: seq<nat>,
                   inputs: seq<Input>, src: seq<nat>, j: nat)
    requires |pushed| == |first| && Rising(first, n) && |second| == |kept| == |inputs| == |src|
    requires forall i :: 0 <= i < |src| ==>
      second[i] < |first| && src[i] == first[second[i]] && inputs[i].text == kept[i].text
    requires j < |pushed| && KeptBy(kept, TextKey, second, pushed[j], j)
    ensures ShownBy(inputs, src, pushed[j].text, first[j])
  {
    var i :| 0 <= i < |kept| && TextKey(kept[i]) == TextKey(pushed[j]) && second[i] <= j;
    LowerComparesIgnoringCase(kept[i].text, pushed[j].text);
    assert inputs[i].text == kept[i].text && src[i] <= first[j];
  }

  /** What becomes of a plan of views: pushed, freed of repeats, numbered. */
  lemma InputsComeFrom(u: Unicode, views: seq<View>, inputs: seq<Input>) returns (src: seq<nat>)
    requires inputs == Number(Firsts(Pushed(u, views), TextKey))
    ensures ComesFrom(u, views, inputs, src)
  {
    var pushed := Pushed(u, views);
    var kept := Firsts(pushed, TextKey);
    var first := PushedFrom(u, views);
    var second := FirstsComeFirst(pushed, TextKey);
    src := seq(|second|, i requires 0 <= i < |second| => first[second[i]]);
    RisingThrough(first, second, |views|, src);
    forall i | 0 <= i < |inputs|
      ensures GivenBy(u, inputs[i], views[src[i]], i)
    {
      assert GivenBy(u, pushed[second[i]], views[first[second[i]]], 0);
    }
    forall m | 0 <= m < |views| && |Shown(u, views[m].text)| >= 3
      ensures ShownBy(inputs, src, Shown(u, views[m].text), m)
    {
      var j :| 0 <= j < |first| && first[j] == m;
      assert GivenBy(u, pushed[j], views[m], 0);
      assert KeptBy(kept, TextKey, second, pushed[j], j);
      StillShown(pushed, first, |views|, kept, second, inputs, src, j);
    }
    FirstsMeaning(pushed, TextKey);
    forall i, k | 0 <= i < k < |inputs|
      ensures !EqualIgnoringCase(inputs[i].text, inputs[k].text)
    {
      assert TextKey(kept[i]) != TextKey(kept[k]);
      LowerComparesIgnoringCase(inputs[i].text, inputs[k].text);
    }
  }

  /** Ordinals are 16 bits wide. */
  method SetOrdinals(inputs: seq<Input>) returns (numbered: Result<seq<Input>, InputError>)
    ensures numbered == if |inputs| <= U16_VALUES then Ok(Number(inputs)) else Err(InvalidEmbeddingInputs)
  {
    var result := inputs;
    for i := 0 to |inputs|
      invariant |result| == |inputs| && i <= U16_VALUES
      invariant forall k :: 0 <= k < i ==> result[k] == inputs[k].(ordinal := k)
      invariant forall k :: i <= k < |inputs| ==> result[k] == inputs[k]
    {
      if i >= U16_VALUES {
        return Err(InvalidEmbeddingInputs);
      }
      result := result[i := result[i].(ordinal := i)];
    }
    assert result == Number(inputs);
    numbered := Ok(result);
  }

  // ---------- the consumer ----------

  /** What a consumer of embedding work accepts. */
  ghost predicate Acceptable(u: Unicode, inputs: seq<Input>) {
    && 1 <= |inputs| <= 96
    && (forall i :: 0 <= i < |inputs| ==> ValidInput(u, inputs[i]) && inputs[i].ordinal == i)
  }

  /** One to 96 inputs, numbered from zero, each with a visible character, at most 700
      characters and a weight from 0.1 to 2. */
  lemma AcceptableMeans(u: Unicode, inputs: seq<Input>)
    ensures Acceptable(u, inputs) <==>
      && 1 <= |inputs| <= 96
      && forall i :: 0 <= i < |inputs| ==>
           && inputs[i].ordinal == i && 0.1 <= inputs[i].weight <= 2.0
           && |inputs[i].text| <= 700 && exists k :: 0 <= k < |inputs[i].text| && !u.isSpace(inputs[i].text[k])
  {
    forall i | 0 <= i < |inputs|
      ensures ValidInput(u, inputs[i]) <==>
        && 0.1 <= inputs[i].weight <= 2.0 && |inputs[i].text| <= 700
        && exists k :: 0 <= k < |inputs[i].text| && !u.isSpace(inputs[i].text[k])
    {
      TrimIsEmpty(inputs[i].text, u.isSpace);
    }
  }

  method ValidateEmbeddingInputs(u: Unicode, inputs: seq<Input>) returns (error: Option<InputError>)
    ensures error.None? <==> Acceptable(u, inputs)
    ensures error == Some(InvalidEmbeddingInput) ==>
      exists i :: 0 <= i < |inputs| && !ValidInput(u, inputs[i]) && forall k :: 0 <= k < i ==> ValidInput(u, inputs[k])
  {
    if inputs == [] || |inputs| > MAX_INPUTS {
      return Some(InvalidEmbeddingInputs);
    }
    for i := 0 to |inputs|
      invariant forall k :: 0 <= k < i ==> ValidInput(u, inputs[k]) && inputs[k].ordinal == k
    {
      if !ValidInput(u, inputs[i]) {
        return Some(InvalidEmbeddingInput);
      }
      if inputs[i].ordinal != i {
        return Some(InvalidEmbeddingInputs);
      }
    }
    error := None;
  }
}
