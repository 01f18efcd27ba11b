/** The semantic views of a document: its title, headings, summary, entities, keywords,
    sentences, address and text, as embedding inputs. */
module SemanticViews {
  import opened Wrappers
  import opened Texts
  import opened Lists
  import opened Whitespace
  import opened EmbeddingInputs
  import opened JsonText
  import opened ContentText
  import Sentences
  import Keywords
  import Entities
  import opened Ranking
  import TagTexts

  const MAX_HEADINGS: nat := 24
  const HEADINGS_PER_TAG: nat := 12
  const MAX_SENTENCES: nat := 48
  const MAX_TERMS: nat := 32
  const ENTITIES_PER_INPUT: nat := 6
  const KEYWORDS_PER_INPUT: nat := 8
  const MAX_PUSHED: nat := 86

  // ---------- the plan ----------

  datatype Parts = Parts(title: Option<string>, headings: seq<string>, summary: string, entities: seq<string>,
                         keywords: seq<string>, sentences: seq<string>, signal: Option<string>, content: string)

  /** One view for each text. */
  function ViewsOf(kind: Kind, texts: seq<string>, weight: real): (views: seq<View>)
    ensures |views| == |texts|
    ensures forall i :: 0 <= i < |views| ==> views[i] == View(kind, texts[i], weight)
  {
    seq(|texts|, i requires 0 <= i < |texts| => View(kind, texts[i], weight))
  }

  function ListOf(text: Option<string>): seq<string> {
    if text.Some? then [text.value] else []
  }

  function JoinAll(groups: seq<seq<string>>, sep: string): (r: seq<string>)
    ensures |r| == |groups|
    ensures forall i :: 0 <= i < |r| ==> r[i] == Join(groups[i], sep)
  {
    seq(|groups|, i requires 0 <= i < |groups| => Join(groups[i], sep))
  }

  function EntityLines(p: Parts): seq<string> {
    JoinAll(Chunks(p.entities, ENTITIES_PER_INPUT), "; ")
  }

  function KeywordLines(p: Parts): seq<string> {
    JoinAll(Chunks(p.keywords, KEYWORDS_PER_INPUT), ", ")
  }

  /** All views in the order they are pushed, with their weights. */
  function Views(p: Parts): seq<View> {
    ViewsOf(Title, ListOf(p.title), 1.25)
    + ViewsOf(Heading, p.headings, 1.15)
    + ViewsOf(Summary, [p.summary], 1.10)
    + ViewsOf(Entity, EntityLines(p), 1.05)
    + ViewsOf(Keyword, KeywordLines(p), 0.90)
    + ViewsOf(Sentence, p.sentences, 1.00)
    + ViewsOf(UrlSignal, ListOf(p.signal), 0.65)
    + ViewsOf(Document, [TruncateChars(p.content, 2_000)], 0.75)
  }

  ghost predicate Bounded(p: Parts) {
    && |p.headings| <= 24 && |p.sentences| <= 48 && |p.entities| <= 32 && |p.keywords| <= 32
  }

  /** 1 + 24 + 1 + 6 + 4 + 48 + 1 + 1. */
  lemma ViewsAreFew(p: Parts)
    requires Bounded(p)
    ensures |Views(p)| <= MAX_PUSHED
    ensures forall v :: v in Views(p) ==> ValidWeight(v.weight)
  {
    ChunksCount(p.entities, ENTITIES_PER_INPUT, 6);
    ChunksCount(p.keywords, KEYWORDS_PER_INPUT, 4);
  }

  // ---------- the plan, place by place ----------

  /** Where a text of the plan comes from: which part, and which element or group of it. */
  datatype Place = Place(kind: Kind, index: nat)

  function Rank(kind: Kind): nat {
    match kind
    case Title => 0
    case Heading => 1
    case Summary => 2
    case Entity => 3
    case Keyword => 4
    case Sentence => 5
    case UrlSignal => 6
    case Document => 7
  }

  predicate Earlier(a: Place, b: Place) {
    Rank(a.kind) < Rank(b.kind) || (a.kind == b.kind && a.index < b.index)
  }

  function WeightOf(kind: Kind): real {
    match kind
    case Title => 1.25
    case Heading => 1.15
    case Summary => 1.10
    case Entity => 1.05
    case Keyword => 0.90
    case Sentence => 1.00
    case UrlSignal => 0.65
    case Document => 0.75
  }

  function ElementAt(texts: seq<string>, i: nat): Option<string> {
    if i < |texts| then Some(texts[i]) else None
  }

  function GroupAt(texts: seq<string>, n: nat, i: nat, sep: string): Option<string> {
    if n * i >= |texts| then None
    else Some(Join(texts[n * i..if n * i + n <= |texts| then n * i + n else |texts|], sep))
  }

  /** The text at a place: terms go in groups of six or eight, and the content is cut. */
  function TextAt(p: Parts, at: Place): Option<string> {
    match at.kind
    case Title => if at.index == 0 then p.title else None
    case Heading => ElementAt(p.headings, at.index)
    case Summary => if at.index == 0 then Some(p.summary) else None
    case Entity => GroupAt(p.entities, 6, at.index, "; ")
    case Keyword => GroupAt(p.keywords, 8, at.index, ", ")
    case Sentence => ElementAt(p.sentences, at.index)
    case UrlSignal => if at.index == 0 then p.signal else None
    case Document => if at.index == 0 then Some(TruncateChars(p.content, 2_000)) else None
  }

  ghost predicate PlannedAt(p: Parts, v: View, at: Place) {
    TextAt(p, at) == Some(v.text) && v.kind == at.kind && v.weight == WeightOf(at.kind)
  }

  ghost predicate InPlaceOrder(places: seq<Place>) {
    forall i, k :: 0 <= i < k < |places| ==> Earlier(places[i], places[k])
  }

  /** The views stand at these places, which rise within the given ranks. */
  ghost predicate Planned(p: Parts, views: seq<View>, places: seq<Place>, lo: nat, hi: nat) {
    && |places| == |views| && InPlaceOrder(places)
    && (forall i :: 0 <= i < |places| ==> lo <= Rank(places[i].kind) < hi)
    && (forall i :: 0 <= i < |views| ==> PlannedAt(p, views[i], places[i]))
  }

  lemma PlannedConcat(p: Parts, va: seq<View>, pa: seq<Place>, vb: seq<View>, pb: seq<Place>,
                      lo: nat, mid: nat, hi: nat)
    requires Planned(p, va, pa, lo, mid) && Planned(p, vb, pb, mid, hi) && lo <= mid <= hi
    ensures Planned(p, va + vb, pa + pb, lo, hi)
  {
  }

  function PlacesOf(kind: Kind, n: nat): (places: seq<Place>)
    ensures |places| == n && forall i :: 0 <= i < n ==> places[i] == Place(kind, i)
  {
    seq(n, i requires 0 <= i < n => Place(kind, i))
  }

  ghost predicate TextsAt(p: Parts, kind: Kind, texts: seq<string>) {
    forall i: nat :: i < |texts| ==> TextAt(p, Place(kind, i)) == Some(texts[i])
  }

  lemma KindIsPlanned(p: Parts, kind: Kind, texts: seq<string>, weight: real)
    requires weight == WeightOf(kind) && TextsAt(p, kind, texts)
    ensures Planned(p, ViewsOf(kind, texts, weight), PlacesOf(kind, |texts|), Rank(kind), Rank(kind) + 1)
  {
  }

  /** One more kind behind those planned so far. */
  lemma KindPlanned(p: Parts, v: seq<View>, q: seq<Place>, kind: Kind, texts: seq<string>, weight: real)
    requires Planned(p, v, q, 0, Rank(kind)) && weight == WeightOf(kind) && TextsAt(p, kind, texts)
    ensures Planned(p, v + ViewsOf(kind, texts, weight), q + PlacesOf(kind, |texts|), 0, Rank(kind) + 1)
  {
    KindIsPlanned(p, kind, texts, weight);
    PlannedConcat(p, v, q, ViewsOf(kind, texts, weight), PlacesOf(kind, |texts|), 0, Rank(kind), Rank(kind) + 1);
  }

  lemma GroupsArePlanned(p: Parts, texts: seq<string>, n: nat, sep: string, i: nat)
    requires n > 0
    ensures i < |Chunks(texts, n)| <==> GroupAt(texts, n, i, sep).Some?
    ensures i < |Chunks(texts, n)| ==> GroupAt(texts, n, i, sep) == Some(JoinAll(Chunks(texts, n), sep)[i])
  {
    ChunkAt(texts, n, i);
  }

  function AllPlaces(p: Parts): seq<Place> {
    PlacesOf(Title, |ListOf(p.title)|)
    + PlacesOf(Heading, |p.headings|)
    + PlacesOf(Summary, 1)
    + PlacesOf(Entity, |EntityLines(p)|)
    + PlacesOf(Keyword, |KeywordLines(p)|)
    + PlacesOf(Sentence, |p.sentences|)
    + PlacesOf(UrlSignal, |ListOf(p.signal)|)
    + PlacesOf(Document, 1)
  }

  lemma TextsStandThere(p: Parts)
    ensures TextsAt(p, Title, ListOf(p.title)) && TextsAt(p, Heading, p.headings) && TextsAt(p, Summary, [p.summary])
    ensures TextsAt(p, Entity, EntityLines(p)) && TextsAt(p, Keyword, KeywordLines(p))
    ensures TextsAt(p, Sentence, p.sentences) && TextsAt(p, UrlSignal, ListOf(p.signal))
    ensures TextsAt(p, Document, [TruncateChars(p.content, 2_000)])
  {
    forall i: nat | i < |EntityLines(p)|
      ensures TextAt(p, Place(Entity, i)) == Some(EntityLines(p)[i])
    {
      GroupsArePlanned(p, p.entities, ENTITIES_PER_INPUT, "; ", i);
    }
    forall i: nat | i < |KeywordLines(p)|
      ensures TextAt(p, Place(Keyword, i)) == Some(KeywordLines(p)[i])
    {
      GroupsArePlanned(p, p.keywords, KEYWORDS_PER_INPUT, ", ", i);
    }
  }

  lemma FrontIsPlanned(p: Parts, v: seq<View>, q: seq<Place>)
    requires v == ViewsOf(Title, ListOf(p.title), 1.25) + ViewsOf(Heading, p.headings, 1.15)
                  + ViewsOf(Summary, [p.summary], 1.10) + ViewsOf(Entity, EntityLines(p), 1.05)
    requires q == PlacesOf(Title, |ListOf(p.title)|) + PlacesOf(Heading, |p.headings|) + PlacesOf(Summary, 1)
                  + PlacesOf(Entity, |EntityLines(p)|)
    ensures Planned(p, v, q, 0, 4)
  {
    TextsStandThere(p);
    var v1, q1 := ViewsOf(Title, ListOf(p.title), 1.25), PlacesOf(Title, |ListOf(p.title)|);
    var v2, q2 := v1 + ViewsOf(Heading, p.headings, 1.15), q1 + PlacesOf(Heading, |p.headings|);
    var v3, q3 := v2 + ViewsOf(Summary, [p.summary], 1.10), q2 + PlacesOf(Summary, 1);
    KindIsPlanned(p, Title, ListOf(p.title), 1.25);
    KindPlanned(p, v1, q1, Heading, p.headings, 1.15);
    KindPlanned(p, v2, q2, Summary, [p.summary], 1.10);
    KindPlanned(p, v3, q3, Entity, EntityLines(p), 1.05);
  }

  lemma MiddleIsPlanned(p: Parts, v: seq<View>, q: seq<Place>, views: seq<View>, places: seq<Place>)
    requires Planned(p, v, q, 0, 4)
    requires views == v + ViewsOf(Keyword, KeywordLines(p), 0.90) + ViewsOf(Sentence, p.sentences, 1.00)
    requires places == q + PlacesOf(Keyword, |KeywordLines(p)|) + PlacesOf(Sentence, |p.sentences|)
    ensures Planned(p, views, places, 0, 6)
  {
    TextsStandThere(p);
    KindPlanned(p, v, q, Keyword, KeywordLines(p), 0.90);
    KindPlanned(p, v + ViewsOf(Keyword, KeywordLines(p), 0.90), q + PlacesOf(Keyword, |KeywordLines(p)|),
                Sentence, p.sentences, 1.00);
  }

  lemma BackIsPlanned(p: Parts, v: seq<View>, q: seq<Place>, views: seq<View>, places: seq<Place>)
    requires Planned(p, v, q, 0, 6)
    requires views == v + ViewsOf(UrlSignal, ListOf(p.signal), 0.65)
                      + ViewsOf(Document, [TruncateChars(p.content, 2_000)], 0.75)
    requires places == q + PlacesOf(UrlSignal, |ListOf(p.signal)|) + PlacesOf(Document, 1)
    ensures Planned(p, views, places, 0, 8)
  {
    TextsStandThere(p);
    KindPlanned(p, v, q, UrlSignal, ListOf(p.signal), 0.65);
    KindPlanned(p, v + ViewsOf(UrlSignal, ListOf(p.signal), 0.65), q + PlacesOf(UrlSignal, |ListOf(p.signal)|),
                Document, [TruncateChars(p.content, 2_000)], 0.75);
  }

  lemma ViewsArePlanned(p: Parts)
    ensures Planned(p, Views(p), AllPlaces(p), 0, 8)
  {
    var v := ViewsOf(Title, ListOf(p.title), 1.25) + ViewsOf(Heading, p.headings, 1.15)
             + ViewsOf(Summary, [p.summary], 1.10) + ViewsOf(Entity, EntityLines(p), 1.05);
    var q := PlacesOf(Title, |ListOf(p.title)|) + PlacesOf(Heading, |p.headings|) + PlacesOf(Summary, 1)
             + PlacesOf(Entity, |EntityLines(p)|);
    var w := v + ViewsOf(Keyword, KeywordLines(p), 0.90) + ViewsOf(Sentence, p.sentences, 1.00);
    var r := q + PlacesOf(Keyword, |KeywordLines(p)|) + PlacesOf(Sentence, |p.sentences|);
    FrontIsPlanned(p, v, q);
    MiddleIsPlanned(p, v, q, w, r);
    BackIsPlanned(p, w, r, Views(p), AllPlaces(p));
  }

  lemma InPlaces(kind: Kind, n: nat, at: Place)
    ensures at in PlacesOf(kind, n) <==> at.kind == kind && at.index < n
  {
    if at.kind == kind && at.index < n {
      assert PlacesOf(kind, n)[at.index] == at;
    }
  }

  /** No place that has a text is left out. */
  lemma EveryPlaceIsPlanned(p: Parts, at: Place)
    requires TextAt(p, at).Some?
    ensures at in AllPlaces(p)
  {
    GroupsArePlanned(p, p.entities, 6, "; ", at.index);
    GroupsArePlanned(p, p.keywords, 8, ", ", at.index);
    match at.kind
    case Title => InPlaces(Title, |ListOf(p.title)|, at);
    case Heading => InPlaces(Heading, |p.headings|, at);
    case Summary => InPlaces(Summary, 1, at);
    case Entity => InPlaces(Entity, |EntityLines(p)|, at);
    case Keyword => InPlaces(Keyword, |KeywordLines(p)|, at);
    case Sentence => InPlaces(Sentence, |p.sentences|, at);
    case UrlSignal => InPlaces(UrlSignal, |ListOf(p.signal)|, at);
    case Document => InPlaces(Document, 1, at);
  }

  /** The text is among the inputs, in some ASCII case, from this place or an earlier one. */
  ghost predicate ShownFor(inputs: seq<Input>, from: seq<Place>, text: string, at: Place)
    requires |from| == |inputs|
  {
    exists i :: 0 <= i < |inputs| && EqualIgnoringCase(inputs[i].text, text) && !Earlier(at, from[i])
  }

  ghost predicate InputFor(u: Unicode, p: Parts, input: Input, at: Place, ordinal: nat) {
    && TextAt(p, at).Some?
    && input == Input(at.kind, ordinal, Shown(u, TextAt(p, at).value), WeightOf(at.kind))
    && |input.text| >= 3
  }

  /** The inputs come from these places, in order, and numbered so. */
  ghost predicate StandsFor(u: Unicode, p: Parts, inputs: seq<Input>, from: seq<Place>) {
    && |from| == |inputs| && InPlaceOrder(from)
    && (forall i :: 0 <= i < |inputs| ==> InputFor(u, p, inputs[i], from[i], i))
    && (forall at: Place {:trigger TextAt(p, at)} ::
          TextAt(p, at).Some? && |Shown(u, TextAt(p, at).value)| >= 3 ==>
            ShownFor(inputs, from, Shown(u, TextAt(p, at).value), at))
    && (forall i, k :: 0 <= i < k < |inputs| ==> !EqualIgnoringCase(inputs[i].text, inputs[k].text))
  }

  /** What the inputs of a document are, part by part: every text of the plan that has three
      characters is shown exactly once, every input shows such a text with its kind and weight,
      and they stand in the order of the plan, the first of equal texts kept. */
  ghost predicate Covers(u: Unicode, p: Parts, inputs: seq<Input>) {
    exists from: seq<Place> :: StandsFor(u, p, inputs, from)
  }

  lemma PlaceIsShown(inputs: seq<Input>, src: seq<nat>, places: seq<Place>, from: seq<Place>, text: string, m: nat)
    requires |from| == |src| == |inputs| && Rising(src, |places|) && InPlaceOrder(places) && m < |places|
    requires forall i :: 0 <= i < |from| ==> from[i] == places[src[i]]
    requires ShownBy(inputs, src, text, m)
    ensures ShownFor(inputs, from, text, places[m])
  {
    var i :| 0 <= i < |inputs| && EqualIgnoringCase(inputs[i].text, text) && src[i] <= m;
    assert src[i] < m ==> Earlier(from[i], places[m]);
  }

  lemma PlannedTextIsShown(u: Unicode, p: Parts, views: seq<View>, inputs: seq<Input>, src: seq<nat>,
                           places: seq<Place>, from: seq<Place>, at: Place)
    requires Planned(p, views, places, 0, 8) && places == AllPlaces(p) && ComesFrom(u, views, inputs, src)
    requires |from| == |src| && forall i :: 0 <= i < |from| ==> from[i] == places[src[i]]
    requires TextAt(p, at).Some? && |Shown(u, TextAt(p, at).value)| >= 3
    ensures ShownFor(inputs, from, Shown(u, TextAt(p, at).value), at)
  {
    EveryPlaceIsPlanned(p, at);
    var m :| 0 <= m < |places| && places[m] == at;
    assert PlannedAt(p, views[m], places[m]);
    assert ShownBy(inputs, src, Shown(u, views[m].text), m);
    PlaceIsShown(inputs, src, places, from, Shown(u, TextAt(p, at).value), m);
  }

  lemma PlanIsCovered(u: Unicode, p: Parts, inputs: seq<Input>)
    requires inputs == Number(Firsts(Pushed(u, Views(p)), TextKey))
    ensures Covers(u, p, inputs)
  {
    var views, places := Views(p), AllPlaces(p);
    ViewsArePlanned(p);
    var src := InputsComeFrom(u, views, inputs);
    var from := seq(|src|, i requires 0 <= i < |src| => places[src[i]]);
    forall i | 0 <= i < |inputs|
      ensures InputFor(u, p, inputs[i], from[i], i)
    {
      assert GivenBy(u, inputs[i], views[src[i]], i) && PlannedAt(p, views[src[i]], places[src[i]]);
    }
    forall at: Place | TextAt(p, at).Some? && |Shown(u, TextAt(p, at).value)| >= 3
      ensures ShownFor(inputs, from, Shown(u, TextAt(p, at).value), at)
    {
      PlannedTextIsShown(u, p, views, inputs, src, places, from, at);
    }
    assert StandsFor(u, p, inputs, from);
  }

  /** Pushes one view for each text behind the views pushed before. */
  method PushAll(u: Unicode, inputs: seq<Input>, kind: Kind, texts: seq<string>, weight: real, ghost done: seq<View>)
    returns (after: seq<Input>)
    requires inputs == Pushed(u, done)
    ensures after == Pushed(u, done + ViewsOf(kind, texts, weight))
  {
    after := inputs;
    ghost var views := ViewsOf(kind, texts, weight);
    for i := 0 to |texts|
      invariant after == inputs + Pushed(u, views[..i])
    {
      after := PushInput(u, after, kind, texts[i], weight);
      TakeSnoc(views, i);
      FlatMapConcat(views[..i], [views[i]], PushedOne(u));
      ConcatIsAssociative(inputs, Pushed(u, views[..i]), Pushed(u, [views[i]]));
    }
    TakeAll(views);
    FlatMapConcat(done, views, PushedOne(u));
  }

  method PushViews(u: Unicode, p: Parts) returns (inputs: seq<Input>)
    ensures inputs == Pushed(u, Views(p))
  {
    ghost var v1 := ViewsOf(Title, ListOf(p.title), 1.25);
    ghost var v2 := v1 + ViewsOf(Heading, p.headings, 1.15);
    ghost var v3 := v2 + ViewsOf(Summary, [p.summary], 1.10);
    ghost var v4 := v3 + ViewsOf(Entity, EntityLines(p), 1.05);
    ghost var v5 := v4 + ViewsOf(Keyword, KeywordLines(p), 0.90);
    ghost var v6 := v5 + ViewsOf(Sentence, p.sentences, 1.00);
    ghost var v7 := v6 + ViewsOf(UrlSignal, ListOf(p.signal), 0.65);
    assert [] + v1 == v1;
    inputs := PushAll(u, [], Title, ListOf(p.title), 1.25, []);
    inputs := PushAll(u, inputs, Heading, p.headings, 1.15, v1);
    inputs := PushAll(u, inputs, Summary, [p.summary], 1.10, v2);
    inputs := PushAll(u, inputs, Entity, EntityLines(p), 1.05, v3);
    inputs := PushAll(u, inputs, Keyword, KeywordLines(p), 0.90, v4);
    inputs := PushAll(u, inputs, Sentence, p.sentences, 1.00, v5);
    inputs := PushAll(u, inputs, UrlSignal, ListOf(p.signal), 0.65, v6);
    inputs := PushAll(u, inputs, Document, [TruncateChars(p.content, 2_000)], 0.75, v7);
  }

  // ---------- the parts ----------

  /** Three sentences, if that is enough to say, otherwise the beginning of the text. */
  function BuildSummary(sentences: seq<string>, content: string): (summary: string)
    ensures |summary| <= 900
    ensures var lead := Join(Take(sentences, 3), " ");
      summary == TruncateChars(if |lead| >= 80 then lead else content, 900)
  {
    var lead := Join(Take(sentences, 3), " ");
    if |lead| >= 80 then TruncateChars(lead, 900) else TruncateChars(content, 900)
  }

  /** Three sentences of a document are always enough, so the summary is taken from them. */
  lemma ThreeSentencesAreASummary(u: Unicode, sentences: seq<string>, content: string)
    requires |sentences| >= 3 && forall s :: s in sentences ==> Sentences.GoodSentence(u, s)
    ensures var lead := sentences[0] + " " + sentences[1] + " " + sentences[2];
      BuildSummary(sentences, content) == TruncateChars(lead, 900)
  {
    var three := Take(sentences, 3);
    assert three == [sentences[0], sentences[1], sentences[2]];
    JoinSnoc([sentences[0], sentences[1]], sentences[2], " ");
    JoinSnoc([sentences[0]], sentences[1], " ");
    assert three == [sentences[0], sentences[1]] + [sentences[2]];
    assert [sentences[0], sentences[1]] == [sentences[0]] + [sentences[1]];
    assert Sentences.GoodSentence(u, sentences[0]) && Sentences.GoodSentence(u, sentences[1]);
    assert Sentences.GoodSentence(u, sentences[2]);
  }

  /** One or two sentences are the summary exactly if they are long enough on their own. */
  lemma FewSentencesMayBeASummary(sentences: seq<string>, content: string)
    ensures sentences == [] ==> BuildSummary(sentences, content) == TruncateChars(content, 900)
    ensures |sentences| == 1 ==>
      var lead := sentences[0];
      BuildSummary(sentences, content) == TruncateChars(if |lead| >= 80 then lead else content, 900)
    ensures |sentences| == 2 ==>
      var lead := sentences[0] + " " + sentences[1];
      BuildSummary(sentences, content) == TruncateChars(if |lead| >= 80 then lead else content, 900)
  {
    if |sentences| == 1 {
      assert sentences == [sentences[0]];
    } else if |sentences| == 2 {
      assert sentences == [sentences[0]] + [sentences[1]];
      JoinSnoc([sentences[0]], sentences[1], " ");
    }
  }

  function HeadingsOf(u: Unicode, decode: string -> string, html: string): string -> seq<string> {
    tag => Take(TagTexts.TagTextsOf(u, decode, html, tag), HEADINGS_PER_TAG)
  }

  const HEADING_TAGS: seq<string> := ["h1", "h2", "h3"]

  function Headings(u: Unicode, decode: string -> string, html: string): seq<string> {
    Take(Firsts(FlatMap(HEADING_TAGS, HeadingsOf(u, decode, html)), AsciiLower), MAX_HEADINGS)
  }

  lemma ThreeTags(f: string -> seq<string>)
    ensures FlatMap(HEADING_TAGS, f) == f("h1") + f("h2") + f("h3")
  {
    FlatMapOne("h1", f);
    FlatMapConcat(["h1"], ["h2"], f);
    FlatMapOne("h2", f);
    FlatMapConcat(["h1", "h2"], ["h3"], f);
    FlatMapOne("h3", f);
    assert HEADING_TAGS == (["h1"] + ["h2"]) + ["h3"] && ["h1", "h2"] == ["h1"] + ["h2"];
  }

  /** At most twelve texts of each of the three tags, in tag order, without repeats, 24 in all. */
  lemma HeadingsAre(u: Unicode, decode: string -> string, html: string)
    ensures Headings(u, decode, html) == Take(Firsts(
      Take(TagTexts.TagTextsOf(u, decode, html, "h1"), 12) + Take(TagTexts.TagTextsOf(u, decode, html, "h2"), 12)
      + Take(TagTexts.TagTextsOf(u, decode, html, "h3"), 12), AsciiLower), 24)
  {
    ThreeTags(HeadingsOf(u, decode, html));
  }

  method CollectTexts(u: Unicode, decode: string -> string, html: string, tags: seq<string>) returns (all: seq<string>)
    requires forall tag :: tag in tags ==> '<' !in tag
    ensures all == FlatMap(tags, HeadingsOf(u, decode, html))
  {
    all := [];
    for i := 0 to |tags|
      invariant all == FlatMap(tags[..i], HeadingsOf(u, decode, html))
    {
      var texts := TagTexts.ExtractTagTexts(u, decode, html, tags[i], HEADINGS_PER_TAG);
      TakeSnoc(tags, i);
      FlatMapConcat(tags[..i], [tags[i]], HeadingsOf(u, decode, html));
      FlatMapOne(tags[i], HeadingsOf(u, decode, html));
      all := all + texts;
    }
    TakeAll(tags);
  }

  method CollectHeadings(u: Unicode, decode: string -> string, html: string) returns (headings: seq<string>)
    ensures headings == Headings(u, decode, html)
  {
    var all := CollectTexts(u, decode, html, HEADING_TAGS);
    var kept := Dedupe(all, AsciiLower);
    headings := Take(kept, MAX_HEADINGS);
  }

  function First(texts: seq<string>): Option<string> {
    if texts == [] then None else Some(texts[0])
  }

  /** Which title and headings belong to a document's markup. */
  ghost predicate MarkupParts(u: Unicode, decode: string -> string, html: Option<string>,
                              title: Option<string>, headings: seq<string>) {
    && title == (if html.None? then None else First(Take(TagTexts.TagTextsOf(u, decode, html.value, "title"), 1)))
    && headings == (if html.None? then [] else Headings(u, decode, html.value))
  }

  ghost predicate SentenceParts(u: Unicode, content: string, sentences: seq<string>, summary: string) {
    && sentences == Firsts(Take(Sentences.Good(u, Sentences.Pieces(content)), 48), AsciiLower)
    && summary == BuildSummary(sentences, content)
  }

  ghost predicate TermParts(u: Unicode, stopwords: set<string>, content: string,
                            keywords: seq<string>, entities: seq<string>) {
    && BestOf(Keywords.KeywordsOf(u, stopwords, Keywords.Tokens(u, content)), 32, keywords)
    && BestOf(Entities.Candidates(Entities.Phrases(u, Entities.Tokens(u, Words(u, content)))), 32, entities)
  }

  /** Which parts belong to a document. */
  ghost predicate PartsOf(u: Unicode, stopwords: set<string>, decode: string -> string, html: Option<string>,
                          p: Parts)
  {
    match p
    case Parts(title, headings, summary, entities, keywords, sentences, _, content) =>
      && MarkupParts(u, decode, html, title, headings)
      && SentenceParts(u, content, sentences, summary)
      && TermParts(u, stopwords, content, keywords, entities)
  }

  method ReadMarkup(u: Unicode, decode: string -> string, html: Option<string>)
    returns (title: Option<string>, headings: seq<string>)
    ensures MarkupParts(u, decode, html, title, headings)
  {
    if html.None? {
      return None, [];
    }
    var titles := TagTexts.ExtractTagTexts(u, decode, html.value, "title", 1);
    title := First(titles);
    headings := CollectHeadings(u, decode, html.value);
  }

  method ReadSentences(u: Unicode, content: string) returns (sentences: seq<string>, summary: string)
    ensures SentenceParts(u, content, sentences, summary)
  {
    sentences := Sentences.CompleteSentences(u, content, MAX_SENTENCES);
    summary := BuildSummary(sentences, content);
  }

  method ReadTerms(u: Unicode, stopwords: set<string>, content: string)
    returns (keywords: seq<string>, entities: seq<string>)
    requires Keywords.ApostropheIsNoLetter(u)
    ensures TermParts(u, stopwords, content, keywords, entities)
  {
    keywords := Keywords.ExtractKeywords(u, stopwords, content, MAX_TERMS);
    entities := Entities.ExtractEntities(u, content, MAX_TERMS);
  }

  function Assemble(u: Unicode, stopwords: set<string>, decode: string -> string, html: Option<string>,
                    title: Option<string>, headings: seq<string>, summary: string, entities: seq<string>,
                    keywords: seq<string>, sentences: seq<string>, signal: Option<string>, content: string): (p: Parts)
    requires MarkupParts(u, decode, html, title, headings)
    requires SentenceParts(u, content, sentences, summary)
    requires TermParts(u, stopwords, content, keywords, entities)
    ensures PartsOf(u, stopwords, decode, html, p)
  {
    Parts(title, headings, summary, entities, keywords, sentences, signal, content)
  }

  method ReadParts(u: Unicode, stopwords: set<string>, decode: string -> string, html: Option<string>,
                   content: string, signal: Option<string>) returns (p: Parts)
    requires Keywords.ApostropheIsNoLetter(u)
    ensures PartsOf(u, stopwords, decode, html, p)
    ensures p.content == content && p.signal == signal
  {
    var title, headings := ReadMarkup(u, decode, html);
    var sentences, summary := ReadSentences(u, content);
    var keywords, entities := ReadTerms(u, stopwords, content);
    p := Assemble(u, stopwords, decode, html, title, headings, summary, entities, keywords, sentences, signal, content);
  }

  lemma TermsAreBounded(u: Unicode, stopwords: set<string>, content: string,
                        keywords: seq<string>, entities: seq<string>)
    requires TermParts(u, stopwords, content, keywords, entities)
    ensures |keywords| <= MAX_TERMS && |entities| <= MAX_TERMS
  {
  }

  /** The parts of a document are never too many. */
  lemma PartsAreBounded(u: Unicode, stopwords: set<string>, decode: string -> string, html: Option<string>, p: Parts)
    requires PartsOf(u, stopwords, decode, html, p)
    ensures Bounded(p)
  {
    TermsAreBounded(u, stopwords, p.content, p.keywords, p.entities);
    FirstsMeaning(Take(Sentences.Good(u, Sentences.Pieces(p.content)), MAX_SENTENCES), AsciiLower);
  }

  lemma TitleIsFirst(u: Unicode, decode: string -> string, html: string, title: Option<string>, headings: seq<string>,
                     titles: seq<string>)
    requires MarkupParts(u, decode, Some(html), title, headings)
    requires titles == TagTexts.TagTextsOf(u, decode, html, "title")
    ensures title == (if titles == [] then None else Some(titles[0])) && headings == Headings(u, decode, html)
  {
  }

  /** The markup's parts are the first text of the title element and the headings. */
  lemma MarkupPartsAre(u: Unicode, stopwords: set<string>, decode: string -> string, html: Option<string>, p: Parts)
    requires PartsOf(u, stopwords, decode, html, p)
    ensures html.None? ==> p.title == None && p.headings == []
    ensures html.Some? ==>
      var titles := TagTexts.TagTextsOf(u, decode, html.value, "title");
      && p.title == (if titles == [] then None else Some(titles[0]))
      && p.headings == Headings(u, decode, html.value)
  {
    if html.Some? {
      TitleIsFirst(u, decode, html.value, p.title, p.headings, TagTexts.TagTextsOf(u, decode, html.value, "title"));
    }
  }

  /** The content's parts are the first 48 good sentences, without repeats, the summary of these,
      and the best 32 keywords and entities. */
  lemma ContentPartsAre(u: Unicode, stopwords: set<string>, decode: string -> string, html: Option<string>, p: Parts)
    requires PartsOf(u, stopwords, decode, html, p)
    ensures p.sentences == Firsts(Take(Sentences.Good(u, Sentences.Pieces(p.content)), 48), AsciiLower)
    ensures p.summary == BuildSummary(p.sentences, p.content)
    ensures BestOf(Keywords.KeywordsOf(u, stopwords, Keywords.Tokens(u, p.content)), 32, p.keywords)
    ensures BestOf(Entities.Candidates(Entities.Phrases(u, Entities.Tokens(u, Words(u, p.content)))), 32, p.entities)
  {
  }

  // ---------- the document ----------

  datatype SemanticDocument = SemanticDocument(
    title: Option<string>, content: string, keywords: seq<string>, entities: seq<string>, inputs: seq<Input>)

  datatype ExtractError = NoText(text: TextError) | BadInput(input: InputError)

  function Validate(u: Unicode, d: SemanticDocument): Option<InputError> {
    if Trim(d.content, u.isSpace) == "" then Some(EmptyContent)
    else if d.inputs == [] || |d.inputs| > MAX_INPUTS then Some(InvalidEmbeddingInputs)
    else if forall i :: 0 <= i < |d.inputs| ==> ValidInput(u, d.inputs[i]) then None
    else Some(InvalidEmbeddingInput)
  }

  /** What a consumer can rely on: acceptable inputs, none too short, no text twice in any
      ASCII case. */
  ghost predicate Delivered(u: Unicode, inputs: seq<Input>) {
    && Acceptable(u, inputs) && |inputs| <= 86
    && (forall i :: 0 <= i < |inputs| ==> 3 <= |inputs[i].text| <= 700)
    && (forall i :: 0 <= i < |inputs| ==> !u.isSpace(inputs[i].text[|inputs[i].text| - 1]))
    && (forall i, k :: 0 <= i < k < |inputs| ==> TextKey(inputs[i]) != TextKey(inputs[k]))
  }

  lemma NumberedAreDelivered(u: Unicode, inputs: seq<Input>)
    requires 1 <= |inputs| <= MAX_PUSHED
    requires forall input :: input in inputs ==> Sound(u, input)
    requires forall i, k :: 0 <= i < k < |inputs| ==> TextKey(inputs[i]) != TextKey(inputs[k])
    ensures Delivered(u, Number(inputs))
  {
    var r := Number(inputs);
    forall i | 0 <= i < |r|
      ensures Sound(u, r[i]) && r[i].ordinal == i && TextKey(r[i]) == TextKey(inputs[i])
    {
      assert Sound(u, inputs[i]);
    }
  }

  /** The producer meets the consumer's contract, and the cut at 96 drops nothing. */
  lemma ProducerMeetsConsumer(u: Unicode, p: Parts, pushed: seq<Input>, inputs: seq<Input>)
    requires Sane(u) && Bounded(p) && pushed == Pushed(u, Views(p)) && inputs == Firsts(pushed, TextKey)
    ensures Take(inputs, MAX_INPUTS) == inputs && (inputs == [] <==> pushed == [])
    ensures pushed != [] ==> Delivered(u, Number(inputs))
  {
    var views := Views(p);
    ViewsAreFew(p);
    PushedCount(u, views);
    FirstsMeaning(pushed, TextKey);
    forall input | input in inputs
      ensures Sound(u, input)
    {
      PushedAreSound(u, views, input);
    }
    if pushed != [] {
      NumberedAreDelivered(u, inputs);
    }
  }

  /** A text of three characters that is in normal form is always pushed as the document view. */
  lemma DocumentViewIsPushed(u: Unicode, p: Parts)
    requires Sane(u) && Normal(u, p.content) == p.content && |p.content| >= MIN_INPUT_CHARS
    ensures Pushed(u, Views(p)) != []
  {
    var short := TruncateChars(p.content, 2_000);
    if |p.content| > 2_000 {
      var cut := p.content[..1_999];
      NormalOfPrefix(u, p.content, 1_999);
      NormalSnoc(u, cut, ELLIPSIS);
      assert short == cut + [ELLIPSIS];
    }
    assert LongEnough(u, short);
    var views := Views(p);
    var front := views[..|views| - 1];
    assert views[|views| - 1] == View(Document, short, 0.75);
    assert Pushed(u, views) == Pushed(u, front) + PushedOne(u)(views[|views| - 1]);
  }

  /** The document with these parts: every pushed text once, numbered in order. */
  function DocumentOf(u: Unicode, p: Parts): SemanticDocument {
    SemanticDocument(p.title, p.content, p.keywords, p.entities, Number(Firsts(Pushed(u, Views(p)), TextKey)))
  }

  /** The document shows these parts: its title and terms are theirs, and its inputs cover them. */
  ghost predicate Documents(u: Unicode, p: Parts, d: SemanticDocument) {
    && d.title == p.title && d.content == p.content && d.keywords == p.keywords && d.entities == p.entities
    && Covers(u, p, d.inputs)
  }

  /** No text of the plan has three characters. */
  ghost predicate NothingToShow(u: Unicode, p: Parts) {
    forall at: Place {:trigger TextAt(p, at)} :: TextAt(p, at).Some? ==> |Shown(u, TextAt(p, at).value)| < 3
  }

  lemma DocumentShowsItsParts(u: Unicode, p: Parts, pushed: seq<Input>)
    requires pushed == Pushed(u, Views(p))
    ensures Documents(u, p, DocumentOf(u, p))
    ensures pushed == [] <==> NothingToShow(u, p)
  {
    var inputs := Number(Firsts(pushed, TextKey));
    FirstsMeaning(pushed, TextKey);
    PlanIsCovered(u, p, inputs);
    var from :| StandsFor(u, p, inputs, from);
    if pushed == [] {
      forall at: Place | TextAt(p, at).Some?
        ensures |Shown(u, TextAt(p, at).value)| < 3
      {
        assert |Shown(u, TextAt(p, at).value)| >= 3 ==> ShownFor(inputs, from, Shown(u, TextAt(p, at).value), at);
      }
    } else {
      assert InputFor(u, p, inputs[0], from[0], 0);
    }
  }

  lemma NormalIsNotBlank(u: Unicode, content: string)
    requires Normal(u, content) == content
    ensures Trim(content, u.isSpace) == "" <==> content == ""
  {
    NormalEnds(u, content);
    TrimIsEmpty(content, u.isSpace);
  }

  lemma DocumentIsValid(u: Unicode, d: SemanticDocument)
    requires Trim(d.content, u.isSpace) != ""
    requires d.inputs != [] ==> Delivered(u, d.inputs)
    ensures Validate(u, d) == if d.inputs == [] then Some(InvalidEmbeddingInputs) else None
  {
  }

  method CheckDocument(u: Unicode, p: Parts, numbered: Result<seq<Input>, InputError>)
    returns (r: Result<SemanticDocument, InputError>)
    requires Trim(p.content, u.isSpace) != ""
    requires numbered.Ok? && numbered.value != [] ==> Delivered(u, numbered.value)
    ensures r == match numbered
                 case Err(e) => Err(e)
                 case Ok(inputs) =>
                   if inputs == [] then Err(InvalidEmbeddingInputs)
                   else Ok(SemanticDocument(p.title, p.content, p.keywords, p.entities, inputs))
  {
    match numbered
    case Err(e) =>
      r := Err(e);
    case Ok(inputs) =>
      var document := SemanticDocument(p.title, p.content, p.keywords, p.entities, inputs);
      DocumentIsValid(u, document);
      var error := Validate(u, document);
      r := if error.Some? then Err(error.value) else Ok(document);
  }

  /** From the parts to the checked document. */
  method BuildDocument(u: Unicode, p: Parts) returns (r: Result<SemanticDocument, InputError>)
    requires Sane(u) && Bounded(p) && p.content != "" && Normal(u, p.content) == p.content
    ensures r == if Pushed(u, Views(p)) == [] then Err(InvalidEmbeddingInputs) else Ok(DocumentOf(u, p))
    ensures r.Err? <==> NothingToShow(u, p)
    ensures r.Ok? ==> Delivered(u, r.value.inputs) && Documents(u, p, r.value)
    ensures |p.content| >= MIN_INPUT_CHARS ==> r.Ok?
  {
    var pushed := PushViews(u, p);
    var inputs := Dedupe(pushed, TextKey);
    ProducerMeetsConsumer(u, p, pushed, inputs);
    DocumentShowsItsParts(u, p, pushed);
    var kept := Take(inputs, MAX_INPUTS);
    var numbered := SetOrdinals(kept);
    NormalIsNotBlank(u, p.content);
    if |p.content| >= MIN_INPUT_CHARS {
      DocumentViewIsPushed(u, p);
    }
    r := CheckDocument(u, p, numbered);
  }

  /** What comes of content in normal form. Three or more characters always give a document. */
  ghost predicate Extracted(u: Unicode, content: string, r: Result<SemanticDocument, ExtractError>, p: Parts) {
    if content == "" then r == Err(BadInput(EmptyContent))
    else
      && p.content == content
      && r == (if Pushed(u, Views(p)) == [] then Err(BadInput(InvalidEmbeddingInputs)) else Ok(DocumentOf(u, p)))
      && (|content| >= MIN_INPUT_CHARS ==> r.Ok?)
      && (r.Ok? ==> Delivered(u, r.value.inputs) && Documents(u, p, r.value))
      && (r.Err? <==> NothingToShow(u, p))
  }

  method ExtractParts(u: Unicode, p: Parts) returns (r: Result<SemanticDocument, ExtractError>)
    requires Sane(u) && Bounded(p) && p.content != "" && Normal(u, p.content) == p.content
    ensures Extracted(u, p.content, r, p)
  {
    var document := BuildDocument(u, p);
    r := if document.Err? then Err(BadInput(document.error)) else Ok(document.value);
  }

  method ExtractFrom(u: Unicode, stopwords: set<string>, decode: string -> string, html: Option<string>,
                     content: string, signal: Option<string>)
    returns (r: Result<SemanticDocument, ExtractError>, ghost p: Parts)
    requires Sane(u) && Keywords.ApostropheIsNoLetter(u) && Normal(u, content) == content
    ensures Extracted(u, content, r, p)
    ensures content != "" ==> PartsOf(u, stopwords, decode, html, p) && p.signal == signal
  {
    NormalIsNotBlank(u, content);
    if Trim(content, u.isSpace) == "" {
      return Err(BadInput(EmptyContent)), Parts(None, [], "", [], [], [], None, "");
    }
    var parts := ReadParts(u, stopwords, decode, html, content, signal);
    p := parts;
    PartsAreBounded(u, stopwords, decode, html, p);
    r := ExtractParts(u, parts);
  }

  /** The content is readable at all. */
  predicate Readable(base: string, parsed: Option<Json>) {
    IsJson(base) ==> parsed.Some? && Fits(parsed.value, 0, 0)
  }

  /** The extraction, with the parts it found. */
  method ExtractWithParts(u: Unicode, stopwords: set<string>, decode: string -> string, contentType: string,
                          body: string, parsed: Option<Json>, signal: Option<string>)
    returns (r: Result<SemanticDocument, ExtractError>, ghost p: Parts)
    requires Sane(u) && Keywords.ApostropheIsNoLetter(u)
    ensures var base := BaseType(u, contentType); var content := Normal(u, decode(RawText(base, body, parsed)));
      && (r.Err? && r.error.NoText? <==> !Readable(base, parsed))
      && (Readable(base, parsed) ==> Extracted(u, content, r, p))
      && (Readable(base, parsed) && content != "" ==>
          PartsOf(u, stopwords, decode, if IsHtml(base) then Some(body) else None, p) && p.signal == signal)
  {
    var text := ExtractText(u, decode, contentType, body, parsed);
    if text.Err? {
      return Err(NoText(text.error)), Parts(None, [], "", [], [], [], None, "");
    }
    var html := if IsHtml(BaseType(u, contentType)) then Some(body) else None;
    r, p := ExtractFrom(u, stopwords, decode, html, text.value, signal);
  }

  /** What a caller sees of an extraction, whatever the parts were. */
  ghost predicate Answered(u: Unicode, content: string, r: Result<SemanticDocument, ExtractError>) {
    && (r == Err(BadInput(EmptyContent)) <==> content == "")
    && (|content| >= MIN_INPUT_CHARS ==> r.Ok?)
    && (r.Ok? ==> r.value.content == content && Delivered(u, r.value.inputs))
    && (r.Err? ==> r.error.BadInput?)
  }

  lemma ExtractedIsAnswered(u: Unicode, content: string, r: Result<SemanticDocument, ExtractError>, p: Parts)
    requires Extracted(u, content, r, p)
    ensures Answered(u, content, r)
  {
  }

  /** The whole extraction: three or more characters always give a document, and every document
      given meets the consumer's contract. */
  method ExtractSemanticDocument(u: Unicode, stopwords: set<string>, decode: string -> string, contentType: string,
                                 body: string, parsed: Option<Json>, signal: Option<string>)
    returns (r: Result<SemanticDocument, ExtractError>)
    requires Sane(u) && Keywords.ApostropheIsNoLetter(u)
    ensures var base := BaseType(u, contentType);
      if Readable(base, parsed) then Answered(u, Normal(u, decode(RawText(base, body, parsed))), r)
      else r.Err? && r.error.NoText?
    ensures var base := BaseType(u, contentType);
      r.Ok? ==> exists p ::
        && PartsOf(u, stopwords, decode, if IsHtml(base) then Some(body) else None, p) && p.signal == signal
        && Documents(u, p, r.value)
  {
    ghost var p;
    r, p := ExtractWithParts(u, stopwords, decode, contentType, body, parsed, signal);
    ghost var base := BaseType(u, contentType);
    if Readable(base, parsed) {
      ExtractedIsAnswered(u, Normal(u, decode(RawText(base, body, parsed))), r, p);
    }
  }
}
