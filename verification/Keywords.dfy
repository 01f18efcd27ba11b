/** Lower-cased word tokens, and the keywords chosen from them. */
module Keywords {
  import opened Texts
  import opened Lists
  import opened Ranking

  const APOSTROPHE: char := '\''

  function WordChar(u: Unicode): char -> bool {
    c => u.isAlphanumeric(c) || c == APOSTROPHE
  }

  predicate IsApostrophe(c: char) { c == APOSTROPHE }

  function Lower(u: Unicode, s: string): string {
    if s == "" then "" else Lower(u, s[..|s| - 1]) + u.lower(s[|s| - 1])
  }

  /** A token is a run of letters, digits and apostrophes without its leading apostrophes,
      in lower case. */
  function TokenOf(u: Unicode): string -> seq<string> {
    run =>
      var word := TrimStart(run, IsApostrophe);
      if word == "" then [] else [Lower(u, word)]
  }

  function TokensOf(u: Unicode, runs: seq<string>): seq<string> {
    FlatMap(runs, TokenOf(u))
  }

  function Tokens(u: Unicode, text: string): seq<string> {
    TokensOf(u, Runs(text, WordChar(u)))
  }

  ghost predicate ApostropheIsNoLetter(u: Unicode) {
    !u.isAlphanumeric(APOSTROPHE) && LowersToSomething(u)
  }

  lemma LowerSnoc(u: Unicode, s: string, c: char)
    ensures Lower(u, s + [c]) == Lower(u, s) + u.lower(c) && Lower(u, "") == ""
  {
    assert (s + [c])[..|s|] == s;
  }

  lemma LowerEmpty(u: Unicode, s: string)
    requires LowersToSomething(u)
    ensures Lower(u, s) == "" <==> s == ""
  {
  }

  lemma {:induction false} TrimStartSnoc(s: string, c: char)
    ensures TrimStart(s + [c], IsApostrophe) ==
      if TrimStart(s, IsApostrophe) == "" && IsApostrophe(c) then ""
      else TrimStart(s, IsApostrophe) + [c]
  {
    if s == "" {
      assert s + [c] == [c];
    } else if IsApostrophe(s[0]) {
      assert (s + [c])[1..] == s[1..] + [c];
      TrimStartSnoc(s[1..], c);
    }
  }

  ghost function FinishedOf(u: Unicode, runs: seq<string>, open: bool): seq<string>
    requires open ==> runs != []
  {
    if open then TokensOf(u, runs[..|runs| - 1]) else TokensOf(u, runs)
  }

  /** The text read so far, as the loop holds it: the finished tokens and the open one. */
  ghost function Finished(u: Unicode, text: string): seq<string> {
    FinishedOf(u, Runs(text, WordChar(u)), Open(text, WordChar(u)))
  }

  ghost function OpenWordOf(runs: seq<string>, open: bool): string
    requires open ==> runs != []
  {
    if open then TrimStart(runs[|runs| - 1], IsApostrophe) else ""
  }

  ghost function OpenWord(u: Unicode, text: string): string {
    OpenWordOf(Runs(text, WordChar(u)), Open(text, WordChar(u)))
  }

  lemma GrowOpenWord(u: Unicode, runs: seq<string>, open: bool, c: char)
    requires open ==> runs != []
    ensures FinishedOf(u, Grow(runs, open, c), true) == FinishedOf(u, runs, open)
    ensures OpenWordOf(Grow(runs, open, c), true) ==
      if OpenWordOf(runs, open) == "" && IsApostrophe(c) then "" else OpenWordOf(runs, open) + [c]
  {
    var after := Grow(runs, open, c);
    if open {
      var front := runs[..|runs| - 1];
      assert after[..|after| - 1] == front;
      TrimStartSnoc(runs[|runs| - 1], c);
    } else {
      assert after[..|after| - 1] == runs;
      TrimStartSnoc("", c);
      assert "" + [c] == [c];
    }
  }

  lemma OpenWordGrows(u: Unicode, text: string, c: char)
    requires WordChar(u)(c)
    ensures Finished(u, text + [c]) == Finished(u, text)
    ensures OpenWord(u, text + [c]) ==
      if OpenWord(u, text) == "" && IsApostrophe(c) then "" else OpenWord(u, text) + [c]
  {
    RunsSnoc(text, c, WordChar(u));
    GrowOpenWord(u, Runs(text, WordChar(u)), Open(text, WordChar(u)), c);
  }

  lemma OpenWordEnds(u: Unicode, text: string, c: char)
    requires !WordChar(u)(c)
    ensures OpenWord(u, text + [c]) == "" && Finished(u, text + [c]) == Tokens(u, text)
  {
    RunsSnoc(text, c, WordChar(u));
  }

  lemma TokensAreFinishedAndOpen(u: Unicode, text: string)
    ensures Tokens(u, text) ==
      Finished(u, text) + (if OpenWord(u, text) == "" then [] else [Lower(u, OpenWord(u, text))])
  {
  }

  /** Whatever is no letter, digit or apostrophe separates tokens. */
  lemma TokensSplit(u: Unicode, a: string, sep: char, b: string)
    requires !u.isAlphanumeric(sep) && sep != '\''
    ensures Tokens(u, a + [sep] + b) == Tokens(u, a) + Tokens(u, b)
  {
    RunsSplit(a, sep, b, WordChar(u));
    FlatMapConcat(Runs(a, WordChar(u)), Runs(b, WordChar(u)), TokenOf(u));
  }

  /** Letters, digits and apostrophes without a separator are one token, without its leading
      apostrophes and in lower case. */
  lemma OneToken(u: Unicode, quotes: string, word: string)
    requires (forall c :: c in quotes ==> c == '\'') && (word != "" ==> word[0] != '\'')
    requires forall c :: c in word ==> u.isAlphanumeric(c) || c == '\''
    ensures Tokens(u, quotes + word) == if word == "" then [] else [Lower(u, word)]
  {
    var all := quotes + word;
    forall i | 0 <= i < |all|
      ensures WordChar(u)(all[i])
    {
      assert all[i] in quotes || all[i] in word;
    }
    RunsOfRun(all, WordChar(u));
    TrimStartIs(quotes, word, IsApostrophe);
    if all != "" {
      FlatMapOne(all, TokenOf(u));
    }
  }

  /** The token being read and those read before stand for the text so far. */
  ghost predicate Reads(u: Unicode, text: string, current: string, tokens: seq<string>) {
    current == Lower(u, OpenWord(u, text)) && tokens == Finished(u, text)
  }

  lemma ReadsNothing(u: Unicode)
    ensures Reads(u, "", "", [])
  {
  }

  /** One turn of the loop. */
  method ReadChar(u: Unicode, ghost text: string, c: char, current: string, tokens: seq<string>)
    returns (longer: string, more: seq<string>)
    requires ApostropheIsNoLetter(u) && Reads(u, text, current, tokens)
    ensures Reads(u, text + [c], longer, more)
  {
    longer, more := current, tokens;
    LowerEmpty(u, OpenWord(u, text));
    if u.isAlphanumeric(c) || (c == APOSTROPHE && current != "") {
      OpenWordGrows(u, text, c);
      LowerSnoc(u, OpenWord(u, text), c);
      longer := current + u.lower(c);
    } else {
      if c == APOSTROPHE {
        OpenWordGrows(u, text, c);
      } else {
        OpenWordEnds(u, text, c);
        TokensAreFinishedAndOpen(u, text);
      }
      if current != "" {
        more := tokens + [current];
        longer := "";
      }
    }
  }

  /** The tokenizer's loop. */
  method NormalizedTokens(u: Unicode, text: string) returns (tokens: seq<string>)
    requires ApostropheIsNoLetter(u)
    ensures tokens == Tokens(u, text)
  {
    tokens := [];
    var current := "";
    ghost var read := "";
    ReadsNothing(u);
    for i := 0 to |text|
      invariant read == text[..i] && Reads(u, read, current, tokens)
    {
      current, tokens := ReadChar(u, read, text[i], current, tokens);
      TakeSnoc(text, i);
      read := read + [text[i]];
    }
    TakeAll(text);
    LowerEmpty(u, OpenWord(u, text));
    TokensAreFinishedAndOpen(u, text);
    if current != "" {
      tokens := tokens + [current];
    }
  }

  // ---------- keywords ----------

  /** `stopwords` is the word list of the source. */
  predicate Keyword(u: Unicode, stopwords: set<string>, token: string) {
    |token| >= 3 && token !in stopwords && !AllNumeric(u, token)
  }

  function KeywordsOf(u: Unicode, stopwords: set<string>, tokens: seq<string>): seq<string> {
    if tokens == [] then []
    else
      var t := tokens[|tokens| - 1];
      KeywordsOf(u, stopwords, tokens[..|tokens| - 1]) + (if Keyword(u, stopwords, t) then [t] else [])
  }

  lemma {:induction false} KeywordsAreKeywords(u: Unicode, stopwords: set<string>, tokens: seq<string>, k: string)
    requires k in KeywordsOf(u, stopwords, tokens)
    ensures Keyword(u, stopwords, k)
  {
    var rest := tokens[..|tokens| - 1];
    if k in KeywordsOf(u, stopwords, rest) {
      KeywordsAreKeywords(u, stopwords, rest, k);
    }
  }

  /** A token counts if it has three characters, is no stopword and not all numeric. */
  lemma KeywordsOfSnoc(u: Unicode, stopwords: set<string>, tokens: seq<string>, i: nat)
    requires i < |tokens|
    ensures KeywordsOf(u, stopwords, tokens[..i + 1]) ==
      if |tokens[i]| >= 3 && tokens[i] !in stopwords && (exists k :: 0 <= k < |tokens[i]| && !u.isNumeric(tokens[i][k]))
      then KeywordsOf(u, stopwords, tokens[..i]) + [tokens[i]]
      else KeywordsOf(u, stopwords, tokens[..i])
    ensures KeywordsOf(u, stopwords, tokens[..0]) == []
  {
    assert tokens[..i + 1][..i] == tokens[..i];
  }

  method CountKeywords(u: Unicode, stopwords: set<string>, tokens: seq<string>) returns (counts: map<string, nat>)
    ensures Counts(counts, KeywordsOf(u, stopwords, tokens))
  {
    counts := map[];
    ghost var list: seq<string> := [];
    for i := 0 to |tokens|
      invariant list == KeywordsOf(u, stopwords, tokens[..i]) && Counts(counts, list)
    {
      var token := tokens[i];
      KeywordsOfSnoc(u, stopwords, tokens, i);
      if |token| < 3 || token in stopwords || AllNumeric(u, token) {
        continue;
      }
      counts := Count(counts, token, list);
      list := list + [token];
    }
    TakeAll(tokens);
  }

  /** The best ranked keywords, up to the limit. */
  method ExtractKeywords(u: Unicode, stopwords: set<string>, text: string, limit: nat)
    returns (keywords: seq<string>)
    requires ApostropheIsNoLetter(u)
    ensures |keywords| <= limit
    ensures BestOf(KeywordsOf(u, stopwords, Tokens(u, text)), limit, keywords)
    ensures forall k :: k in keywords ==>
      |k| >= 3 && k !in stopwords && exists i :: 0 <= i < |k| && !u.isNumeric(k[i])
  {
    var tokens := NormalizedTokens(u, text);
    var counts := CountKeywords(u, stopwords, tokens);
    var ranked := SortByRank(counts);
    keywords := Take(ranked, limit);
    forall k | k in keywords
      ensures Keyword(u, stopwords, k)
    {
      assert k in ranked && k in counts && k in KeywordsOf(u, stopwords, tokens);
      KeywordsAreKeywords(u, stopwords, tokens, k);
    }
  }
}
