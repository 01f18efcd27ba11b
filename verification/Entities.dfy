/** Entity phrases: runs of capitalised tokens, cut into groups of five, counted and ranked. */
module Entities {
  import opened Texts
  import opened Lists
  import opened Whitespace
  import opened Ranking

  type Phrase = seq<string>

  const GROUP: nat := 5

  // ---------- tokens ----------

  function TokenEdge(u: Unicode): char -> bool {
    c => !u.isAlphanumeric(c) && c != '-' && c != '\''
  }

  function CountIf(s: string, p: char -> bool): nat {
    if s == "" then 0 else (if p(s[0]) then 1 else 0) + CountIf(s[1..], p)
  }

  function UpperLetter(u: Unicode): char -> bool {
    c => u.isAlphabetic(c) && u.isUppercase(c)
  }

  predicate IsEntityToken(u: Unicode, token: string) {
    && |token| >= 2
    && !AllNumeric(u, token)
    && u.isUppercase(token[0])
    && var letters, uppercase := CountIf(token, u.isAlphabetic), CountIf(token, UpperLetter(u));
       uppercase == 1 || (uppercase == letters && letters <= 8)
  }

  function EntityToken(u: Unicode): string -> bool {
    t => IsEntityToken(u, t)
  }

  predicate IsCommonSentenceLead(candidate: string) {
    candidate in {"A", "An", "And", "But", "For", "How", "In", "It", "On", "Or", "The", "This",
                  "To", "We", "What", "When", "Where", "Why", "You"}
  }

  function Tokens(u: Unicode, words: seq<string>): (r: seq<string>)
    ensures |r| == |words|
    ensures forall i :: 0 <= i < |words| ==> r[i] == Trim(words[i], TokenEdge(u))
  {
    seq(|words|, i requires 0 <= i < |words| => Trim(words[i], TokenEdge(u)))
  }

  // ---------- the phrases the design means ----------

  function Groups(run: Phrase): seq<Phrase> {
    Chunks(run, GROUP)
  }

  function AllGroups(runs: seq<Phrase>): seq<Phrase> {
    FlatMap(runs, Groups)
  }

  /** Maximal runs of entity tokens, each cut into groups of five. */
  function Phrases(u: Unicode, tokens: seq<string>): seq<Phrase> {
    AllGroups(Runs(tokens, EntityToken(u)))
  }

  predicate Accepted(phrase: Phrase) {
    var candidate := Join(phrase, " ");
    |candidate| >= 3 && !IsCommonSentenceLead(candidate)
  }

  /** The phrases that count, as text. */
  function Candidates(phrases: seq<Phrase>): seq<string> {
    if phrases == [] then []
    else
      var rest, last := phrases[..|phrases| - 1], phrases[|phrases| - 1];
      Candidates(rest) + (if Accepted(last) then [Join(last, " ")] else [])
  }

  // ---------- what tokens, groups and candidates are ----------

  lemma {:induction false} OneForOne(there: set<nat>, moved: set<nat>)
    requires forall i: nat :: i in moved <==> i > 0 && i - 1 in there
    ensures |moved| == |there|
  {
    if x :| x in there {
      OneForOne(there - {x}, moved - {x + 1});
    } else {
      assert moved == {};
    }
  }

  /** The places of the characters that qualify. */
  ghost function Where(s: string, p: char -> bool): set<nat> {
    set i: nat | i < |s| && p(s[i])
  }

  lemma {:induction false} CountIfIsNumber(s: string, p: char -> bool)
    ensures CountIf(s, p) == |Where(s, p)|
  {
    if s == "" {
      assert Where(s, p) == {};
    } else {
      CountIfIsNumber(s[1..], p);
      var behind := Where(s, p) - {0};
      OneForOne(Where(s[1..], p), behind);
      assert Where(s, p) == if p(s[0]) then behind + {0} else behind;
    }
  }

  /** An entity token has two characters, is not all numeric, and begins with a capital; either
      that is its only capital letter, or it is at most eight letters, all of them capital. */
  lemma EntityTokenIs(u: Unicode, token: string)
    ensures IsEntityToken(u, token) <==>
      && |token| >= 2 && u.isUppercase(token[0]) && (exists k :: 0 <= k < |token| && !u.isNumeric(token[k]))
      && var letters := set i: nat | i < |token| && u.isAlphabetic(token[i]);
         var capitals := set i: nat | i < |token| && u.isAlphabetic(token[i]) && u.isUppercase(token[i]);
      && (|capitals| == 1 || (|capitals| == |letters| && |letters| <= 8))
  {
    CountIfIsNumber(token, u.isAlphabetic);
    CountIfIsNumber(token, UpperLetter(u));
    assert Where(token, u.isAlphabetic) == set i: nat | i < |token| && u.isAlphabetic(token[i]);
    assert Where(token, UpperLetter(u))
        == set i: nat | i < |token| && u.isAlphabetic(token[i]) && u.isUppercase(token[i]);
  }

  /** A word loses what is no letter, digit, hyphen or apostrophe at its ends. */
  lemma TokenIsTrimmed(u: Unicode, before: string, core: string, after: string)
    requires forall c :: c in before + after ==> !u.isAlphanumeric(c) && c != '-' && c != '\''
    requires core != ""
    requires u.isAlphanumeric(core[0]) || core[0] == '-' || core[0] == '\''
    requires u.isAlphanumeric(core[|core| - 1]) || core[|core| - 1] == '-' || core[|core| - 1] == '\''
    ensures Tokens(u, [before + (core + after)]) == [core]
  {
    TrimBoth(before, core, after, TokenEdge(u));
  }

  /** Any other token separates phrases. */
  lemma PhrasesSplit(u: Unicode, a: seq<string>, t: string, b: seq<string>)
    requires !IsEntityToken(u, t)
    ensures Phrases(u, a + [t] + b) == Phrases(u, a) + Phrases(u, b)
  {
    RunsSplit(a, t, b, EntityToken(u));
    FlatMapConcat(Runs(a, EntityToken(u)), Runs(b, EntityToken(u)), Groups);
  }

  lemma OneRunOfPhrases(u: Unicode, run: Phrase)
    requires run != [] && forall t :: t in run ==> IsEntityToken(u, t)
    ensures Phrases(u, run) == Groups(run)
  {
    RunsOfRun(run, EntityToken(u));
    FlatMapOne(run, Groups);
  }

  /** Entity tokens in a row are one phrase, but no more than five of them: then the next begins. */
  lemma PhrasesAreCutAtFive(u: Unicode, run: seq<string>, rest: seq<string>)
    requires forall t :: t in run + rest ==> IsEntityToken(u, t)
    ensures 1 <= |run| <= 5 ==> Phrases(u, run) == [run]
    ensures |run| == 5 ==> Phrases(u, run + rest) == [run] + Phrases(u, rest)
  {
    if 1 <= |run| <= 5 {
      OneRunOfPhrases(u, run);
      if |run| == 5 && rest != [] {
        OneRunOfPhrases(u, run + rest);
        OneRunOfPhrases(u, rest);
        assert (run + rest)[..5] == run && (run + rest)[5..] == rest;
      } else if |run| == 5 {
        assert run + rest == run;
      }
    }
  }

  /** A phrase counts, its tokens joined by blanks, if it has three characters and is none of
      the common sentence leads. */
  lemma CandidateIs(phrases: seq<Phrase>, phrase: Phrase)
    ensures var text := Join(phrase, " ");
      Candidates(phrases + [phrase]) == Candidates(phrases) +
        (if |text| >= 3 && text !in {"And", "But", "For", "How", "The", "This", "What", "When", "Where", "Why", "You"}
         then [text] else [])
    ensures Candidates([]) == []
  {
    assert (phrases + [phrase])[..|phrases|] == phrases;
  }

  // ---------- the buffer against the groups ----------

  lemma {:induction false} GroupsSnoc(run: Phrase, t: string)
    ensures |run| % GROUP == 0 ==> Groups(run + [t]) == Groups(run) + [[t]]
    ensures |run| % GROUP != 0 ==>
      var g := Groups(run); Groups(run + [t]) == g[..|g| - 1] + [g[|g| - 1] + [t]]
    ensures run != [] && |run| % GROUP != 0 ==>
      var g := Groups(run); g[|g| - 1] == run[|run| - |run| % GROUP..]
    ensures run != [] && |run| % GROUP == 0 ==>
      var g := Groups(run); |g[|g| - 1]| == GROUP
  {
    if |run| > GROUP {
      GroupsSnoc(run[GROUP..], t);
      assert (run + [t])[GROUP..] == run[GROUP..] + [t];
      assert (run + [t])[..GROUP] == run[..GROUP];
    } else if |run| == GROUP {
      assert (run + [t])[GROUP..] == [t] && (run + [t])[..GROUP] == run;
      assert Groups([t]) == [[t]] && Groups(run) == [run];
      assert Groups(run + [t]) == [run] + Groups([t]);
    } else if run == [] {
      assert run + [t] == [t];
    }
  }

  /** What a run leaves over once its full groups are cut off. */
  ghost function Leftover(run: Phrase): Phrase {
    run[|run| - |run| % GROUP..]
  }

  /** The phrase still open after these tokens: what is left of the last run. */
  ghost function Pending(u: Unicode, tokens: seq<string>): Phrase {
    if !Open(tokens, EntityToken(u)) then []
    else
      var runs := Runs(tokens, EntityToken(u));
      Leftover(runs[|runs| - 1])
  }

  lemma AllGroupsSnoc(runs: seq<Phrase>, run: Phrase)
    ensures AllGroups(runs + [run]) == AllGroups(runs) + Groups(run)
  {
    assert (runs + [run])[..|runs|] == runs;
  }

  lemma LeftoverGrows(run: Phrase, t: string)
    ensures |Leftover(run)| < GROUP
    ensures Leftover(run + [t]) == if |Leftover(run)| + 1 == GROUP then [] else Leftover(run) + [t]
  {
    var m := |run| % GROUP;
    assert |run + [t]| % GROUP == if m + 1 == GROUP then 0 else m + 1;
  }

  lemma OpenGroup(front: seq<Phrase>, g: seq<Phrase>, pending: Phrase, closed: seq<Phrase>)
    requires g != [] && front + g == closed + (if pending == [] then [] else [pending])
    requires pending != [] ==> g[|g| - 1] == pending
    ensures pending == [] ==> closed == front + g
    ensures pending != [] ==> closed == front + g[..|g| - 1]
  {
    if pending != [] {
      assert (front + g)[..|front + g| - 1] == front + g[..|g| - 1];
      assert (closed + [pending])[..|closed|] == closed;
    }
  }

  /** Growing a run by one token, on the list of groups. */
  lemma GroupsGrow(front: seq<Phrase>, run: Phrase, t: string, closed: seq<Phrase>)
    requires run != []
    requires front + Groups(run) == closed + (if Leftover(run) == [] then [] else [Leftover(run)])
    ensures front + Groups(run + [t]) == closed + [Leftover(run) + [t]]
  {
    GroupsSnoc(run, t);
    OpenGroup(front, Groups(run), Leftover(run), closed);
    var g, left := Groups(run), Leftover(run);
    if left == [] {
      assert left + [t] == [t];
      assert front + (g + [[t]]) == (front + g) + [[t]];
    } else {
      assert front + (g[..|g| - 1] + [left + [t]]) == (front + g[..|g| - 1]) + [left + [t]];
    }
  }

  lemma PendingGrows(u: Unicode, tokens: seq<string>, t: string)
    requires EntityToken(u)(t)
    ensures |Pending(u, tokens)| < GROUP
    ensures Pending(u, tokens + [t]) == if |Pending(u, tokens)| + 1 == GROUP then [] else Pending(u, tokens) + [t]
  {
    var keep := EntityToken(u);
    RunsSnoc(tokens, t, keep);
    if Open(tokens, keep) {
      var runs := Runs(tokens, keep);
      LeftoverGrows(runs[|runs| - 1], t);
    }
  }

  /** One more entity token extends the open phrase, or starts one. */
  lemma PhrasesGrow(u: Unicode, tokens: seq<string>, t: string, closed: seq<Phrase>)
    requires EntityToken(u)(t)
    requires Phrases(u, tokens) == closed + (if Pending(u, tokens) == [] then [] else [Pending(u, tokens)])
    ensures Phrases(u, tokens + [t]) == closed + [Pending(u, tokens) + [t]]
  {
    var keep := EntityToken(u);
    var runs := Runs(tokens, keep);
    RunsSnoc(tokens, t, keep);
    if Open(tokens, keep) {
      var front, run := runs[..|runs| - 1], runs[|runs| - 1];
      assert runs == front + [run];
      AllGroupsSnoc(front, run);
      AllGroupsSnoc(front, run + [t]);
      GroupsGrow(AllGroups(front), run, t, closed);
    } else {
      AllGroupsSnoc(runs, [t]);
      assert Groups([t]) == [[t]] && Pending(u, tokens) + [t] == [t];
    }
  }

  // ---------- the loop ----------

  /** The phrases with the open one at the end, if there is one. */
  function Flushed(closed: seq<Phrase>, phrase: Phrase): seq<Phrase> {
    if phrase == [] then closed else closed + [phrase]
  }

  lemma CandidatesSnoc(closed: seq<Phrase>, phrase: Phrase)
    requires phrase != []
    ensures Candidates(Flushed(closed, phrase)) ==
      if Accepted(phrase) then Candidates(closed) + [Join(phrase, " ")] else Candidates(closed)
  {
    assert (closed + [phrase])[..|closed|] == closed;
  }

  /** Ends the open phrase: it is counted if it is long enough and not a sentence lead. */
  method FlushEntity(phrase: Phrase, counts: map<string, nat>, ghost closed: seq<Phrase>)
    returns (after: map<string, nat>)
    requires Counts(counts, Candidates(closed))
    ensures Counts(after, Candidates(Flushed(closed, phrase)))
  {
    if phrase == [] {
      return counts;
    }
    CandidatesSnoc(closed, phrase);
    var candidate := Join(phrase, " ");
    after := counts;
    if |candidate| >= 3 && !IsCommonSentenceLead(candidate) {
      after := Count(counts, candidate, Candidates(closed));
    }
  }

  /** The phrases that can grow no more. */
  ghost function Closed(u: Unicode, tokens: seq<string>): seq<Phrase> {
    var phrases := Phrases(u, tokens);
    if Pending(u, tokens) == [] || phrases == [] then phrases else phrases[..|phrases| - 1]
  }

  /** The buffer and the counts stand for the tokens read so far: the phrases already counted
      are all but the open one. */
  ghost predicate Reads(u: Unicode, tokens: seq<string>, phrase: Phrase, counts: map<string, nat>) {
    && phrase == Pending(u, tokens)
    && Phrases(u, tokens) == Flushed(Closed(u, tokens), phrase)
    && Counts(counts, Candidates(Closed(u, tokens)))
  }

  lemma ReadsEntity(u: Unicode, tokens: seq<string>, t: string, phrase: Phrase, counts: map<string, nat>)
    requires EntityToken(u)(t) && Reads(u, tokens, phrase, counts)
    ensures |phrase| < GROUP
    ensures Pending(u, tokens + [t]) == if |phrase| + 1 == GROUP then [] else phrase + [t]
    ensures Closed(u, tokens + [t]) ==
      if |phrase| + 1 == GROUP then Flushed(Closed(u, tokens), phrase + [t]) else Closed(u, tokens)
    ensures Phrases(u, tokens + [t]) == Closed(u, tokens) + [phrase + [t]]
  {
    PhrasesGrow(u, tokens, t, Closed(u, tokens));
    PendingGrows(u, tokens, t);
    var closed := Closed(u, tokens);
    assert (closed + [phrase + [t]])[..|closed|] == closed;
  }

  lemma ReadsOther(u: Unicode, tokens: seq<string>, t: string)
    requires !EntityToken(u)(t)
    ensures Phrases(u, tokens + [t]) == Phrases(u, tokens)
    ensures Pending(u, tokens + [t]) == [] && Closed(u, tokens + [t]) == Phrases(u, tokens)
  {
    RunsSnoc(tokens, t, EntityToken(u));
  }

  /** One turn of the loop: the phrase is flushed at five tokens and at every token that is
      no entity token. */
  method ReadToken(u: Unicode, token: string, phrase: Phrase, counts: map<string, nat>, ghost tokens: seq<string>)
    returns (longer: Phrase, after: map<string, nat>)
    requires Reads(u, tokens, phrase, counts)
    ensures Reads(u, tokens + [token], longer, after)
  {
    if IsEntityToken(u, token) {
      ReadsEntity(u, tokens, token, phrase, counts);
      longer, after := phrase + [token], counts;
      if |longer| == GROUP {
        after := FlushEntity(longer, counts, Closed(u, tokens));
        longer := [];
      }
    } else {
      ReadsOther(u, tokens, token);
      after := FlushEntity(phrase, counts, Closed(u, tokens));
      longer := [];
    }
  }

  lemma ReadsNothing(u: Unicode)
    ensures Reads(u, [], [], map[])
  {
  }

  /** The counting half of the loop: one buffer, against the groups of the runs. */
  method CountEntities(u: Unicode, text: string) returns (counts: map<string, nat>)
    ensures Counts(counts, Candidates(Phrases(u, Tokens(u, Words(u, text)))))
  {
    counts := map[];
    var phrase: Phrase := [];
    var words := Words(u, text);
    ghost var tokens := Tokens(u, words);
    ReadsNothing(u);
    assert tokens[..0] == [];
    for i := 0 to |words|
      invariant Reads(u, tokens[..i], phrase, counts)
    {
      var token := Trim(words[i], TokenEdge(u));
      TakeSnoc(tokens, i);
      phrase, counts := ReadToken(u, token, phrase, counts, tokens[..i]);
    }
    TakeAll(tokens);
    counts := FlushEntity(phrase, counts, Closed(u, tokens));
  }

  lemma {:induction false} CandidatesAreLong(phrases: seq<Phrase>, e: string)
    requires e in Candidates(phrases)
    ensures |e| >= 3 && !IsCommonSentenceLead(e)
  {
    var rest := phrases[..|phrases| - 1];
    if e in Candidates(rest) {
      CandidatesAreLong(rest, e);
    }
  }

  /** The best ranked entities, up to the limit. */
  method ExtractEntities(u: Unicode, text: string, limit: nat) returns (entities: seq<string>)
    ensures |entities| <= limit
    ensures BestOf(Candidates(Phrases(u, Tokens(u, Words(u, text)))), limit, entities)
    ensures forall e :: e in entities ==> |e| >= 3
  {
    var counts := CountEntities(u, text);
    var ranked := SortByRank(counts);
    entities := Take(ranked, limit);
    ghost var list := Candidates(Phrases(u, Tokens(u, Words(u, text))));
    forall e | e in entities
      ensures |e| >= 3
    {
      assert e in ranked && e in counts && e in list;
      CandidatesAreLong(Phrases(u, Tokens(u, Words(u, text))), e);
    }
  }
}
