/** Complete sentences of a text. */
module Sentences {
  import opened Texts
  import opened Lists
  import opened Whitespace

  const PIECE: nat := 1_001

  predicate Terminator(c: char) {
    c == '.' || c == '!' || c == '?'
  }

  /** The text since the last terminator. */
  function Stretch(s: string): (r: string)
    ensures |r| <= |s|
  {
    if s == "" || Terminator(s[|s| - 1]) then "" else Stretch(s[..|s| - 1]) + [s[|s| - 1]]
  }

  /** A stretch without terminator is dropped in pieces of 1001 characters; this is the rest. */
  function Rest(s: string): string {
    s[|s| - |s| % PIECE..]
  }

  /** What stands before each terminator, the terminator included. */
  function Pieces(s: string): seq<string> {
    if s == "" then []
    else
      var p, c := s[..|s| - 1], s[|s| - 1];
      Pieces(p) + (if Terminator(c) then [Rest(Stretch(p)) + [c]] else [])
  }

  predicate GoodSentence(u: Unicode, candidate: string) {
    6 <= |Words(u, candidate)| <= 110 && 36 <= |candidate| <= 900
  }

  function Good(u: Unicode, pieces: seq<string>): seq<string> {
    if pieces == [] then []
    else
      var candidate := Normal(u, pieces[|pieces| - 1]);
      Good(u, pieces[..|pieces| - 1]) + (if GoodSentence(u, candidate) then [candidate] else [])
  }

  /** A piece counts, normalised, if it has 6 to 110 words and 36 to 900 characters. */
  lemma GoodSnoc(u: Unicode, pieces: seq<string>, piece: string)
    ensures var candidate := Normal(u, piece);
      Good(u, pieces + [piece]) ==
        if 6 <= |Words(u, candidate)| <= 110 && 36 <= |candidate| <= 900 then Good(u, pieces) + [candidate]
        else Good(u, pieces)
    ensures Good(u, []) == []
  {
    assert (pieces + [piece])[..|pieces|] == pieces;
  }

  lemma PiecesSnoc(s: string, c: char)
    ensures Pieces(s + [c]) == if Terminator(c) then Pieces(s) + [Rest(Stretch(s)) + [c]] else Pieces(s)
    ensures Stretch(s + [c]) == if Terminator(c) then "" else Stretch(s) + [c]
  {
    assert (s + [c])[..|s|] == s;
  }

  lemma {:induction false} StretchHasNoTerminator(s: string)
    ensures forall c :: c in Stretch(s) ==> !Terminator(c)
  {
    if s != "" && !Terminator(s[|s| - 1]) {
      StretchHasNoTerminator(s[..|s| - 1]);
    }
  }

  lemma RestGrows(s: string, c: char)
    ensures |Rest(s)| < PIECE
    ensures Rest(s + [c]) == if |Rest(s)| + 1 == PIECE then "" else Rest(s) + [c]
  {
    var m := |s| % PIECE;
    assert |s + [c]| % PIECE == if m + 1 == PIECE then 0 else m + 1;
  }

  /** A piece ends with the only terminator it holds, and is not too long. */
  lemma {:induction false} PiecesEndWithTheirTerminator(s: string, piece: string)
    requires piece in Pieces(s)
    ensures 1 <= |piece| <= PIECE && Terminator(piece[|piece| - 1])
    ensures forall c :: c in piece[..|piece| - 1] ==> !Terminator(c)
  {
    var p := s[..|s| - 1];
    if piece in Pieces(p) {
      PiecesEndWithTheirTerminator(p, piece);
    } else {
      StretchHasNoTerminator(p);
      RestGrows(Stretch(p), '.');
      assert piece[..|piece| - 1] == Rest(Stretch(p));
    }
  }

  /** Reading on only adds sentences. */
  lemma GoodGrows(u: Unicode, p: string, c: char)
    ensures Good(u, Pieces(p)) <= Good(u, Pieces(p + [c]))
  {
    PiecesSnoc(p, c);
    if Terminator(c) {
      GoodSnoc(u, Pieces(p), Rest(Stretch(p)) + [c]);
    }
  }

  lemma {:induction false} GoodMonotone(u: Unicode, text: string, i: nat)
    requires i <= |text|
    ensures Good(u, Pieces(text[..i])) <= Good(u, Pieces(text))
    decreases |text| - i
  {
    if i < |text| {
      GoodMonotone(u, text, i + 1);
      GoodGrows(u, text[..i], text[i]);
      TakeSnoc(text, i);
    } else {
      assert text[..i] == text;
    }
  }

  lemma {:induction false} GoodAreGood(u: Unicode, pieces: seq<string>, s: string)
    requires u.isSpace(' ') && s in Good(u, pieces)
    ensures GoodSentence(u, s) && Normal(u, s) == s
  {
    var rest := pieces[..|pieces| - 1];
    if s in Good(u, rest) {
      GoodAreGood(u, rest, s);
    } else {
      NormalIdempotent(u, pieces[|pieces| - 1]);
    }
  }

  lemma ReadOn(s: string, p: string, c: char, before: seq<string>)
    requires Stretch(s) == Stretch(p) && Pieces(s) == before + Pieces(p)
    ensures Stretch(s + [c]) == Stretch(p + [c]) && Pieces(s + [c]) == before + Pieces(p + [c])
  {
    PiecesSnoc(s, c);
    PiecesSnoc(p, c);
  }

  lemma Shorter(a: string, b: string, all: string) returns (s: string, p: string, c: char)
    requires b != "" && all == a + b
    ensures s == a + p && all == s + [c] && b == p + [c] && |p| < |b|
  {
    p, c := b[..|b| - 1], b[|b| - 1];
    s := a + p;
  }

  /** Behind a terminator the text is read afresh. */
  lemma {:induction false} PiecesBehind(a: string, b: string, all: string)
    requires (a == "" || Terminator(a[|a| - 1])) && all == a + b
    ensures Pieces(all) == Pieces(a) + Pieces(b) && Stretch(all) == Stretch(b)
    decreases |b|
  {
    if b == "" {
      assert all == a;
    } else {
      var s, p, c := Shorter(a, b, all);
      PiecesBehind(a, p, s);
      ReadOn(s, p, c, Pieces(a));
    }
  }

  lemma {:induction false} NoPieces(x: string)
    requires forall c :: c in x ==> !Terminator(c)
    ensures Pieces(x) == [] && Stretch(x) == x
  {
    if x != "" {
      var p, c := x[..|x| - 1], x[|x| - 1];
      NoPieces(p);
      PiecesSnoc(p, c);
      assert x == p + [c] && c in x;
    }
  }

  lemma RestOfShortStretch(x: string)
    requires |x| <= 1_000
    ensures Rest(x) == x
  {
  }

  lemma PieceIsAdded(a: string, x: string, t: char, piece: string)
    requires Terminator(t) && (a == "" || Terminator(a[|a| - 1])) && forall c :: c in x ==> !Terminator(c)
    requires piece == Rest(x) + [t]
    ensures Pieces(a + x) == Pieces(a) && Pieces(a + x + [t]) == Pieces(a) + [piece]
  {
    NoPieces(x);
    PiecesBehind(a, x, a + x);
    PiecesSnoc(a + x, t);
  }

  /** A stretch of text up to its terminator is one piece; of more than a thousand characters
      without one, whole runs of 1001 are dropped from the front. */
  lemma PieceIsRead(a: string, x: string, t: char, b: string)
    requires a == "" || a[|a| - 1] == '.' || a[|a| - 1] == '!' || a[|a| - 1] == '?'
    requires t == '.' || t == '!' || t == '?'
    requires forall c :: c in x ==> c != '.' && c != '!' && c != '?'
    ensures Pieces(a + x) == Pieces(a) && Pieces("") == []
    ensures var kept := if |x| <= 1_000 then x else x[|x| - |x| % 1_001..];
      Pieces(a + x + [t] + b) == Pieces(a) + [kept + [t]] + Pieces(b)
  {
    var kept := if |x| <= 1_000 then x else x[|x| - |x| % 1_001..];
    if |x| <= 1_000 {
      RestOfShortStretch(x);
    }
    PieceIsAdded(a, x, t, kept + [t]);
    PiecesBehind(a + x + [t], b, a + x + [t] + b);
  }

  /** The buffer and the list stand for the text read so far. */
  ghost predicate Reads(u: Unicode, text: string, buffer: string, sentences: seq<string>) {
    buffer == Rest(Stretch(text)) && sentences == Good(u, Pieces(text))
  }

  /** One turn of the loop. */
  method ReadChar(u: Unicode, ghost text: string, c: char, buffer: string, sentences: seq<string>)
    returns (longer: string, more: seq<string>)
    requires Reads(u, text, buffer, sentences)
    ensures Reads(u, text + [c], longer, more)
    ensures |sentences| <= |more| <= |sentences| + 1
  {
    PiecesSnoc(text, c);
    RestGrows(Stretch(text), c);
    longer, more := buffer + [c], sentences;
    if Terminator(c) {
      GoodSnoc(u, Pieces(text), longer);
      var candidate := CollapseAndTrim(u, longer);
      if GoodSentence(u, candidate) {
        more := more + [candidate];
      }
      longer := "";
    } else if |longer| > 1_000 {
      longer := "";
    }
  }

  lemma ReadsNothing(u: Unicode)
    ensures Reads(u, "", "", [])
  {
  }

  /** Enough sentences, or the whole text. */
  lemma StopsHere(u: Unicode, text: string, i: nat, read: string, buffer: string, sentences: seq<string>, limit: nat)
    requires i <= |text| && read == text[..i] && Reads(u, read, buffer, sentences)
    requires |sentences| == limit || (i == |text| && |sentences| < limit)
    ensures sentences == Take(Good(u, Pieces(text)), limit)
  {
    GoodMonotone(u, text, i);
    if i == |text| {
      TakeAll(text);
    }
  }

  /** The loop stops at the first text position where enough sentences are found. */
  method ReadSentences(u: Unicode, text: string, limit: nat) returns (sentences: seq<string>)
    ensures limit >= 1 ==> sentences == Take(Good(u, Pieces(text)), limit)
  {
    sentences := [];
    var buffer := "";
    ghost var read := "";
    ReadsNothing(u);
    for i := 0 to |text|
      invariant read == text[..i] && Reads(u, read, buffer, sentences)
      invariant limit >= 1 ==> |sentences| < limit
    {
      buffer, sentences := ReadChar(u, read, text[i], buffer, sentences);
      TakeSnoc(text, i);
      read := read + [text[i]];
      if |sentences| == limit {
        StopsHere(u, text, i + 1, read, buffer, sentences, limit);
        return;
      }
    }
    if limit >= 1 {
      StopsHere(u, text, |text|, read, buffer, sentences, limit);
    }
  }

  /** The first `limit` good sentences, without those that repeat one in another ASCII case. */
  method CompleteSentences(u: Unicode, text: string, limit: nat) returns (sentences: seq<string>)
    ensures sentences == Firsts(Take(Good(u, Pieces(text)), limit), AsciiLower)
    ensures |sentences| <= limit
    ensures u.isSpace(' ') ==> forall s :: s in sentences ==>
      6 <= |Words(u, s)| <= 110 && 36 <= |s| <= 900 && Normal(u, s) == s
  {
    var found := ReadSentences(u, text, limit);
    FirstsMeaning(found, AsciiLower);
    var kept := Dedupe(found, AsciiLower);
    sentences := Take(kept, limit);
    if u.isSpace(' ') && limit >= 1 {
      forall s | s in sentences
        ensures GoodSentence(u, s) && Normal(u, s) == s
      {
        assert s in found;
        GoodAreGood(u, Pieces(text), s);
      }
    }
  }
}
