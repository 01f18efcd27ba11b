/** The whitespace normal form of a text: its words, one blank apart. */
module Whitespace {
  import opened Texts
  import opened Lists

  function NonSpace(u: Unicode): char -> bool {
    c => !u.isSpace(c)
  }

  function Words(u: Unicode, s: string): seq<string> {
    Runs(s, NonSpace(u))
  }

  function Normal(u: Unicode, s: string): string {
    Join(Words(u, s), " ")
  }

  lemma {:induction false} JoinNonEmpty(ws: seq<string>, sep: string)
    requires ws != [] && ws[0] != ""
    ensures Join(ws, sep) != "" && Join(ws, sep)[0] == ws[0][0]
  {
  }

  lemma {:induction false} JoinLastChar(ws: seq<string>, sep: string)
    requires ws != [] && ws[|ws| - 1] != ""
    ensures Join(ws, sep) != "" && Join(ws, sep)[|Join(ws, sep)| - 1] == ws[|ws| - 1][|ws[|ws| - 1]| - 1]
  {
    if |ws| > 1 {
      JoinLastChar(ws[1..], sep);
    }
  }

  lemma JoinGrowLast(front: seq<string>, w: string, c: char, sep: string)
    ensures Join(front + [w + [c]], sep) == Join(front + [w], sep) + [c]
  {
    JoinSnoc(front, w + [c], sep);
    JoinSnoc(front, w, sep);
  }

  /** One more character, as the loop sees it. */
  lemma NormalSnoc(u: Unicode, s: string, c: char)
    ensures u.isSpace(c) ==> Normal(u, s + [c]) == Normal(u, s)
    ensures !u.isSpace(c) && Open(s, NonSpace(u)) ==> Normal(u, s + [c]) == Normal(u, s) + [c]
    ensures !u.isSpace(c) && !Open(s, NonSpace(u)) ==>
      Normal(u, s + [c]) == Normal(u, s) + (if Normal(u, s) == "" then "" else " ") + [c]
  {
    var ws := Words(u, s);
    RunsSnoc(s, c, NonSpace(u));
    if u.isSpace(c) {
    } else if Open(s, NonSpace(u)) {
      assert ws == ws[..|ws| - 1] + [ws[|ws| - 1]];
      JoinGrowLast(ws[..|ws| - 1], ws[|ws| - 1], c, " ");
    } else {
      JoinSnoc(ws, [c], " ");
      if ws != [] {
        JoinNonEmpty(ws, " ");
      }
    }
  }

  /** The pending-space loop computes the normal form. */
  method CollapseWhitespace(u: Unicode, input: string) returns (output: string)
    ensures output == Normal(u, input)
  {
    output := "";
    var pendingSpace := false;
    for i := 0 to |input|
      invariant output == Normal(u, input[..i])
      invariant pendingSpace == (i > 0 && u.isSpace(input[i - 1]) && output != "")
      invariant Open(input[..i], NonSpace(u)) <==> i > 0 && !u.isSpace(input[i - 1])
    {
      assert input[..i + 1] == input[..i] + [input[i]];
      NormalSnoc(u, input[..i], input[i]);
      if u.isSpace(input[i]) {
        pendingSpace := output != "";
      } else {
        if pendingSpace {
          output := output + " ";
        }
        output := output + [input[i]];
        pendingSpace := false;
      }
    }
    assert input[..|input|] == input;
  }

  /** A normal form neither begins nor ends with whitespace. */
  lemma NormalEnds(u: Unicode, s: string)
    ensures var n := Normal(u, s); n != "" ==> !u.isSpace(n[0]) && !u.isSpace(n[|n| - 1])
  {
    var ws := Words(u, s);
    if ws != [] {
      JoinNonEmpty(ws, " ");
      JoinLastChar(ws, " ");
      assert NonSpace(u)(ws[0][0]);
      var w := ws[|ws| - 1];
      assert NonSpace(u)(w[|w| - 1]);
    }
  }

  /** The second copy of the loop trims its result; the two copies agree. */
  method CollapseAndTrim(u: Unicode, input: string) returns (output: string)
    ensures output == Normal(u, input)
  {
    output := CollapseWhitespace(u, input);
    NormalEnds(u, input);
    TrimNothing(output, u.isSpace);
    output := Trim(output, u.isSpace);
  }

  lemma {:induction false} WordsOfJoin(u: Unicode, ws: seq<string>)
    requires u.isSpace(' ')
    requires forall i :: 0 <= i < |ws| ==> ws[i] != "" && forall k :: 0 <= k < |ws[i]| ==> !u.isSpace(ws[i][k])
    ensures Words(u, Join(ws, " ")) == ws
  {
    if |ws| == 1 {
      RunsOfRun(ws[0], NonSpace(u));
    } else if |ws| > 1 {
      WordsOfJoin(u, ws[1..]);
      RunsOfRun(ws[0], NonSpace(u));
      RunsSplit(ws[0], ' ', Join(ws[1..], " "), NonSpace(u));
      assert Join(ws, " ") == ws[0] + [' '] + Join(ws[1..], " ");
    }
  }

  /** Normalising twice is normalising once, and the words survive. */
  lemma NormalIdempotent(u: Unicode, s: string)
    requires u.isSpace(' ')
    ensures Words(u, Normal(u, s)) == Words(u, s)
    ensures Normal(u, Normal(u, s)) == Normal(u, s)
  {
    var ws := Words(u, s);
    forall i, k | 0 <= i < |ws| && 0 <= k < |ws[i]|
      ensures !u.isSpace(ws[i][k])
    {
      assert NonSpace(u)(ws[i][k]);
    }
    WordsOfJoin(u, ws);
  }

  /** Only blank texts have an empty normal form. */
  lemma {:induction false} NormalOfBlank(u: Unicode, s: string)
    ensures Normal(u, s) == "" <==> forall c :: c in s ==> u.isSpace(c)
  {
    if s != "" {
      var p, c := s[..|s| - 1], s[|s| - 1];
      NormalOfBlank(u, p);
      assert s == p + [c];
      NormalSnoc(u, p, c);
    }
  }

  /** What the loop has dropped so far: blanks, except one that may still be put back. */
  ghost function Dropped(u: Unicode, s: string): int {
    |s| - |Normal(u, s)| - (if s != "" && u.isSpace(s[|s| - 1]) && Normal(u, s) != "" then 1 else 0)
  }

  lemma DroppedGrows(u: Unicode, s: string, c: char)
    ensures Dropped(u, s) <= Dropped(u, s + [c])
  {
    NormalSnoc(u, s, c);
    if s == "" {
      assert Normal(u, s) == "";
    }
  }

  lemma {:induction false} DroppedMonotone(u: Unicode, s: string, i: nat)
    requires i <= |s|
    ensures Dropped(u, s[..i]) <= Dropped(u, s)
    decreases |s| - i
  {
    if i < |s| {
      DroppedMonotone(u, s, i + 1);
      TakeSnoc(s, i);
      DroppedGrows(u, s[..i], s[i]);
    } else {
      TakeAll(s);
    }
  }

  /** Cutting a normalised text short costs at most one more blank. */
  lemma NormalOfPrefix(u: Unicode, s: string, i: nat)
    requires Normal(u, s) == s && i <= |s|
    ensures |Normal(u, s[..i])| >= i - 1
  {
    DroppedMonotone(u, s, i);
    NormalEnds(u, s);
  }
}
