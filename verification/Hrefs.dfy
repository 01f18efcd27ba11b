/** The scanner for `href` values, over the bytes of a UTF-8 text. */
module Hrefs {
  import opened Wrappers

  type Byte = b: int | 0 <= b < 256

  // ---------- UTF-8 (RFC 3629, section 4) ----------

  predicate Tail(b: Byte) {
    0x80 <= b <= 0xBF
  }

  /** The length of the character at the front, or 0 if the front is malformed. */
  function FirstLength(s: seq<Byte>): (n: nat)
    ensures n <= |s| && n <= 4
  {
    if s == [] then 0
    else if s[0] <= 0x7F then 1
    else if |s| >= 2 && 0xC2 <= s[0] <= 0xDF && Tail(s[1]) then 2
    else if |s| >= 3 && Tail(s[2])
      && ((s[0] == 0xE0 && 0xA0 <= s[1] <= 0xBF) || (0xE1 <= s[0] <= 0xEC && Tail(s[1]))
          || (s[0] == 0xED && 0x80 <= s[1] <= 0x9F) || (0xEE <= s[0] <= 0xEF && Tail(s[1]))) then 3
    else if |s| >= 4 && Tail(s[2]) && Tail(s[3])
      && ((s[0] == 0xF0 && 0x90 <= s[1] <= 0xBF) || (0xF1 <= s[0] <= 0xF3 && Tail(s[1]))
          || (s[0] == 0xF4 && 0x80 <= s[1] <= 0x8F)) then 4
    else 0
  }

  predicate WellFormed(s: seq<Byte>) {
    s == [] || (FirstLength(s) > 0 && WellFormed(s[FirstLength(s)..]))
  }

  type Scalar = c: int | 0 <= c <= 0xD7FF || 0xE000 <= c <= 0x10FFFF

  /** The octets of one character (RFC 3629, section 3). */
  function Encode(c: Scalar): (bytes: seq<Byte>)
    ensures 1 <= |bytes| <= 4
  {
    if c <= 0x7F then [c]
    else if c <= 0x7FF then [0xC0 + c / 0x40, 0x80 + c % 0x40]
    else if c <= 0xFFFF then [0xE0 + c / 0x1000, 0x80 + c / 0x40 % 0x40, 0x80 + c % 0x40]
    else [0xF0 + c / 0x4_0000, 0x80 + c / 0x1000 % 0x40, 0x80 + c / 0x40 % 0x40, 0x80 + c % 0x40]
  }

  function EncodeAll(cs: seq<Scalar>): seq<Byte> {
    if cs == [] then [] else Encode(cs[0]) + EncodeAll(cs[1..])
  }

  lemma EncodedCharacterIsFirst(c: Scalar, rest: seq<Byte>)
    ensures FirstLength(Encode(c) + rest) == |Encode(c)|
  {
  }

  /** Six bits at a time. */
  lemma Sextets(a: int, b: int, c: int, d: int)
    requires 0 <= a && 0 <= b < 0x40 && 0 <= c < 0x40 && 0 <= d < 0x40
    ensures var n := ((a * 0x40 + b) * 0x40 + c) * 0x40 + d;
      n % 0x40 == d && n / 0x40 % 0x40 == c && n / 0x1000 % 0x40 == b && n / 0x4_0000 == a
  {
    var n := ((a * 0x40 + b) * 0x40 + c) * 0x40 + d;
    assert n / 0x40 == (a * 0x40 + b) * 0x40 + c;
    assert n / 0x1000 == a * 0x40 + b;
  }

  lemma TwoOctets(s: seq<Byte>) returns (c: Scalar)
    requires FirstLength(s) == 2
    ensures Encode(c) == [s[0], s[1]]
  {
    var a: int, b: int := s[0], s[1];
    c := (a - 0xC0) * 0x40 + (b - 0x80);
  }

  lemma ThreeOctets(s: seq<Byte>) returns (c: Scalar)
    requires FirstLength(s) == 3
    ensures Encode(c) == [s[0], s[1], s[2]]
  {
    var a: int, b: int, d: int := s[0], s[1], s[2];
    Sextets(0, a - 0xE0, b - 0x80, d - 0x80);
    c := ((a - 0xE0) * 0x40 + (b - 0x80)) * 0x40 + (d - 0x80);
    assert c / 0x1000 == a - 0xE0;
  }

  lemma FourOctets(s: seq<Byte>) returns (c: Scalar)
    requires FirstLength(s) == 4
    ensures Encode(c) == [s[0], s[1], s[2], s[3]]
  {
    var a: int, b: int, d: int, e: int := s[0], s[1], s[2], s[3];
    Sextets(a - 0xF0, b - 0x80, d - 0x80, e - 0x80);
    c := (((a - 0xF0) * 0x40 + (b - 0x80)) * 0x40 + (d - 0x80)) * 0x40 + (e - 0x80);
  }

  /** A front that is well-formed encodes a character. */
  lemma FirstIsEncoded(s: seq<Byte>) returns (c: Scalar)
    requires FirstLength(s) > 0
    ensures Encode(c) == s[..FirstLength(s)]
  {
    var n := FirstLength(s);
    if n == 1 {
      c := s[0];
    } else if n == 2 {
      c := TwoOctets(s);
    } else if n == 3 {
      c := ThreeOctets(s);
    } else {
      c := FourOctets(s);
    }
  }

  lemma EncodeAllCons(c: Scalar, rest: seq<Scalar>)
    ensures EncodeAll([c] + rest) == Encode(c) + EncodeAll(rest)
  {
    assert ([c] + rest)[1..] == rest;
  }

  lemma {:induction false} EncodedIsWellFormed(cs: seq<Scalar>)
    ensures WellFormed(EncodeAll(cs))
  {
    if cs != [] {
      EncodedIsWellFormed(cs[1..]);
      EncodedCharacterIsFirst(cs[0], EncodeAll(cs[1..]));
      assert EncodeAll(cs)[|Encode(cs[0])|..] == EncodeAll(cs[1..]);
    }
  }

  lemma PutTogether(s: seq<Byte>, n: nat, c: Scalar, rest: seq<Scalar>)
    requires n <= |s| && Encode(c) == s[..n] && EncodeAll(rest) == s[n..]
    ensures EncodeAll([c] + rest) == s
  {
    EncodeAllCons(c, rest);
    assert s == s[..n] + s[n..];
  }

  /** The well-formed byte sequences are exactly the encodings of texts. */
  lemma {:induction false} WellFormedIsEncoded(s: seq<Byte>) returns (cs: seq<Scalar>)
    requires WellFormed(s)
    ensures EncodeAll(cs) == s
    decreases |s|
  {
    if s == [] {
      cs := [];
    } else {
      var n := FirstLength(s);
      var c := FirstIsEncoded(s);
      var rest := WellFormedIsEncoded(s[n..]);
      cs := [c] + rest;
      PutTogether(s, n, c, rest);
    }
  }

  /** Where a text may be sliced without splitting a character. */
  predicate Boundary(s: seq<Byte>, i: nat) {
    i <= |s| && (i == 0 || i == |s| || !Tail(s[i]))
  }

  /** Inside a character there are only tail bytes, so no boundary. */
  lemma NoBoundaryInside(s: seq<Byte>, i: nat)
    requires 0 < i < FirstLength(s)
    ensures Tail(s[i]) && !Boundary(s, i)
  {
  }

  /** In a well-formed text each ASCII byte is a character of its own: there is a boundary on
      either side of it. */
  lemma {:induction false} AsciiIsACharacter(s: seq<Byte>, i: nat)
    requires WellFormed(s) && i < |s| && s[i] <= 0x7F
    ensures Boundary(s, i) && Boundary(s, i + 1)
    decreases |s|
  {
    var n := FirstLength(s);
    if i >= n {
      var t := s[n..];
      AsciiIsACharacter(t, i - n);
    } else if i > 0 {
      NoBoundaryInside(s, i);
    } else if n < |s| {
      assert FirstLength(s[n..]) > 0;
    }
  }

  /** What the scan needs of a well-formed text. */
  ghost predicate AsciiStandsAlone(s: seq<Byte>) {
    forall i: nat {:trigger Boundary(s, i)} ::
      i < |s| && s[i] <= 0x7F ==> Boundary(s, i) && Boundary(s, i + 1)
  }

  lemma WellFormedAscii(s: seq<Byte>)
    requires WellFormed(s)
    ensures AsciiStandsAlone(s)
  {
    forall i: nat | i < |s| && s[i] <= 0x7F
      ensures Boundary(s, i) && Boundary(s, i + 1)
    {
      AsciiIsACharacter(s, i);
    }
  }

  lemma SameFirstLength(s: seq<Byte>, p: seq<Byte>)
    requires p <= s && FirstLength(s) <= |p|
    ensures FirstLength(p) == FirstLength(s)
  {
  }

  lemma {:induction false} WellFormedPrefix(s: seq<Byte>, i: nat, p: seq<Byte>)
    requires WellFormed(s) && Boundary(s, i) && p == s[..i]
    ensures WellFormed(p)
    decreases |s|
  {
    var n := FirstLength(s);
    if i == 0 || i == |s| {
      assert p == [] || p == s;
    } else if i < n {
      NoBoundaryInside(s, i);
    } else {
      var t := s[n..];
      assert Boundary(t, i - n);
      assert p[n..] == t[..i - n];
      WellFormedPrefix(t, i - n, p[n..]);
      SameFirstLength(s, p);
    }
  }

  /** Slicing a well-formed text at boundaries gives well-formed text. */
  lemma {:induction false} WellFormedSlice(s: seq<Byte>, i: nat, j: nat, slice: seq<Byte>)
    requires WellFormed(s) && i <= j && Boundary(s, i) && Boundary(s, j) && slice == s[i..j]
    ensures WellFormed(slice)
    decreases |s|
  {
    var n := FirstLength(s);
    if i == j {
      assert slice == [];
    } else if i == 0 {
      WellFormedPrefix(s, j, slice);
    } else if i < n {
      NoBoundaryInside(s, i);
    } else {
      var t := s[n..];
      assert Boundary(t, i - n) && Boundary(t, j - n);
      assert t[i - n..j - n] == slice;
      WellFormedSlice(t, i - n, j - n, slice);
    }
  }

  // ---------- the scan ----------

  function LowerByte(b: Byte): Byte {
    if 0x41 <= b <= 0x5A then b + 0x20 else b
  }

  /** `href` in any ASCII case. */
  predicate HrefAt(s: seq<Byte>, i: nat) {
    && i + 4 <= |s|
    && LowerByte(s[i]) == 0x68 && LowerByte(s[i + 1]) == 0x72
    && LowerByte(s[i + 2]) == 0x65 && LowerByte(s[i + 3]) == 0x66
  }

  predicate Space(b: Byte) {
    b == 0x20 || b == 0x09 || b == 0x0A || b == 0x0C || b == 0x0D
  }

  predicate Quote(b: Byte) {
    b == 0x27 || b == 0x22
  }

  function FindHref(s: seq<Byte>, from: nat): (r: Option<nat>)
    requires from <= |s|
    ensures r.Some? ==> from <= r.value && HrefAt(s, r.value) && forall i :: from <= i < r.value ==> !HrefAt(s, i)
    ensures r.None? ==> forall i :: from <= i ==> !HrefAt(s, i)
    decreases |s| - from
  {
    if HrefAt(s, from) then Some(from)
    else if from == |s| then None
    else FindHref(s, from + 1)
  }

  function SkipSpace(s: seq<Byte>, i: nat): (r: nat)
    requires i <= |s|
    ensures i <= r <= |s|
    ensures forall k :: i <= k < r ==> Space(s[k])
    ensures r < |s| ==> !Space(s[r])
    decreases |s| - i
  {
    if i < |s| && Space(s[i]) then SkipSpace(s, i + 1) else i
  }

  /** The value ends before its own quote, or unquoted before whitespace or `>`. */
  predicate Ends(quote: Option<Byte>, b: Byte) {
    if quote.Some? then b == quote.value else Space(b) || b == 0x3E
  }

  function ValueEnd(s: seq<Byte>, i: nat, quote: Option<Byte>): (r: nat)
    requires i <= |s|
    ensures i <= r <= |s|
    ensures forall k :: i <= k < r ==> !Ends(quote, s[k])
    ensures r < |s| ==> Ends(quote, s[r])
    decreases |s| - i
  {
    if i < |s| && !Ends(quote, s[i]) then ValueEnd(s, i + 1, quote) else i
  }

  /** A value with the places of its `href` and `=`, its own place, and its quote. */
  datatype Span = Span(at: nat, equals: nat, start: nat, end: nat, quote: Option<Byte>)

  /** One `href`: the value behind it, if any, and where the scan goes on; None ends the scan. */
  datatype Hit = Hit(value: Option<Span>, next: nat)

  function ValueAfter(s: seq<Byte>, at: nat, equals: nat): (r: Option<Hit>)
    requires at < equals < |s|
    ensures r.Some? ==> equals < r.value.next <= |s|
    ensures r.Some? && r.value.value.Some? ==>
      r.value.value.value.at == at && at < r.value.value.value.start < r.value.value.value.end <= r.value.next
  {
    var j := SkipSpace(s, equals + 1);
    if j == |s| then None
    else
      var quote := if Quote(s[j]) then Some(s[j]) else None;
      var start := if quote.Some? then j + 1 else j;
      var end := ValueEnd(s, start, quote);
      Some(Hit(if start < end then Some(Span(at, equals, start, end, quote)) else None,
               if end < |s| then end + 1 else end))
  }

  function Parse(s: seq<Byte>, at: nat): (r: Option<Hit>)
    requires HrefAt(s, at)
    ensures r.Some? ==> at + 4 <= r.value.next <= |s|
    ensures r.Some? && r.value.value.Some? ==>
      r.value.value.value.at == at && at < r.value.value.value.start < r.value.value.value.end <= r.value.next
  {
    var i := SkipSpace(s, at + 4);
    if i == |s| || s[i] != 0x3D then Some(Hit(None, i)) else ValueAfter(s, at, i)
  }

  /** The values found from `cursor` on, in order. */
  function Spans(s: seq<Byte>, cursor: nat): seq<Span>
    requires cursor <= |s|
    decreases |s| - cursor
  {
    var at := FindHref(s, cursor);
    if at.None? then []
    else
      var hit := Parse(s, at.value);
      if hit.None? then []
      else (if hit.value.value.Some? then [hit.value.value.value] else []) + Spans(s, hit.value.next)
  }

  /** Moves past ASCII blanks; the place reached is a character boundary. */
  method SkipBlanks(bytes: seq<Byte>, from: nat) returns (index: nat)
    requires AsciiStandsAlone(bytes) && 0 < from <= |bytes| && bytes[from - 1] <= 0x7F
    ensures index == SkipSpace(bytes, from) && Boundary(bytes, index)
  {
    index := from;
    while index < |bytes| && Space(bytes[index])
      invariant from <= index <= |bytes| && bytes[index - 1] <= 0x7F
      invariant SkipSpace(bytes, index) == SkipSpace(bytes, from)
    {
      index := index + 1;
    }
    assert Boundary(bytes, index - 1);
  }

  /** Moves to the end of a value; there is a boundary on either side of its terminator. */
  method PassValue(bytes: seq<Byte>, start: nat, quote: Option<Byte>) returns (index: nat)
    requires AsciiStandsAlone(bytes) && start <= |bytes| && (quote.Some? ==> Quote(quote.value))
    ensures index == ValueEnd(bytes, start, quote) && Boundary(bytes, index)
    ensures index < |bytes| ==> Boundary(bytes, index + 1)
  {
    index := start;
    while index < |bytes| && !Ends(quote, bytes[index])
      invariant start <= index <= |bytes|
      invariant ValueEnd(bytes, index, quote) == ValueEnd(bytes, start, quote)
    {
      index := index + 1;
    }
    if index < |bytes| {
      assert Boundary(bytes, index);
    }
  }

  /** The scan goes on, and slices its value out, at character boundaries. */
  ghost predicate HitBounded(s: seq<Byte>, hit: Hit) {
    && Boundary(s, hit.next)
    && (hit.value.Some? ==> Boundary(s, hit.value.value.start) && Boundary(s, hit.value.value.end))
  }

  /** The value behind an equals sign, read the way the scan reads it. */
  method ReadValue(bytes: seq<Byte>, at: nat, equals: nat) returns (hit: Option<Hit>)
    requires AsciiStandsAlone(bytes) && at < equals < |bytes| && bytes[equals] == 0x3D
    ensures hit == ValueAfter(bytes, at, equals)
    ensures hit.Some? ==> HitBounded(bytes, hit.value)
  {
    var index := SkipBlanks(bytes, equals + 1);
    if index >= |bytes| {
      return None;
    }
    var quote: Option<Byte> := if Quote(bytes[index]) then Some(bytes[index]) else None;
    if quote.Some? {
      assert Boundary(bytes, index);
      index := index + 1;
    }
    var start := index;
    index := PassValue(bytes, start, quote);
    hit := Some(Hit(if start < index then Some(Span(at, equals, start, index, quote)) else None,
                    if index < |bytes| then index + 1 else index));
  }

  method ReadHref(bytes: seq<Byte>, at: nat) returns (hit: Option<Hit>)
    requires AsciiStandsAlone(bytes) && HrefAt(bytes, at)
    ensures hit == Parse(bytes, at)
    ensures hit.Some? ==> HitBounded(bytes, hit.value)
  {
    var index := SkipBlanks(bytes, at + 4);
    if index == |bytes| || bytes[index] != 0x3D {
      return Some(Hit(None, index));
    }
    hit := ReadValue(bytes, at, index);
  }

  function Slice(s: seq<Byte>, span: Span): seq<Byte> {
    if span.start <= span.end <= |s| then s[span.start..span.end] else []
  }

  function Slices(s: seq<Byte>, spans: seq<Span>): (r: seq<seq<Byte>>)
    ensures |r| == |spans|
    ensures forall k :: 0 <= k < |r| ==> r[k] == Slice(s, spans[k])
  {
    if spans == [] then [] else [Slice(s, spans[0])] + Slices(s, spans[1..])
  }

  /** The texts of the values found from `cursor` on. */
  function Values(s: seq<Byte>, cursor: nat): seq<seq<Byte>>
    requires cursor <= |s|
  {
    Slices(s, Spans(s, cursor))
  }

  /** One turn of the scan: the value behind the next `href`, and where to go on. */
  method NextHref(bytes: seq<Byte>, cursor: nat) returns (next: Option<nat>, value: Option<seq<Byte>>)
    requires AsciiStandsAlone(bytes) && cursor <= |bytes|
    ensures next.None? ==> Values(bytes, cursor) == []
    ensures next.Some? ==> cursor < next.value && Boundary(bytes, next.value)
    ensures next.Some? ==>
      Values(bytes, cursor) == (if value.Some? then [value.value] + Values(bytes, next.value)
                                else Values(bytes, next.value))
  {
    value := None;
    var found := FindHref(bytes, cursor);
    if found.None? {
      return None, None;
    }
    var hit := ReadHref(bytes, found.value);
    if hit.None? {
      return None, None;
    }
    next := Some(hit.value.next);
    if hit.value.value.Some? {
      var span := hit.value.value.value;
      value := Some(bytes[span.start..span.end]);
      assert Spans(bytes, cursor)[1..] == Spans(bytes, hit.value.next);
    } else {
      assert Spans(bytes, cursor) == Spans(bytes, hit.value.next);
    }
  }

  lemma Reassociate(a: seq<seq<Byte>>, b: seq<seq<Byte>>, rest: seq<seq<Byte>>, tail: seq<seq<Byte>>)
    requires rest == b + tail
    ensures (a + b) + tail == a + rest
  {
  }

  /** The scanning loop. Its cursor only moves forward, from one character boundary to another. */
  method ExtractHrefValues(bytes: seq<Byte>) returns (values: seq<seq<Byte>>)
    requires AsciiStandsAlone(bytes)
    ensures values == Values(bytes, 0)
  {
    values := [];
    var cursor := 0;
    ghost var all := Values(bytes, 0);
    ghost var rest := all;
    while true
      invariant cursor <= |bytes| && Boundary(bytes, cursor)
      invariant rest == Values(bytes, cursor) && values + rest == all
      decreases |bytes| - cursor
    {
      var next, value := NextHref(bytes, cursor);
      if next.None? {
        break;
      }
      cursor := next.value;
      if value.Some? {
        ghost var tail := Values(bytes, cursor);
        Reassociate(values, [value.value], rest, tail);
        values, rest := values + [value.value], tail;
      }
    }
  }

  // ---------- what the scan finds ----------

  predicate AsciiWhitespace(b: Byte) {
    b == 0x20 || b == 0x09 || b == 0x0A || b == 0x0C || b == 0x0D
  }

  /** The letters `href`, each in either case. */
  predicate SpellsHref(s: seq<Byte>, i: nat) {
    && i + 4 <= |s|
    && (s[i] == 0x68 || s[i] == 0x48) && (s[i + 1] == 0x72 || s[i + 1] == 0x52)
    && (s[i + 2] == 0x65 || s[i + 2] == 0x45) && (s[i + 3] == 0x66 || s[i + 3] == 0x46)
  }

  /** Where the value's terminator is: its own quote, or unquoted whitespace or `>`. */
  predicate Terminates(quote: Option<Byte>, b: Byte) {
    if quote.Some? then b == quote.value else AsciiWhitespace(b) || b == 0x3E
  }

  /** The value stands behind `href`, blanks, `=` and blanks, inside its quotes if it has any,
      and runs to its terminator or the end of the text, which it does not contain. */
  ghost predicate ProperValue(s: seq<Byte>, v: Span) {
    && SpellsHref(s, v.at) && v.at + 4 <= v.equals < v.start < v.end <= |s|
    && s[v.equals] == 0x3D
    && (forall k :: v.at + 4 <= k < v.equals ==> AsciiWhitespace(s[k]))
    && (forall k :: v.equals < k < v.start - (if v.quote.Some? then 1 else 0) ==> AsciiWhitespace(s[k]))
    && (v.quote.Some? ==> v.equals + 1 < v.start && s[v.start - 1] == v.quote.value
                          && (v.quote.value == 0x27 || v.quote.value == 0x22))
    && (v.quote.None? ==> s[v.start] != 0x27 && s[v.start] != 0x22)
    && (forall k :: v.start <= k < v.end ==> !Terminates(v.quote, s[k]))
    && (v.end == |s| || Terminates(v.quote, s[v.end]))
  }

  lemma ParsedValueIsProper(s: seq<Byte>, at: nat)
    requires HrefAt(s, at) && Parse(s, at).Some? && Parse(s, at).value.value.Some?
    ensures ProperValue(s, Parse(s, at).value.value.value)
    ensures Parse(s, at).value.value.value.at == at
  {
  }

  /** Proper values behind `cursor`, one after the other. */
  ghost predicate InOrder(s: seq<Byte>, cursor: nat, vs: seq<Span>)
    decreases vs
  {
    vs == [] || (cursor <= vs[0].at && ProperValue(s, vs[0]) && InOrder(s, vs[0].end, vs[1..]))
  }

  lemma {:induction false} InOrderMeaning(s: seq<Byte>, cursor: nat, vs: seq<Span>)
    requires InOrder(s, cursor, vs)
    ensures forall k :: 0 <= k < |vs| ==> cursor <= vs[k].at && ProperValue(s, vs[k])
    ensures forall k, l :: 0 <= k < l < |vs| ==> vs[k].end <= vs[l].at
    decreases vs
  {
    if vs != [] {
      var rest := vs[1..];
      InOrderMeaning(s, vs[0].end, rest);
      forall k | 0 < k < |vs|
        ensures vs[0].end <= vs[k].at && ProperValue(s, vs[k])
      {
        assert vs[k] == rest[k - 1];
      }
      forall k, l | 0 <= k < l < |vs|
        ensures vs[k].end <= vs[l].at
      {
        assert vs[l] == rest[l - 1] && (k > 0 ==> vs[k] == rest[k - 1]);
      }
    }
  }

  lemma InOrderEarlier(s: seq<Byte>, cursor: nat, earlier: nat, vs: seq<Span>)
    requires InOrder(s, cursor, vs) && earlier <= cursor
    ensures InOrder(s, earlier, vs)
  {
  }

  lemma InOrderCons(s: seq<Byte>, cursor: nat, v: Span, next: nat, rest: seq<Span>)
    requires cursor <= v.at && ProperValue(s, v) && v.end <= next && InOrder(s, next, rest)
    ensures InOrder(s, cursor, [v] + rest)
  {
    InOrderEarlier(s, next, v.end, rest);
    assert ([v] + rest)[1..] == rest;
  }

  /** Values are non-empty, disjoint and in document order; each belongs to an `href` of its
      own behind the cursor and behind the value before it. */
  lemma {:induction false} SpansInOrder(s: seq<Byte>, cursor: nat, vs: seq<Span>)
    requires cursor <= |s| && vs == Spans(s, cursor)
    ensures InOrder(s, cursor, vs)
    decreases |s| - cursor
  {
    var at := FindHref(s, cursor);
    if at.Some? {
      var hit := Parse(s, at.value);
      if hit.Some? {
        var rest := Spans(s, hit.value.next);
        SpansInOrder(s, hit.value.next, rest);
        if hit.value.value.Some? {
          ParsedValueIsProper(s, at.value);
          InOrderCons(s, cursor, hit.value.value.value, hit.value.next, rest);
        } else {
          assert vs == rest;
          InOrderEarlier(s, hit.value.next, cursor, rest);
        }
      }
    }
  }

  lemma SkipSpaceStopsAt(s: seq<Byte>, i: nat, r: nat)
    requires i <= r <= |s| && (forall k :: i <= k < r ==> Space(s[k])) && (r < |s| ==> !Space(s[r]))
    ensures SkipSpace(s, i) == r
  {
  }

  lemma ValueEndsAt(s: seq<Byte>, i: nat, quote: Option<Byte>, r: nat)
    requires i <= r <= |s| && (forall k :: i <= k < r ==> !Ends(quote, s[k])) && (r < |s| ==> Ends(quote, s[r]))
    ensures ValueEnd(s, i, quote) == r
  {
  }

  lemma ProperValueBehindEquals(s: seq<Byte>, v: Span, j: nat)
    requires ProperValue(s, v) && j == if v.quote.Some? then v.start - 1 else v.start
    ensures ValueAfter(s, v.at, v.equals) == Some(Hit(Some(v), if v.end < |s| then v.end + 1 else v.end))
  {
    SkipSpaceStopsAt(s, v.equals + 1, j);
    ValueEndsAt(s, v.start, v.quote, v.end);
    assert Quote(s[j]) <==> v.quote.Some?;
  }

  /** A proper value is what its `href` is parsed to. */
  lemma ProperValueIsParsed(s: seq<Byte>, v: Span)
    requires ProperValue(s, v)
    ensures HrefAt(s, v.at)
    ensures Parse(s, v.at) == Some(Hit(Some(v), if v.end < |s| then v.end + 1 else v.end))
  {
    SkipSpaceStopsAt(s, v.at + 4, v.equals);
    ProperValueBehindEquals(s, v, if v.quote.Some? then v.start - 1 else v.start);
  }

  /** What the scan passes over outside of values holds no other `href`. */
  lemma NothingMissed(s: seq<Byte>, at: nat, i: nat)
    requires HrefAt(s, at) && HrefAt(s, i) && at < i
    requires Parse(s, at).Some? ==> i < Parse(s, at).value.next
    ensures Parse(s, at).Some? && Parse(s, at).value.value.Some?
    ensures var v := Parse(s, at).value.value.value; v.start <= i < v.end
  {
  }

  /** Whose place in the text a value found takes up. */
  ghost predicate Inside(spans: seq<Span>, i: nat) {
    exists k :: 0 <= k < |spans| && spans[k].start <= i < spans[k].end
  }

  lemma InsideMore(spans: seq<Span>, rest: seq<Span>, i: nat)
    requires |rest| <= |spans| && rest == spans[|spans| - |rest|..] && Inside(rest, i)
    ensures Inside(spans, i)
  {
    var k :| 0 <= k < |rest| && rest[k].start <= i < rest[k].end;
    assert spans[|spans| - |rest| + k] == rest[k];
  }

  /** Every proper value is found, unless its `href` is part of a value found before it. */
  lemma {:induction false} EveryProperValueIsFound(s: seq<Byte>, cursor: nat, v: Span, vs: seq<Span>)
    requires cursor <= |s| && vs == Spans(s, cursor) && ProperValue(s, v) && cursor <= v.at
    ensures v in vs || Inside(vs, v.at)
    decreases |s| - cursor
  {
    ProperValueIsParsed(s, v);
    var at := FindHref(s, cursor).value;
    var hit := Parse(s, at);
    if at == v.at {
      assert vs[0] == v;
    } else if hit.Some? && hit.value.next <= v.at {
      var rest := Spans(s, hit.value.next);
      EveryProperValueIsFound(s, hit.value.next, v, rest);
      assert rest == vs[|vs| - |rest|..];
      if Inside(rest, v.at) {
        InsideMore(vs, rest, v.at);
      }
    } else {
      NothingMissed(s, at, v.at);
      assert vs[0] == hit.value.value.value;
    }
  }

  /** A value begins and ends at a character boundary. */
  lemma ValueIsBounded(s: seq<Byte>, v: Span)
    requires AsciiStandsAlone(s) && ProperValue(s, v)
    ensures Boundary(s, v.start) && Boundary(s, v.end)
  {
    assert Boundary(s, v.start - 1);
    assert s[v.start - 1] <= 0x7F;
    assert Boundary(s, v.end);
  }

  /** In a well-formed text every value is itself well-formed, so reading it as UTF-8 loses
      nothing. */
  lemma ValuesAreWellFormed(s: seq<Byte>, v: Span)
    requires WellFormed(s) && ProperValue(s, v)
    ensures WellFormed(Slice(s, v))
  {
    WellFormedAscii(s);
    ValueIsBounded(s, v);
    WellFormedSlice(s, v.start, v.end, Slice(s, v));
  }
}
