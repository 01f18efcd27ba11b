/** The text fragments of a JSON document, collected under a depth and a count limit. */
module JsonText {
  import opened Wrappers

  const MAX_DEPTH: nat := 64
  const MAX_FRAGMENTS: nat := 20_000

  /** Null, booleans and numbers are scalars. Arrays and objects are nodes; an array's
      children have no key. */
  datatype Json = Scalar | Text(text: string) | Node(children: seq<Child>)

  datatype Child = Child(key: Option<string>, value: Json)

  datatype JsonError = TooDeep | TooManyStrings

  function KeyText(c: Child): seq<string> {
    if c.key.Some? then [c.key.value] else []
  }

  function ChildFragments(c: Child): seq<string>
    decreases c
  {
    KeyText(c) + Fragments(c.value)
  }

  function ChildLevels(c: Child): nat
    decreases c
  {
    Levels(c.value)
  }

  /** Keys and strings in document order. */
  function Fragments(v: Json): seq<string>
    decreases v
  {
    match v
    case Scalar => []
    case Text(t) => [t]
    case Node(children) => AllFragments(children)
  }

  function AllFragments(cs: seq<Child>): seq<string>
    decreases cs
  {
    if cs == [] then []
    else AllFragments(cs[..|cs| - 1]) + ChildFragments(cs[|cs| - 1])
  }

  function Levels(v: Json): nat
    decreases v
  {
    1 + if v.Node? then AllLevels(v.children) else 0
  }

  function AllLevels(cs: seq<Child>): nat
    decreases cs
  {
    if cs == [] then 0
    else
      var l, m := AllLevels(cs[..|cs| - 1]), ChildLevels(cs[|cs| - 1]);
      if l < m then m else l
  }

  /** The last thing visited is a string. */
  predicate EndsWithText(v: Json)
    decreases v
  {
    match v
    case Scalar => false
    case Text(_) => true
    case Node(cs) => cs != [] && EndsWithText(cs[|cs| - 1].value)
  }

  /** The limits as the walk applies them: every visited value asks for room for one more
      fragment, so the limit may be reached only by the very last string. */
  predicate Room(n: nat, fragments: nat, endsWithText: bool) {
    n + fragments < MAX_FRAGMENTS || (n + fragments == MAX_FRAGMENTS && endsWithText)
  }

  predicate Fits(v: Json, depth: nat, n: nat) {
    depth + Levels(v) <= MAX_DEPTH + 1 && Room(n, |Fragments(v)|, EndsWithText(v))
  }

  lemma {:induction false} TextIsAFragment(v: Json)
    requires EndsWithText(v)
    ensures |Fragments(v)| >= 1
    decreases v
  {
    if v.Node? {
      var cs := v.children;
      TextIsAFragment(cs[|cs| - 1].value);
      assert |Fragments(v)| >= |ChildFragments(cs[|cs| - 1])|;
    }
  }

  lemma AllSnoc(cs: seq<Child>, i: nat)
    requires i < |cs|
    ensures AllFragments(cs[..i + 1]) == AllFragments(cs[..i]) + ChildFragments(cs[i])
    ensures AllLevels(cs[..i + 1]) >= AllLevels(cs[..i]) && AllLevels(cs[..i + 1]) >= ChildLevels(cs[i])
    ensures AllLevels(cs[..i + 1]) == AllLevels(cs[..i]) || AllLevels(cs[..i + 1]) == ChildLevels(cs[i])
  {
    assert cs[..i + 1][..i] == cs[..i];
  }

  /** Children still to come only add fragments and levels, at least one fragment if the last
      one ends with a string. */
  lemma {:induction false} LaterChildren(cs: seq<Child>, i: nat)
    requires i < |cs|
    ensures |AllFragments(cs[..i])| <= |AllFragments(cs)| && AllLevels(cs[..i]) <= AllLevels(cs)
    ensures EndsWithText(cs[|cs| - 1].value) ==> |AllFragments(cs[..i])| < |AllFragments(cs)|
    decreases |cs|
  {
    var n := |cs| - 1;
    AllSnoc(cs, n);
    assert cs[..n + 1] == cs;
    if EndsWithText(cs[n].value) {
      TextIsAFragment(cs[n].value);
    }
    if i < n {
      var front := cs[..n];
      LaterChildren(front, i);
      assert front[..i] == cs[..i];
    }
  }

  /** How far the walk over the children of a node has come. */
  ghost predicate Collected(cs: seq<Child>, i: nat, depth: nat, before: seq<string>, output: seq<string>)
    requires i <= |cs|
  {
    && output == before + AllFragments(cs[..i])
    && depth + 1 + AllLevels(cs[..i]) <= MAX_DEPTH + 1
    && Room(|before|, |AllFragments(cs[..i])|, i > 0 && EndsWithText(cs[i - 1].value))
  }

  lemma ChildFits(cs: seq<Child>, i: nat, depth: nat, before: seq<string>, output: seq<string>, keyed: seq<string>)
    requires i < |cs| && Collected(cs, i, depth, before, output) && keyed == output + KeyText(cs[i])
    requires Fits(cs[i].value, depth + 1, |keyed|)
    ensures Collected(cs, i + 1, depth, before, keyed + Fragments(cs[i].value))
  {
    AllSnoc(cs, i);
    assert keyed + Fragments(cs[i].value) == before + (AllFragments(cs[..i]) + ChildFragments(cs[i]));
  }

  lemma ChildDoesNotFit(cs: seq<Child>, i: nat, depth: nat, before: nat, v: Json)
    requires i < |cs| && v == cs[i].value
    requires !Fits(v, depth + 1, before + |AllFragments(cs[..i])| + |KeyText(cs[i])|)
    ensures !Fits(Node(cs), depth, before)
    ensures Levels(v) < Levels(Node(cs))
    ensures |AllFragments(cs[..i])| + |KeyText(cs[i])| + |Fragments(v)| <= |Fragments(Node(cs))|
  {
    AllSnoc(cs, i);
    if i + 1 < |cs| {
      LaterChildren(cs, i + 1);
    } else {
      assert cs[..i + 1] == cs;
    }
  }

  /** The recursive walk. It succeeds exactly on documents within the limits, and then returns
      their fragments behind those collected before. */
  method CollectJsonText(value: Json, depth: nat, output: seq<string>) returns (r: Result<seq<string>, JsonError>)
    ensures r.Ok? <==> Fits(value, depth, |output|)
    ensures r.Ok? ==> r.value == output + Fragments(value) && |r.value| <= MAX_FRAGMENTS
    ensures r.Ok? ==> depth + Levels(value) <= 65 && |r.value| <= 20_000
    ensures depth + Levels(value) <= 65 && |output| + |Fragments(value)| < 20_000 ==> r.Ok?
    ensures r == Err(TooDeep) ==> depth + Levels(value) > MAX_DEPTH + 1
    ensures r == Err(TooManyStrings) ==> |output| + |Fragments(value)| >= MAX_FRAGMENTS
    decreases value
  {
    if depth > MAX_DEPTH {
      return Err(TooDeep);
    }
    if |output| >= MAX_FRAGMENTS {
      if EndsWithText(value) {
        TextIsAFragment(value);
      }
      return Err(TooManyStrings);
    }
    match value
    case Scalar =>
      r := Ok(output);
    case Text(t) =>
      r := Ok(output + [t]);
    case Node(children) =>
      var collected := output;
      for i := 0 to |children|
        invariant Collected(children, i, depth, output, collected)
      {
        var child := children[i];
        var keyed := collected + KeyText(child);
        r := CollectJsonText(child.value, depth + 1, keyed);
        if r.Err? {
          ChildDoesNotFit(children, i, depth, |output|, child.value);
          return;
        }
        ChildFits(children, i, depth, output, collected, keyed);
        collected := r.value;
      }
      assert children[..|children|] == children;
      r := Ok(collected);
  }

  // ---------- what the fragments and levels are ----------

  lemma ChildAdded(front: seq<Child>, c: Child, all: seq<Child>)
    requires all == front + [c]
    ensures AllFragments(all) == AllFragments(front) + ChildFragments(c)
    ensures AllLevels(all) == if AllLevels(front) < ChildLevels(c) then ChildLevels(c) else AllLevels(front)
  {
    assert all[..|all| - 1] == front;
  }

  lemma {:induction false} AllFragmentsConcat(a: seq<Child>, b: seq<Child>, all: seq<Child>)
    requires all == a + b
    ensures AllFragments(all) == AllFragments(a) + AllFragments(b)
    decreases |b|
  {
    if b == [] {
      assert all == a;
    } else {
      var front, last := b[..|b| - 1], b[|b| - 1];
      AllFragmentsConcat(a, front, a + front);
      ChildAdded(front, last, b);
      assert all == (a + front) + [last];
      ChildAdded(a + front, last, all);
    }
  }

  /** A member's fragments stand in its place: its key, if it has one, and then its value's. */
  lemma MemberFragments(a: seq<Child>, key: Option<string>, value: Json, b: seq<Child>)
    ensures Fragments(Node(a + [Child(key, value)] + b)) ==
      Fragments(Node(a)) + ((if key.Some? then [key.value] else []) + Fragments(value)) + Fragments(Node(b))
  {
    var c := Child(key, value);
    var front := a + [c];
    ChildAdded(a, c, front);
    AllFragmentsConcat(front, b, front + b);
  }

  lemma LeafFragments(t: string)
    ensures Fragments(Node([])) == [] && Fragments(Scalar) == [] && Fragments(Text(t)) == [t]
  {
  }

  /** A value is one level deeper than its deepest member. */
  lemma {:induction false} LevelsCountNesting(cs: seq<Child>)
    ensures forall c :: c in cs ==> Levels(c.value) < Levels(Node(cs))
    ensures cs != [] ==> exists c :: c in cs && Levels(Node(cs)) == Levels(c.value) + 1
    ensures cs == [] ==> Levels(Node(cs)) == 1
    ensures Levels(Scalar) == 1 && forall t :: Levels(Text(t)) == 1
  {
    if cs != [] {
      var n := |cs| - 1;
      LevelsCountNesting(cs[..n]);
      assert cs == cs[..n] + [cs[n]];
      var front, last := AllLevels(cs[..n]), Levels(cs[n].value);
      assert ChildLevels(cs[n]) == last >= 1 && Levels(Node(cs[..n])) == 1 + front;
      assert Levels(Node(cs)) == 1 + (if front < last then last else front);
      if front >= last {
        var c :| c in cs[..n] && Levels(Node(cs[..n])) == Levels(c.value) + 1;
        assert c in cs;
      }
    }
  }

  // ---------- the limit itself ----------

  const EMPTY_STRING: Child := Child(None, Text(""))

  function Strings(n: nat): (cs: seq<Child>)
    ensures |cs| == n && (n > 0 ==> cs[n - 1] == EMPTY_STRING)
  {
    if n == 0 then [] else Strings(n - 1) + [EMPTY_STRING]
  }

  lemma {:induction false} StringsCount(n: nat)
    ensures |AllFragments(Strings(n))| == n && AllLevels(Strings(n)) == if n == 0 then 0 else 1
  {
    if n > 0 {
      StringsCount(n - 1);
      ChildAdded(Strings(n - 1), EMPTY_STRING, Strings(n));
    }
  }

  /** Exactly as many strings as are allowed, with a null behind them. */
  ghost function FullWithNull(): Json {
    Node(Strings(MAX_FRAGMENTS) + [Child(None, Scalar)])
  }

  /** The strings alone fit. With the null they are refused, although the document still holds
      exactly 20000 fragments and is hardly nested. */
  lemma ExactLimitMayBeRefused()
    ensures Fits(Node(Strings(MAX_FRAGMENTS)), 0, 0)
    ensures |Fragments(FullWithNull())| == 20_000 && Levels(FullWithNull()) == 2
    ensures !Fits(FullWithNull(), 0, 0)
  {
    StringsCount(MAX_FRAGMENTS);
    var full, last := Strings(MAX_FRAGMENTS), Child(None, Scalar);
    ChildAdded(full, last, full + [last]);
  }
}
