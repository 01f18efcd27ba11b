/** Whether fetched content makes a new revision, and what chain of revisions results. */
module Revisions {
  import opened Wrappers
  import opened Texts
  import opened EmbeddingInputs

  predicate HexDigit(c: char) {
    '0' <= c <= '9' || 'a' <= c <= 'f' || 'A' <= c <= 'F'
  }

  predicate IsDigest(s: string) {
    |s| == 64 && forall i :: 0 <= i < |s| ==> HexDigit(s[i])
  }

  datatype Decision = Unchanged | StoreRevision(previous: Option<string>, content: string)

  datatype RevisionError = InvalidContentHash | BadInputs(inputs: InputError)

  function LowerOption(s: Option<string>): Option<string> {
    if s.Some? then Some(AsciiLower(s.value)) else None
  }

  function DecideRevision(previous: Option<string>, current: string): Result<Decision, RevisionError> {
    if !IsDigest(current) then Err(InvalidContentHash)
    else if previous.Some? && !IsDigest(previous.value) then Err(InvalidContentHash)
    else if previous.Some? && AsciiLower(previous.value) == AsciiLower(current) then Ok(Unchanged)
    else Ok(StoreRevision(LowerOption(previous), AsciiLower(current)))
  }

  /** 64 hexadecimal digits in either case. */
  predicate Sha256(s: string) {
    |s| == 64 && forall c :: c in s ==> '0' <= c <= '9' || 'a' <= c <= 'f' || 'A' <= c <= 'F'
  }

  lemma DigestIsSha256(s: string)
    ensures IsDigest(s) <==> Sha256(s)
  {
    if IsDigest(s) {
      assert Sha256(s);
    }
    if Sha256(s) {
      assert forall i :: 0 <= i < |s| ==> s[i] in s;
    }
  }

  method DecideRevisionWithInputs(u: Unicode, previous: Option<string>, current: string, inputs: seq<Input>)
    returns (r: Result<Decision, RevisionError>)
    ensures Acceptable(u, inputs) ==> r == DecideRevision(previous, current)
    ensures Acceptable(u, inputs) ==>
      (r == Err(InvalidContentHash) <==> !Sha256(current) || (previous.Some? && !Sha256(previous.value)))
    ensures r.Ok? ==>
      && (r.value.Unchanged? <==> previous.Some? && EqualIgnoringCase(previous.value, current))
      && (r.value.StoreRevision? ==>
            r.value.content == AsciiLower(current) && r.value.previous == LowerOption(previous))
    ensures !Acceptable(u, inputs) ==> r.Err? && r.error.BadInputs?
  {
    DigestIsSha256(current);
    if previous.Some? {
      DigestIsSha256(previous.value);
      LowerComparesIgnoringCase(previous.value, current);
    }
    var error := ValidateEmbeddingInputs(u, inputs);
    r := if error.Some? then Err(BadInputs(error.value)) else DecideRevision(previous, current);
  }

  lemma LowerDigest(s: string)
    requires IsDigest(s)
    ensures IsDigest(AsciiLower(s))
  {
  }

  /** Once stored, the same content in any ASCII case is unchanged, and other content is stored
      with a link back to it. */
  lemma StoredRevisionIsRemembered(previous: Option<string>, current: string, next: string)
    requires DecideRevision(previous, current).Ok? && DecideRevision(previous, current).value.StoreRevision?
    requires IsDigest(next)
    ensures var stored := DecideRevision(previous, current).value.content;
      DecideRevision(Some(stored), next) ==
        if AsciiLower(next) == AsciiLower(current) then Ok(Unchanged)
        else Ok(StoreRevision(Some(stored), AsciiLower(next)))
  {
    LowerDigest(current);
    LowerTwice(current);
  }

  // ---------- whole histories ----------

  function Latest(stored: seq<Decision>): Option<string> {
    if stored == [] || stored[|stored| - 1].Unchanged? then None else Some(stored[|stored| - 1].content)
  }

  /** The revisions stored while these hashes are fetched one after the other; each decision
      sees the revision stored last. Malformed hashes store nothing. */
  function Stored(hashes: seq<string>): seq<Decision> {
    if hashes == [] then []
    else
      var before := Stored(hashes[..|hashes| - 1]);
      var d := DecideRevision(Latest(before), hashes[|hashes| - 1]);
      if d.Ok? && d.value.StoreRevision? then before + [d.value] else before
  }

  /** Every stored revision is a lower-case digest that differs from the one it links to,
      which is the one stored before it. */
  ghost predicate Chain(stored: seq<Decision>) {
    forall i :: 0 <= i < |stored| ==>
      && stored[i].StoreRevision? && IsDigest(stored[i].content)
      && AsciiLower(stored[i].content) == stored[i].content
      && stored[i].previous == Latest(stored[..i])
      && stored[i].previous != Some(stored[i].content)
  }

  lemma LatestIsLowerDigest(stored: seq<Decision>)
    requires Chain(stored)
    ensures LowerOption(Latest(stored)) == Latest(stored)
    ensures Latest(stored).Some? ==> IsDigest(Latest(stored).value)
  {
  }

  lemma LinkGrows(before: seq<Decision>, d: Decision, after: seq<Decision>)
    requires Chain(before) && after == before + [d] && d.StoreRevision?
    requires IsDigest(d.content) && AsciiLower(d.content) == d.content
    requires d.previous == Latest(before) && d.previous != Some(d.content)
    ensures Chain(after)
  {
    forall i | 0 <= i <= |before|
      ensures after[..i] == before[..i]
    {
    }
  }

  lemma ChainGrows(before: seq<Decision>, hash: string, after: seq<Decision>)
    requires Chain(before)
    requires var d := DecideRevision(Latest(before), hash);
      after == if d.Ok? && d.value.StoreRevision? then before + [d.value] else before
    ensures Chain(after)
    ensures IsDigest(hash) ==> Latest(after) == Some(AsciiLower(hash))
  {
    LatestIsLowerDigest(before);
    if IsDigest(hash) && Latest(before) != Some(AsciiLower(hash)) {
      LowerTwice(hash);
      LowerDigest(hash);
      LinkGrows(before, StoreRevision(Latest(before), AsciiLower(hash)), after);
    }
  }

  lemma {:induction false} HistoriesAreChains(hashes: seq<string>)
    ensures Chain(Stored(hashes))
  {
    if hashes != [] {
      var before, hash := Stored(hashes[..|hashes| - 1]), hashes[|hashes| - 1];
      HistoriesAreChains(hashes[..|hashes| - 1]);
      ChainGrows(before, hash, Stored(hashes));
    }
  }

  /** Whatever came before, the latest revision is the hash fetched last. */
  lemma LatestIsLastFetched(hashes: seq<string>)
    requires hashes != [] && IsDigest(hashes[|hashes| - 1])
    ensures Latest(Stored(hashes)) == Some(AsciiLower(hashes[|hashes| - 1]))
  {
    var front := hashes[..|hashes| - 1];
    HistoriesAreChains(front);
    ChainGrows(Stored(front), hashes[|hashes| - 1], Stored(hashes));
  }
}
