/** Which URLs a registered source may reach: its hosts, by label, and its path prefixes, by
    segment. */
module FetchScopes {
  import opened Wrappers
  import opened Texts

  datatype Url = Url(scheme: string, host: Option<string>, port: Option<nat>, path: string)

  datatype ScopeError = InvalidHost | InvalidPathScope

  datatype Scope = Scope(rootHost: string, includeSubdomains: bool, hosts: set<string>,
                         prefixes: set<string>, requireDefaultPort: bool)

  // ---------- hosts ----------

  predicate IsDot(c: char) { c == '.' }

  predicate LabelOk(part: string) {
    && part != "" && |part| <= 63
    && part[0] != '-' && part[|part| - 1] != '-'
    && forall c :: c in part ==> 'a' <= c <= 'z' || 'A' <= c <= 'Z' || '0' <= c <= '9' || c == '-'
  }

  predicate CanonicalHost(isIp: string -> bool, h: string) {
    && h != "" && |h| <= 253
    && '.' in h && '*' !in h
    && !isIp(h)
    && forall part :: part in Split(h, '.') ==> LabelOk(part)
  }

  function Stripped(u: Unicode, host: string): string {
    AsciiLower(TrimEnd(Trim(host, u.isSpace), IsDot))
  }

  /** `isIp` stands for the standard library's parser of IP literals. */
  function NormalizeHost(u: Unicode, isIp: string -> bool, host: string): Result<string, ScopeError> {
    var h := Stripped(u, host);
    if CanonicalHost(isIp, h) then Ok(h) else Err(InvalidHost)
  }

  lemma {:induction false} CharInLabel(h: string, i: nat)
    requires i < |h| && h[i] != '.'
    ensures exists part :: part in Split(h, '.') && h[i] in part
  {
    var rest := Split(h[1..], '.');
    if i == 0 {
      assert h[0] in Split(h, '.')[0];
    } else {
      CharInLabel(h[1..], i - 1);
      var part :| part in rest && h[1..][i - 1] in part;
      if h[0] == '.' {
        assert Split(h, '.')[1..] == rest;
      } else if part == rest[0] {
        assert h[i] in Split(h, '.')[0];
      } else {
        assert part in rest[1..];
        assert Split(h, '.')[1..] == rest[1..];
      }
    }
  }

  lemma LastLabel(h: string)
    requires h != "" && h[|h| - 1] == '.'
    ensures "" in Split(h, '.')
  {
    SplitConcat(h[..|h| - 1], "", '.');
    assert h == h[..|h| - 1] + ['.'] + "";
    assert Split("", '.')[0] == "";
  }

  lemma CanonicalHostChars(isIp: string -> bool, h: string)
    requires CanonicalHost(isIp, h)
    ensures h[|h| - 1] != '.'
    ensures forall c :: c in h ==>
      'a' <= c <= 'z' || 'A' <= c <= 'Z' || '0' <= c <= '9' || c == '-' || c == '.'
  {
    forall i: nat | i < |h| && h[i] != '.'
      ensures 'a' <= h[i] <= 'z' || 'A' <= h[i] <= 'Z' || '0' <= h[i] <= '9' || h[i] == '-'
    {
      CharInLabel(h, i);
    }
    if h[|h| - 1] == '.' {
      LastLabel(h);
    }
  }

  lemma NothingToStrip(u: Unicode, h: string)
    requires h != "" && h[|h| - 1] != '.'
    requires forall i :: 0 <= i < |h| ==> !u.isSpace(h[i])
    requires AsciiLower(h) == h
    ensures Stripped(u, h) == h
  {
    TrimNothing(h, u.isSpace);
  }

  /** A normalised host is a fixed point of the normalisation. */
  lemma NormalizeHostIdempotent(u: Unicode, isIp: string -> bool, host: string)
    requires Sane(u) && NormalizeHost(u, isIp, host).Ok?
    ensures NormalizeHost(u, isIp, NormalizeHost(u, isIp, host).value) == NormalizeHost(u, isIp, host)
  {
    var h := Stripped(u, host);
    CanonicalHostChars(isIp, h);
    LowerTwice(TrimEnd(Trim(host, u.isSpace), IsDot));
    forall i | 0 <= i < |h|
      ensures !u.isSpace(h[i])
    {
      assert h[i] in h;
    }
    NothingToStrip(u, h);
  }

  // ---------- hosts, character by character ----------

  lemma LabelInFront(p: string, tail: string, rest: string)
    requires '.' !in p && (tail == p || tail == p + ['.'] + rest)
    ensures p in Split(tail, '.')
  {
    OnePart(p, '.');
    if tail != p {
      SplitConcat(p, rest, '.');
    }
  }

  lemma LabelsBehind(front: string, tail: string, p: string, h: string)
    requires h == front + ['.'] + tail && p in Split(tail, '.')
    ensures p in Split(h, '.')
  {
    SplitConcat(front, tail, '.');
  }

  lemma CutOut(h: string, i: nat, j: nat, p: string)
    requires i <= j <= |h| && p == h[i..j]
    ensures j == |h| ==> h[i..] == p
    ensures j < |h| ==> h[i..] == p + [h[j]] + h[j + 1..]
    ensures i > 0 ==> h == h[..i - 1] + [h[i - 1]] + h[i..]
  {
  }

  /** What stands between two dots, or a dot and an end, is a label. */
  lemma StretchIsLabel(h: string, i: nat, j: nat, p: string)
    requires i <= j <= |h| && p == h[i..j] && '.' !in p
    requires (i == 0 || h[i - 1] == '.') && (j == |h| || h[j] == '.')
    ensures p in Split(h, '.')
  {
    CutOut(h, i, j, p);
    var tail := h[i..];
    LabelInFront(p, tail, if j == |h| then "" else h[j + 1..]);
    if i > 0 {
      LabelsBehind(h[..i - 1], tail, p, h);
    } else {
      assert tail == h;
    }
  }

  /** The label stands at `i` between two dots, or a dot and an end. */
  ghost predicate StandsAt(h: string, part: string, i: nat) {
    && OccursAt(h, part, i) && '.' !in part
    && (i == 0 || h[i - 1] == '.') && (i + |part| == |h| || h[i + |part|] == '.')
  }

  lemma StandsInFront(x: string, h: string, part: string, i: nat)
    requires StandsAt(x, part, i) && x <= h && (|x| < |h| ==> h[|x|] == '.')
    ensures StandsAt(h, part, i)
  {
    assert h[i..i + |part|] == x[i..i + |part|];
  }

  lemma StandsBehind(h: string, k: nat, part: string, i: nat)
    requires k < |h| && h[k] == '.' && StandsAt(h[k + 1..], part, i)
    ensures StandsAt(h, part, i + k + 1)
  {
    var y := h[k + 1..];
    assert h[i + k + 1..i + k + 1 + |part|] == y[i..i + |part|];
  }

  lemma LabelOfEither(h: string, k: nat, x: string, y: string, part: string)
    requires k < |h| && h[k] == '.' && x == h[..k] && y == h[k + 1..] && part in Split(h, '.')
    ensures part in Split(x, '.') || part in Split(y, '.')
  {
    assert h == x + ['.'] + y;
    SplitConcat(x, y, '.');
  }

  lemma {:induction false} LabelStands(h: string, part: string) returns (i: nat)
    requires part in Split(h, '.')
    ensures StandsAt(h, part, i)
    decreases |h|
  {
    if k: nat :| k < |h| && h[k] == '.' {
      var x, y := h[..k], h[k + 1..];
      LabelOfEither(h, k, x, y, part);
      if part in Split(x, '.') {
        i := LabelStands(x, part);
        StandsInFront(x, h, part, i);
      } else {
        i := LabelStands(y, part);
        StandsBehind(h, k, part, i);
        i := i + k + 1;
      }
    } else {
      OnePart(h, '.');
      i := 0;
    }
  }

  lemma {:induction false} LabelBegins(h: string, k: nat) returns (i: nat)
    requires k <= |h|
    ensures i <= k && (i == 0 || h[i - 1] == '.') && '.' !in h[i..k]
  {
    if k == 0 || h[k - 1] == '.' {
      i := k;
    } else {
      i := LabelBegins(h, k - 1);
      assert h[i..k] == h[i..k - 1] + [h[k - 1]];
    }
  }

  lemma {:induction false} LabelEnds(h: string, k: nat) returns (j: nat)
    requires k <= |h|
    ensures k <= j <= |h| && (j == |h| || h[j] == '.') && '.' !in h[k..j]
    decreases |h| - k
  {
    if k == |h| || h[k] == '.' {
      j := k;
    } else {
      j := LabelEnds(h, k + 1);
      assert h[k..j] == [h[k]] + h[k + 1..j];
    }
  }

  /** The place is at either end of the name or next to a dot. */
  ghost predicate AtEdge(h: string, i: nat) {
    i < |h| && (i == 0 || h[i - 1] == '.' || i == |h| - 1 || h[i + 1] == '.')
  }

  /** A name of letters, digits and hyphens with at least one dot and no more than 63 characters
      between dots, where no dot or hyphen begins or ends the name or stands by a dot. */
  ghost predicate DnsName(isIp: string -> bool, h: string) {
    && 1 <= |h| <= 253 && '.' in h && !isIp(h)
    && (forall c :: c in h ==>
          'a' <= c <= 'z' || 'A' <= c <= 'Z' || '0' <= c <= '9' || c == '-' || c == '.')
    && (forall i: nat {:trigger AtEdge(h, i)} :: AtEdge(h, i) ==> h[i] != '.' && h[i] != '-')
    && (forall i, j :: 0 <= i <= j <= |h| && '.' !in h[i..j] ==> j - i <= 63)
  }

  lemma ThreeSlices(h: string, a: nat, i: nat, j: nat, b: nat)
    requires a <= i <= j <= b <= |h|
    ensures h[a..b] == h[a..i] + h[i..j] + h[j..b]
  {
  }

  lemma StretchesAreShort(isIp: string -> bool, h: string, i: nat, j: nat)
    requires CanonicalHost(isIp, h) && i <= j <= |h| && '.' !in h[i..j]
    ensures j - i <= 63
  {
    var a := LabelBegins(h, i);
    var b := LabelEnds(h, j);
    ThreeSlices(h, a, i, j, b);
    StretchIsLabel(h, a, b, h[a..b]);
  }

  /** A character that begins or ends a label is no dot and no hyphen. */
  lemma LabelEdge(isIp: string -> bool, h: string, i: nat)
    requires CanonicalHost(isIp, h) && AtEdge(h, i)
    ensures h[i] != '.' && h[i] != '-'
  {
    if i == 0 || h[i - 1] == '.' {
      var j := LabelEnds(h, i);
      var part := h[i..j];
      StretchIsLabel(h, i, j, part);
      assert LabelOk(part) && part[0] == h[i];
    } else {
      var a := LabelBegins(h, i + 1);
      var part := h[a..i + 1];
      StretchIsLabel(h, a, i + 1, part);
      assert LabelOk(part) && part[|part| - 1] == h[i];
    }
  }

  lemma CanonicalHostIsDnsName(isIp: string -> bool, h: string)
    requires CanonicalHost(isIp, h)
    ensures DnsName(isIp, h)
  {
    CanonicalHostChars(isIp, h);
    forall i: nat | AtEdge(h, i)
      ensures h[i] != '.' && h[i] != '-'
    {
      LabelEdge(isIp, h, i);
    }
    forall i, j | 0 <= i <= j <= |h| && '.' !in h[i..j]
      ensures j - i <= 63
    {
      StretchesAreShort(isIp, h, i, j);
    }
  }

  lemma DnsLabelIsNotEmpty(isIp: string -> bool, h: string, i: nat)
    requires DnsName(isIp, h) && i <= |h| && (i == 0 || h[i - 1] == '.')
    ensures i < |h| && h[i] != '.'
  {
    assert AtEdge(h, |h| - 1) && (i < |h| ==> AtEdge(h, i));
  }

  lemma DnsLabelIsOk(isIp: string -> bool, h: string, part: string)
    requires DnsName(isIp, h) && part in Split(h, '.')
    ensures LabelOk(part)
  {
    var i := LabelStands(h, part);
    var j := i + |part|;
    DnsLabelIsNotEmpty(isIp, h, i);
    forall c | c in part
      ensures c in h && c != '.'
    {
      var k :| 0 <= k < |part| && part[k] == c;
      assert h[i + k] == h[i..j][k] == c;
    }
    assert '.' !in h[i..j];
    assert part[0] == h[i] && part[|part| - 1] == h[j - 1];
    assert AtEdge(h, i) && AtEdge(h, j - 1);
  }

  /** The check of a host, label by label, is the check of its characters. */
  lemma CanonicalHostByCharacters(isIp: string -> bool, h: string)
    ensures CanonicalHost(isIp, h) <==> DnsName(isIp, h)
  {
    if CanonicalHost(isIp, h) {
      CanonicalHostIsDnsName(isIp, h);
    }
    if DnsName(isIp, h) {
      forall part | part in Split(h, '.')
        ensures LabelOk(part)
      {
        DnsLabelIsOk(isIp, h, part);
      }
      assert '*' !in h;
    }
  }

  lemma DotsAtTheEnd(host: string, dots: string, named: string)
    requires named == host + dots && host != "" && host[|host| - 1] != '.'
    requires forall c :: c in dots ==> c == '.'
    ensures TrimEnd(named, IsDot) == host && named[0] == host[0]
    ensures named[|named| - 1] == '.' || named[|named| - 1] == host[|host| - 1]
  {
    forall i | |host| <= i < |named|
      ensures named[i] == '.'
    {
      assert named[i] == dots[i - |host|] && dots[i - |host|] in dots;
    }
    TrimEndIs(named, |host|, IsDot);
    assert named[..|host|] == host && (dots == "" ==> named == host);
  }

  lemma StrippedIs(u: Unicode, before: string, host: string, dots: string, after: string)
    requires !u.isSpace('.') && host != "" && host[|host| - 1] != '.'
    requires !u.isSpace(host[0]) && !u.isSpace(host[|host| - 1])
    requires (forall c :: c in before + after ==> u.isSpace(c)) && forall c :: c in dots ==> c == '.'
    ensures Stripped(u, before + ((host + dots) + after)) == AsciiLower(host)
  {
    var named := host + dots;
    DotsAtTheEnd(host, dots, named);
    TrimBoth(before, named, after, u.isSpace);
  }

  lemma SameText(before: string, host: string, dots: string, after: string)
    ensures before + host + dots + after == before + ((host + dots) + after)
  {
  }

  lemma NormalizeHostOf(u: Unicode, isIp: string -> bool, whole: string, h: string)
    requires Stripped(u, whole) == h
    ensures NormalizeHost(u, isIp, whole) == if DnsName(isIp, h) then Ok(h) else Err(InvalidHost)
  {
    CanonicalHostByCharacters(isIp, h);
  }

  /** Blanks around a host, trailing dots and ASCII case do not matter; what is left must be a
      DNS name. */
  lemma NormalizeHostExactly(u: Unicode, isIp: string -> bool,
                             before: string, host: string, dots: string, after: string)
    requires Sane(u) && host != "" && host[|host| - 1] != '.'
    requires !u.isSpace(host[0]) && !u.isSpace(host[|host| - 1])
    requires (forall c :: c in before + after ==> u.isSpace(c)) && forall c :: c in dots ==> c == '.'
    ensures var r := NormalizeHost(u, isIp, before + host + dots + after);
      r == if DnsName(isIp, AsciiLower(host)) then Ok(AsciiLower(host)) else Err(InvalidHost)
  {
    StrippedIs(u, before, host, dots, after);
    SameText(before, host, dots, after);
    NormalizeHostOf(u, isIp, before + host + dots + after, AsciiLower(host));
  }

  predicate HostAllowed(scope: Scope, host: string) {
    || host == scope.rootHost
    || host in scope.hosts
    || (scope.includeSubdomains && EndsWith(host, scope.rootHost)
        && var prefix := host[..|host| - |scope.rootHost|];
           prefix != "" && prefix[|prefix| - 1] == '.')
  }

  /** With subdomains admitted, the hosts allowed through the root are exactly those whose
      label list ends with the root's labels. */
  lemma SubdomainsByLabel(scope: Scope, host: string)
    requires scope.includeSubdomains && host !in scope.hosts
    ensures HostAllowed(scope, host) <==> ListEndsWith(Split(host, '.'), Split(scope.rootHost, '.'))
  {
    var root := scope.rootHost;
    SplitSuffix(root, host, '.');
    if EndsWith(host, ['.'] + root) {
      var n := |host| - |root|;
      assert host[n - 1..] == ['.'] + root;
      assert host[n..] == host[n - 1..][1..];
    }
    if EndsWith(host, root) && |host| > |root| && host[|host| - |root| - 1] == '.' {
      assert host[|host| - |root| - 1..] == ['.'] + host[|host| - |root|..];
    }
  }

  // ---------- paths ----------

  predicate IsSlash(c: char) { c == '/' }

  predicate PathMatchesPrefix(path: string, prefix: string) {
    prefix == "/" ||
    var boundary := TrimEnd(prefix, IsSlash);
    path == boundary || (boundary <= path && |path| > |boundary| && path[|boundary|] == '/')
  }

  predicate Absolute(path: string) {
    path != "" && path[0] == '/'
  }

  function Segments(path: string): seq<string> {
    Split(path, '/')
  }

  function Boundary(prefix: string): string {
    TrimEnd(prefix, IsSlash)
  }

  /** On absolute paths the match compares whole segments: the prefix without its trailing
      slashes has a segment list that begins the path's. */
  lemma PathMatchIsSegmentPrefix(path: string, prefix: string)
    requires Absolute(path)
    ensures PathMatchesPrefix(path, prefix) <==> Segments(Boundary(prefix)) <= Segments(path)
  {
    SplitPrefix(Boundary(prefix), path, '/');
  }

  lemma PathMatchReflexive(path: string)
    requires Absolute(path)
    ensures PathMatchesPrefix(path, path)
  {
  }

  lemma PathMatchTransitive(a: string, b: string, c: string)
    requires Absolute(a) && Absolute(b) && Absolute(c)
    requires PathMatchesPrefix(a, b) && PathMatchesPrefix(b, c)
    ensures PathMatchesPrefix(a, c)
  {
  }

  // ---------- whole URLs ----------

  predicate UsesDefaultPort(url: Url) {
    || (url.scheme == "http" && (url.port.None? || url.port.value == 80))
    || (url.scheme == "https" && (url.port.None? || url.port.value == 443))
  }

  predicate Admits(scope: Scope, host: string, url: Url) {
    && HostAllowed(scope, host)
    && (scope.requireDefaultPort ==> UsesDefaultPort(url))
    && exists prefix :: prefix in scope.prefixes && PathMatchesPrefix(url.path, prefix)
  }

  predicate AllowsUrl(u: Unicode, isIp: string -> bool, scope: Scope, url: Url) {
    && url.host.Some?
    && var host := NormalizeHost(u, isIp, url.host.value);
    && host.Ok?
    && Admits(scope, host.value, url)
  }

  /** Without its trailing slashes, the prefix has segments that begin the path's. */
  ghost predicate SegmentsBegin(prefix: string, path: string) {
    exists n: nat {:trigger prefix[..n]} ::
      && n <= |prefix| && (forall i :: n <= i < |prefix| ==> prefix[i] == '/')
      && (n > 0 ==> prefix[n - 1] != '/')
      && Split(prefix[..n], '/') <= Split(path, '/')
  }

  /** What the scope promises of a URL: an admitted host, compared label by label; a default
      port if that is asked for; and a path under one of the prefixes, segment by segment. */
  ghost predicate InScope(u: Unicode, isIp: string -> bool, scope: Scope, url: Url) {
    && url.host.Some? && NormalizeHost(u, isIp, url.host.value).Ok?
    && var host := NormalizeHost(u, isIp, url.host.value).value;
    && (|| host == scope.rootHost
        || host in scope.hosts
        || (scope.includeSubdomains && ListEndsWith(Split(host, '.'), Split(scope.rootHost, '.'))))
    && (scope.requireDefaultPort ==>
          || (url.scheme == "http" && (url.port.None? || url.port.value == 80))
          || (url.scheme == "https" && (url.port.None? || url.port.value == 443)))
    && exists prefix :: prefix in scope.prefixes && (prefix == "/" || SegmentsBegin(prefix, url.path))
  }

  lemma PathMatchesBySegments(path: string, prefix: string)
    ensures PathMatchesPrefix(path, prefix) <==> prefix == "/" || SegmentsBegin(prefix, path)
  {
    var b := Boundary(prefix);
    SplitPrefix(b, path, '/');
    assert prefix[..|b|] == b;
    if SegmentsBegin(prefix, path) {
      var n: nat :| && n <= |prefix| && (forall i :: n <= i < |prefix| ==> prefix[i] == '/')
                    && (n > 0 ==> prefix[n - 1] != '/') && Split(prefix[..n], '/') <= Split(path, '/');
      TrimEndIs(prefix, n, IsSlash);
    }
  }

  /** The check is exactly that promise. */
  lemma AllowsUrlExactly(u: Unicode, isIp: string -> bool, scope: Scope, url: Url)
    ensures AllowsUrl(u, isIp, scope, url) <==> InScope(u, isIp, scope, url)
  {
    forall prefix | prefix in scope.prefixes
      ensures PathMatchesPrefix(url.path, prefix) <==> prefix == "/" || SegmentsBegin(prefix, url.path)
    {
      PathMatchesBySegments(url.path, prefix);
    }
    if url.host.Some? && NormalizeHost(u, isIp, url.host.value).Ok? {
      var host := NormalizeHost(u, isIp, url.host.value).value;
      if scope.includeSubdomains && host !in scope.hosts {
        SubdomainsByLabel(scope, host);
      }
    }
  }

  ghost predicate Wider(scope: Scope, wider: Scope) {
    && wider.rootHost == scope.rootHost
    && wider.includeSubdomains == scope.includeSubdomains
    && wider.requireDefaultPort == scope.requireDefaultPort
    && scope.hosts <= wider.hosts && scope.prefixes <= wider.prefixes
  }

  lemma WiderAdmitsMore(scope: Scope, wider: Scope, host: string, url: Url)
    requires Wider(scope, wider) && Admits(scope, host, url)
    ensures Admits(wider, host, url)
  {
    var prefix :| prefix in scope.prefixes && PathMatchesPrefix(url.path, prefix);
    assert prefix in wider.prefixes;
  }

  /** Adding hosts or path prefixes only enlarges what is allowed. */
  lemma WiderAllowsMore(u: Unicode, isIp: string -> bool, scope: Scope, wider: Scope, url: Url)
    requires Wider(scope, wider) && AllowsUrl(u, isIp, scope, url)
    ensures AllowsUrl(u, isIp, wider, url)
  {
    var host := NormalizeHost(u, isIp, url.host.value).value;
    WiderAdmitsMore(scope, wider, host, url);
  }

  /** The scope a caller builds up. `canonical` stands for the URL parser's view of a path
      prefix, None when it refuses it. */
  class FetchScope {
    var rootHost: string
    var includeSubdomains: bool
    var explicitlyAllowedHosts: set<string>
    var allowedPathPrefixes: set<string>
    var requireDefaultPort: bool

    function Value(): Scope
      reads this
    {
      Scope(rootHost, includeSubdomains, explicitlyAllowedHosts, allowedPathPrefixes, requireDefaultPort)
    }

    constructor ForUrl(root: string, path: string)
      ensures Value() == Scope(root, false, {}, {path}, true)
    {
      rootHost, includeSubdomains, requireDefaultPort := root, false, true;
      explicitlyAllowedHosts, allowedPathPrefixes := {}, {path};
    }

    method AllowHost(u: Unicode, isIp: string -> bool, host: string) returns (r: Result<(), ScopeError>)
      modifies this`explicitlyAllowedHosts
      ensures Wider(old(Value()), Value())
      ensures r.Ok? <==> NormalizeHost(u, isIp, host).Ok?
      ensures r.Err? ==> Value() == old(Value())
      ensures r.Ok? ==> HostAllowed(Value(), NormalizeHost(u, isIp, host).value)
      ensures explicitlyAllowedHosts ==
                old(explicitlyAllowedHosts) + (if r.Ok? then {NormalizeHost(u, isIp, host).value} else {})
    {
      var normalized := NormalizeHost(u, isIp, host);
      if normalized.Err? {
        return Err(normalized.error);
      }
      explicitlyAllowedHosts := explicitlyAllowedHosts + {normalized.value};
      r := Ok(());
    }

    method AllowPathPrefix(canonical: string -> Option<string>, prefix: string) returns (r: Result<(), ScopeError>)
      modifies this`allowedPathPrefixes
      ensures Wider(old(Value()), Value())
      ensures r.Ok? <==> canonical(prefix).Some?
      ensures allowedPathPrefixes ==
                old(allowedPathPrefixes) + (if r.Ok? then {canonical(prefix).value} else {})
    {
      var normalized := canonical(prefix);
      if normalized.None? {
        return Err(InvalidPathScope);
      }
      allowedPathPrefixes := allowedPathPrefixes + {normalized.value};
      r := Ok(());
    }

    /** Replaces the prefixes, or changes nothing if one of them is refused or there is none. */
    method SetAllowedPathPrefixes(canonical: string -> Option<string>, prefixes: seq<string>)
      returns (r: Result<(), ScopeError>)
      modifies this`allowedPathPrefixes
      ensures r.Ok? <==> prefixes != [] && forall p :: p in prefixes ==> canonical(p).Some?
      ensures r.Err? ==> Value() == old(Value())
      ensures r.Ok? ==> allowedPathPrefixes == set p | p in prefixes :: canonical(p).value
    {
      var normalized: set<string> := {};
      for i := 0 to |prefixes|
        invariant forall p :: p in prefixes[..i] ==> canonical(p).Some?
        invariant normalized == set p | p in prefixes[..i] :: canonical(p).value
        invariant Value() == old(Value())
      {
        var one := canonical(prefixes[i]);
        assert prefixes[..i + 1] == prefixes[..i] + [prefixes[i]];
        if one.None? {
          return Err(InvalidPathScope);
        }
        normalized := normalized + {one.value};
      }
      assert prefixes[..|prefixes|] == prefixes;
      assert prefixes != [] ==> canonical(prefixes[0]).value in normalized;
      if normalized == {} {
        return Err(InvalidPathScope);
      }
      allowedPathPrefixes := normalized;
      r := Ok(());
    }
  }
}
