/** Any number of fetches over one shared table of per-host limiters. An event is one atomic
    step of one fetch or one answer of the network; a run is any interleaving of them. */
module FetchNet {
  import opened Wrappers
  import Lists
  import opened Texts
  import opened FetchScopes

  type Key = string
  type FetchId = nat
  type SemId = nat

  datatype FetchError =
    | OutOfScope | InvalidTarget | ResolveFailed | RequestFailed | RedirectLimit
    | RemoteStatus | BadDocument | Unexpected | Cancelled

  datatype Outcome = NotModified(url: Url) | Changed(url: Url)

  /** What comes back for one request. A redirect carries its target as the URL parser reads
      it, None when the Location is missing or unreadable; an answer is `identified` when the
      URL has a canonical identity, and `sound` when the document passes every check. */
  datatype Answer =
    | Broken
    | Unmodified(identified: bool)
    | Redirect(target: Option<Url>)
    | Refused
    | Content(sound: bool)

  datatype Phase =
    | Asking
    | Queued(sem: SemId)
    | Permitted(sem: SemId)
    | InFlight(sem: SemId)
    | Done(result: Result<Outcome, FetchError>)

  datatype Request = Request(url: Url, conditional: bool)

  datatype Fetch = Fetch(scope: Scope, requested: Url, conditional: bool, current: Url,
                         redirects: nat, phase: Phase, sent: seq<Request>)

  /** The fetcher's settings, with the scope check and the limiter key it applies to a URL. */
  datatype Policy = Policy(maxRedirects: nat, maxConcurrency: nat,
                           allows: (Scope, Url) -> bool, keyOf: Url -> Key)

  datatype Net = Net(limiters: map<Key, SemId>, free: map<SemId, nat>, nextSem: nat,
                     fetches: map<FetchId, Fetch>)

  predicate Allowed(p: Policy, scope: Scope, url: Url) {
    p.allows(scope, url)
  }

  /** The code's own policy: URLs are checked against the registered scope, and limiter keys
      are lower-cased hosts. */
  function StandardPolicy(maxRedirects: nat, maxConcurrency: nat, u: Unicode, isIp: string -> bool): Policy {
    Policy(maxRedirects, maxConcurrency,
           (scope: Scope, url: Url) => AllowsUrl(u, isIp, scope, url),
           (url: Url) => if url.host.Some? then AsciiLower(url.host.value) else "")
  }

  predicate HasPermit(phase: Phase) {
    phase.Permitted? || phase.InFlight?
  }

  // ---------- one fetch ----------

  function Begun(p: Policy, scope: Scope, url: Option<Url>, conditional: bool): Result<Fetch, FetchError> {
    if url.None? then Err(InvalidTarget)
    else if !Allowed(p, scope, url.value) then Err(OutOfScope)
    else Ok(Fetch(scope, url.value, conditional, url.value, 0, Asking, []))
  }

  /** The fetch with its next request sent: the validators go only to the requested host. */
  function Sent(p: Policy, f: Fetch): Fetch
    requires HasPermit(f.phase)
  {
    f.(phase := InFlight(f.phase.sem),
       sent := f.sent + [Request(f.current, f.conditional && p.keyOf(f.current) == p.keyOf(f.requested))])
  }

  function Ended(f: Fetch, result: Result<Outcome, FetchError>): Fetch {
    f.(phase := Done(result))
  }

  /** What one answer makes of the fetch. */
  function AfterAnswer(p: Policy, f: Fetch, answer: Answer): Fetch {
    match answer
    case Broken => Ended(f, Err(RequestFailed))
    case Unmodified(identified) => Ended(f, if identified then Ok(NotModified(f.current)) else Err(InvalidTarget))
    case Redirect(target) =>
      if f.redirects == p.maxRedirects then Ended(f, Err(RedirectLimit))
      else if target.None? then Ended(f, Err(InvalidTarget))
      else if !Allowed(p, f.scope, target.value) then Ended(f, Err(OutOfScope))
      else f.(current := target.value, redirects := f.redirects + 1, phase := Asking)
    case Refused => Ended(f, Err(RemoteStatus))
    case Content(sound) => Ended(f, if sound then Ok(Changed(f.current)) else Err(BadDocument))
  }

  // ---------- the shared state ----------

  datatype Event =
    | Begin(id: FetchId, scope: Scope, url: Option<Url>, conditional: bool)
    | Lookup(id: FetchId)
    | Acquire(id: FetchId)
    | Resolve(id: FetchId, ok: bool)
    | Respond(id: FetchId, answer: Answer)
    | Cancel(id: FetchId)

  predicate Enabled(n: Net, e: Event) {
    if e.Begin? then e.id !in n.fetches
    else
      e.id in n.fetches &&
      var phase := n.fetches[e.id].phase;
      match e
      case Lookup(_) => phase.Asking?
      case Acquire(_) => phase.Queued? && phase.sem in n.free && n.free[phase.sem] > 0
      case Resolve(_, _) => phase.Permitted?
      case Respond(_, _) => phase.InFlight?
      case Cancel(_) => !phase.Done?
      case Begin(_, _, _, _) => false
  }

  function WithFetch(n: Net, id: FetchId, f: Fetch): Net {
    n.(fetches := n.fetches[id := f])
  }

  /** Stores the fetch; a permit it held is given back when it no longer holds one. */
  function Put(n: Net, id: FetchId, f: Fetch): Net
    requires id in n.fetches
  {
    var before := n.fetches[id].phase;
    if HasPermit(before) && !HasPermit(f.phase) && before.sem in n.free then
      WithFetch(n.(free := n.free[before.sem := n.free[before.sem] + 1]), id, f)
    else WithFetch(n, id, f)
  }

  function Next(p: Policy, n: Net, e: Event): Net
    requires Enabled(n, e)
  {
    match e
    case Begin(id, scope, url, conditional) =>
      var begun := Begun(p, scope, url, conditional);
      if begun.Ok? then WithFetch(n, id, begun.value) else n
    case Lookup(id) =>
      var f := n.fetches[id];
      if f.redirects > p.maxRedirects then Put(n, id, Ended(f, Err(Unexpected)))
      else
        var key := p.keyOf(f.current);
        if key in n.limiters then Put(n, id, f.(phase := Queued(n.limiters[key])))
        else
          Net(n.limiters[key := n.nextSem], n.free[n.nextSem := p.maxConcurrency], n.nextSem + 1,
              n.fetches[id := f.(phase := Queued(n.nextSem))])
    case Acquire(id) =>
      var f := n.fetches[id];
      WithFetch(n.(free := n.free[f.phase.sem := n.free[f.phase.sem] - 1]), id,
                f.(phase := Permitted(f.phase.sem)))
    case Resolve(id, ok) =>
      var f := n.fetches[id];
      Put(n, id, if ok then Sent(p, f) else Ended(f, Err(ResolveFailed)))
    case Respond(id, answer) => Put(n, id, AfterAnswer(p, n.fetches[id], answer))
    case Cancel(id) => Put(n, id, Ended(n.fetches[id], Err(Cancelled)))
  }

  // ---------- invariants ----------

  ghost function Holders(n: Net, sem: SemId): set<FetchId> {
    set id | id in n.fetches && HasPermit(n.fetches[id].phase) && n.fetches[id].phase.sem == sem
  }

  /** Permits are neither lost nor made: the free ones and the held ones add up. */
  ghost predicate Conserved(p: Policy, n: Net, sem: SemId) {
    sem in n.free && n.free[sem] + |Holders(n, sem)| == p.maxConcurrency
  }

  ghost predicate FetchOk(p: Policy, f: Fetch) {
    && f.redirects <= p.maxRedirects
    && Allowed(p, f.scope, f.requested) && Allowed(p, f.scope, f.current)
    && (forall i :: 0 <= i < |f.sent| ==>
          Allowed(p, f.scope, f.sent[i].url)
          && (f.sent[i].conditional <==> f.conditional && p.keyOf(f.sent[i].url) == p.keyOf(f.requested)))
    && (if f.phase.InFlight? then |f.sent| == f.redirects + 1
        else if f.phase.Done? then |f.sent| <= f.redirects + 1
        else |f.sent| == f.redirects)
    && f.phase != Done(Err(Unexpected))
  }

  /** A fetch that refers to a limiter refers to the one its current host has in the table. */
  ghost predicate Tied(p: Policy, n: Net, f: Fetch) {
    f.phase.Queued? || HasPermit(f.phase) ==>
      p.keyOf(f.current) in n.limiters && n.limiters[p.keyOf(f.current)] == f.phase.sem
  }

  ghost predicate FetchInv(p: Policy, n: Net, id: FetchId) {
    id in n.fetches && FetchOk(p, n.fetches[id]) && Tied(p, n, n.fetches[id])
  }

  ghost predicate NetInv(p: Policy, n: Net) {
    && (forall id {:trigger FetchInv(p, n, id)} :: id in n.fetches ==> FetchInv(p, n, id))
    && (forall sem {:trigger Conserved(p, n, sem)} :: sem in n.free ==> Conserved(p, n, sem))
    && (forall sem :: sem in n.free ==> sem < n.nextSem)
    && (forall key :: key in n.limiters ==> n.limiters[key] in n.free)
    && (forall k, l :: k in n.limiters && l in n.limiters && n.limiters[k] == n.limiters[l] ==> k == l)
  }

  lemma NetInvInitially(p: Policy)
    ensures NetInv(p, Net(map[], map[], 0, map[]))
  {
  }

  lemma FetchOkAfterAnswer(p: Policy, f: Fetch, answer: Answer)
    requires FetchOk(p, f) && f.phase.InFlight?
    ensures FetchOk(p, AfterAnswer(p, f, answer))
    ensures !HasPermit(AfterAnswer(p, f, answer).phase)
    ensures AfterAnswer(p, f, answer).phase.Asking? || AfterAnswer(p, f, answer).phase.Done?
  {
  }

  lemma FetchOkSent(p: Policy, f: Fetch)
    requires FetchOk(p, f) && f.phase.Permitted?
    ensures FetchOk(p, Sent(p, f))
  {
  }

  /** Replacing one fetch moves the holders of a semaphore by at most that fetch. */
  lemma HoldersMove(n: Net, m: Net, id: FetchId, sem: SemId)
    requires id in m.fetches && m.fetches == n.fetches[id := m.fetches[id]]
    ensures |Holders(m, sem)| ==
      |Holders(n, sem)|
      - (if id in n.fetches && HasPermit(n.fetches[id].phase) && n.fetches[id].phase.sem == sem then 1 else 0)
      + (if HasPermit(m.fetches[id].phase) && m.fetches[id].phase.sem == sem then 1 else 0)
  {
    var others := Holders(n, sem) - {id};
    assert Holders(n, sem) == if id in Holders(n, sem) then others + {id} else others;
    assert Holders(m, sem) == if id in Holders(m, sem) then others + {id} else others;
  }

  /** A step that changes one fetch, keeps the table, and moves permits to match. */
  lemma PutKeeps(p: Policy, n: Net, m: Net, id: FetchId)
    requires NetInv(p, n)
    requires m.limiters == n.limiters && m.nextSem == n.nextSem && m.free.Keys == n.free.Keys
    requires id in m.fetches && m.fetches == n.fetches[id := m.fetches[id]]
    requires FetchOk(p, m.fetches[id]) && Tied(p, m, m.fetches[id])
    requires forall sem :: sem in n.free ==>
      m.free[sem] + (if HasPermit(m.fetches[id].phase) && m.fetches[id].phase.sem == sem then 1 else 0)
      == n.free[sem]
         + (if id in n.fetches && HasPermit(n.fetches[id].phase) && n.fetches[id].phase.sem == sem then 1 else 0)
    ensures NetInv(p, m)
  {
    forall other | other in m.fetches
      ensures FetchInv(p, m, other)
    {
      assert other != id ==> FetchInv(p, n, other);
    }
    forall sem | sem in m.free
      ensures Conserved(p, m, sem)
    {
      assert Conserved(p, n, sem);
      HoldersMove(n, m, id, sem);
    }
  }

  lemma LookupKeeps(p: Policy, n: Net, id: FetchId)
    requires NetInv(p, n) && Enabled(n, Lookup(id))
    ensures NetInv(p, Next(p, n, Lookup(id)))
  {
    var m := Next(p, n, Lookup(id));
    var f := n.fetches[id];
    assert FetchInv(p, n, id);
    if p.keyOf(f.current) in n.limiters {
      PutKeeps(p, n, m, id);
    } else {
      forall other | other in m.fetches
        ensures FetchInv(p, m, other)
      {
        assert FetchInv(p, n, other);
      }
      forall sem | sem in m.free
        ensures Conserved(p, m, sem)
      {
        HoldersMove(n, m, id, sem);
        if sem == n.nextSem {
          forall other | other in n.fetches
            ensures other !in Holders(n, sem)
          {
            assert FetchInv(p, n, other);
          }
          assert Holders(n, sem) == {};
        } else {
          assert Conserved(p, n, sem);
        }
      }
    }
  }

  lemma NetInvKept(p: Policy, n: Net, e: Event)
    requires NetInv(p, n) && Enabled(n, e)
    ensures NetInv(p, Next(p, n, e))
  {
    var m := Next(p, n, e);
    assert !e.Begin? ==> FetchInv(p, n, e.id);
    match e {
      case Begin(id, scope, url, conditional) =>
        if Begun(p, scope, url, conditional).Ok? {
          PutKeeps(p, n, m, id);
        }
      case Lookup(id) => LookupKeeps(p, n, id);
      case Acquire(id) => PutKeeps(p, n, m, id);
      case Resolve(id, ok) =>
        if ok {
          FetchOkSent(p, n.fetches[id]);
        }
        PutKeeps(p, n, m, id);
      case Respond(id, answer) =>
        FetchOkAfterAnswer(p, n.fetches[id], answer);
        PutKeeps(p, n, m, id);
      case Cancel(id) => PutKeeps(p, n, m, id);
    }
  }

  // ---------- runs ----------

  ghost predicate StepAt(p: Policy, ns: seq<Net>, es: seq<Event>, i: nat)
    requires |ns| == |es| + 1 && i < |es|
  {
    Enabled(ns[i], es[i]) && ns[i + 1] == Next(p, ns[i], es[i])
  }

  ghost predicate Run(p: Policy, ns: seq<Net>, es: seq<Event>) {
    && |ns| == |es| + 1
    && ns[0] == Net(map[], map[], 0, map[])
    && forall i: nat {:trigger StepAt(p, ns, es, i)} :: i < |es| ==> StepAt(p, ns, es, i)
  }

  lemma {:induction false} RunInv(p: Policy, ns: seq<Net>, es: seq<Event>, i: nat)
    requires Run(p, ns, es) && i < |ns|
    ensures NetInv(p, ns[i])
  {
    if i == 0 {
      NetInvInitially(p);
    } else {
      RunInv(p, ns, es, i - 1);
      assert StepAt(p, ns, es, i - 1);
      NetInvKept(p, ns[i - 1], es[i - 1]);
    }
  }

  /** The requests in flight to one host key. */
  ghost function Requests(p: Policy, n: Net, key: Key): set<FetchId> {
    set id | id in n.fetches && n.fetches[id].phase.InFlight? && p.keyOf(n.fetches[id].current) == key
  }

  /** At no point of any run do more requests run against one host key than the policy allows. */
  lemma RequestsBounded(p: Policy, ns: seq<Net>, es: seq<Event>, i: nat, key: Key)
    requires Run(p, ns, es) && i < |ns|
    ensures |Requests(p, ns[i], key)| <= p.maxConcurrency
  {
    var n := ns[i];
    RunInv(p, ns, es, i);
    forall id | id in Requests(p, n, key)
      ensures key in n.limiters && id in Holders(n, n.limiters[key])
    {
      assert FetchInv(p, n, id);
    }
    if key in n.limiters {
      assert Conserved(p, n, n.limiters[key]);
      Lists.SmallerSet(Requests(p, n, key), Holders(n, n.limiters[key]));
    } else {
      assert Requests(p, n, key) == {};
    }
  }

  /** A key keeps the semaphore it was first given. */
  lemma {:induction false} OneSemaphorePerKey(p: Policy, ns: seq<Net>, es: seq<Event>, i: nat, k: nat, key: Key)
    requires Run(p, ns, es) && i <= k < |ns| && key in ns[i].limiters
    ensures key in ns[k].limiters && ns[k].limiters[key] == ns[i].limiters[key]
    decreases k
  {
    if i < k {
      OneSemaphorePerKey(p, ns, es, i, k - 1, key);
      assert StepAt(p, ns, es, k - 1);
    }
  }

  /** Every fetch sends at most one request more than the redirects it may follow, all of them
      in its scope, its validators only to the requested host; and the error after the
      redirect loop is never reached. */
  lemma FetchesBehave(p: Policy, ns: seq<Net>, es: seq<Event>, i: nat, id: FetchId)
    requires Run(p, ns, es) && i < |ns| && id in ns[i].fetches
    ensures var f := ns[i].fetches[id];
      && |f.sent| <= p.maxRedirects + 1
      && (forall k :: 0 <= k < |f.sent| ==> Allowed(p, f.scope, f.sent[k].url))
      && (forall k :: 0 <= k < |f.sent| ==>
            (f.sent[k].conditional <==> f.conditional && p.keyOf(f.sent[k].url) == p.keyOf(f.requested)))
      && f.phase != Done(Err(Unexpected))
  {
    RunInv(p, ns, es, i);
    assert FetchInv(p, ns[i], id);
  }

  // ---------- the code's own policy ----------

  /** Every request any fetch ever sends is in its scope by host, port and path, and a fetch
      sends at most one more than the redirects it may follow. */
  lemma RequestsStayInScope(maxRedirects: nat, maxConcurrency: nat, u: Unicode, isIp: string -> bool,
                            ns: seq<Net>, es: seq<Event>, i: nat, id: FetchId, k: nat)
    requires Run(StandardPolicy(maxRedirects, maxConcurrency, u, isIp), ns, es)
    requires i < |ns| && id in ns[i].fetches && k < |ns[i].fetches[id].sent|
    ensures InScope(u, isIp, ns[i].fetches[id].scope, ns[i].fetches[id].sent[k].url)
    ensures |ns[i].fetches[id].sent| <= maxRedirects + 1
  {
    FetchesBehave(StandardPolicy(maxRedirects, maxConcurrency, u, isIp), ns, es, i, id);
    AllowsUrlExactly(u, isIp, ns[i].fetches[id].scope, ns[i].fetches[id].sent[k].url);
  }

  /** The requests in flight to one host, in whatever ASCII case its name is written. */
  ghost function RequestsTo(n: Net, host: string): set<FetchId> {
    set id | id in n.fetches && n.fetches[id].phase.InFlight? && n.fetches[id].current.host.Some?
             && EqualIgnoringCase(n.fetches[id].current.host.value, host)
  }

  /** At no point of any run are there more requests in flight to one host than are allowed. */
  lemma RequestsPerHostBounded(maxRedirects: nat, maxConcurrency: nat, u: Unicode, isIp: string -> bool,
                               ns: seq<Net>, es: seq<Event>, i: nat, host: string)
    requires Run(StandardPolicy(maxRedirects, maxConcurrency, u, isIp), ns, es) && i < |ns|
    ensures |RequestsTo(ns[i], host)| <= maxConcurrency
  {
    var p := StandardPolicy(maxRedirects, maxConcurrency, u, isIp);
    forall id | id in RequestsTo(ns[i], host)
      ensures id in Requests(p, ns[i], AsciiLower(host))
    {
      LowerComparesIgnoringCase(ns[i].fetches[id].current.host.value, host);
    }
    Lists.SmallerSet(RequestsTo(ns[i], host), Requests(p, ns[i], AsciiLower(host)));
    RequestsBounded(p, ns, es, i, AsciiLower(host));
  }

  /** Validators go out exactly with the requests to the requested host. */
  lemma ValidatorsStayWithTheHost(maxRedirects: nat, maxConcurrency: nat, u: Unicode, isIp: string -> bool,
                                  ns: seq<Net>, es: seq<Event>, i: nat, id: FetchId, k: nat)
    requires Run(StandardPolicy(maxRedirects, maxConcurrency, u, isIp), ns, es)
    requires i < |ns| && id in ns[i].fetches && k < |ns[i].fetches[id].sent|
    ensures var f := ns[i].fetches[id];
      && f.sent[k].url.host.Some? && f.requested.host.Some?
      && (f.sent[k].conditional <==>
            f.conditional && EqualIgnoringCase(f.sent[k].url.host.value, f.requested.host.value))
  {
    var p := StandardPolicy(maxRedirects, maxConcurrency, u, isIp);
    var f := ns[i].fetches[id];
    RunInv(p, ns, es, i);
    assert FetchInv(p, ns[i], id);
    AllowsUrlExactly(u, isIp, f.scope, f.sent[k].url);
    AllowsUrlExactly(u, isIp, f.scope, f.requested);
    LowerComparesIgnoringCase(f.sent[k].url.host.value, f.requested.host.value);
  }

  // ---------- progress ----------

  predicate Moves(e: Event) {
    !e.Begin? && !e.Cancel?
  }

  /** As long as some fetch is unfinished, some fetch can move: one that waits for a permit
      holds none, and whoever holds the permits it waits for can go on. */
  lemma SomeFetchCanMove(p: Policy, ns: seq<Net>, es: seq<Event>, i: nat, id: FetchId)
    requires p.maxConcurrency >= 1 && Run(p, ns, es) && i < |ns|
    requires id in ns[i].fetches && !ns[i].fetches[id].phase.Done?
    ensures exists e :: Moves(e) && Enabled(ns[i], e)
  {
    var n := ns[i];
    RunInv(p, ns, es, i);
    assert FetchInv(p, n, id);
    var e: Event;
    match n.fetches[id].phase {
      case Asking => e := Lookup(id);
      case Permitted(_) => e := Resolve(id, true);
      case InFlight(_) => e := Respond(id, Broken);
      case Queued(sem) =>
        assert Conserved(p, n, sem);
        if n.free[sem] > 0 {
          e := Acquire(id);
        } else {
          var holder :| holder in Holders(n, sem);
          e := if n.fetches[holder].phase.Permitted? then Resolve(holder, true) else Respond(holder, Broken);
        }
    }
    assert Moves(e) && Enabled(n, e);
  }

  /** How many more steps the fetch can take. */
  ghost function Work(p: Policy, f: Fetch): int {
    match f.phase
    case Asking => 4 * (p.maxRedirects - f.redirects) + 4
    case Queued(_) => 4 * (p.maxRedirects - f.redirects) + 3
    case Permitted(_) => 4 * (p.maxRedirects - f.redirects) + 2
    case InFlight(_) => 4 * (p.maxRedirects - f.redirects) + 1
    case Done(_) => 0
  }

  /** Every step uses up some of its fetch's work and leaves all others alone. */
  lemma WorkDecreases(p: Policy, n: Net, e: Event)
    requires NetInv(p, n) && Enabled(n, e) && !e.Begin?
    ensures 0 <= Work(p, Next(p, n, e).fetches[e.id]) < Work(p, n.fetches[e.id]) <= 4 * (p.maxRedirects + 1)
    ensures forall id :: id in n.fetches && id != e.id ==> Next(p, n, e).fetches[id] == n.fetches[id]
  {
    assert FetchInv(p, n, e.id);
  }

  /** How many of these events are steps of this fetch. */
  function StepsOf(es: seq<Event>, id: FetchId): nat {
    if es == [] then 0
    else
      var e := es[|es| - 1];
      StepsOf(es[..|es| - 1], id) + (if e.id == id && !e.Begin? then 1 else 0)
  }

  /** One event spends the work of its fetch and adds its step. */
  lemma StepSpendsWork(p: Policy, n: Net, e: Event, id: FetchId)
    requires NetInv(p, n) && Enabled(n, e)
    ensures var m := Next(p, n, e);
      if id in n.fetches then
        id in m.fetches
        && Work(p, m.fetches[id]) + (if e.id == id && !e.Begin? then 1 else 0) <= Work(p, n.fetches[id])
      else
        !(e.id == id && !e.Begin?) && (id in m.fetches ==> Work(p, m.fetches[id]) <= 4 * (p.maxRedirects + 1))
  {
    if !e.Begin? {
      WorkDecreases(p, n, e);
    }
  }

  lemma {:induction false} WorkIsBudget(p: Policy, ns: seq<Net>, es: seq<Event>, i: nat, id: FetchId)
    requires Run(p, ns, es) && i < |ns|
    ensures id !in ns[i].fetches ==> StepsOf(es[..i], id) == 0
    ensures id in ns[i].fetches ==> StepsOf(es[..i], id) + Work(p, ns[i].fetches[id]) <= 4 * (p.maxRedirects + 1)
  {
    if i > 0 {
      WorkIsBudget(p, ns, es, i - 1, id);
      RunInv(p, ns, es, i - 1);
      assert StepAt(p, ns, es, i - 1);
      StepSpendsWork(p, ns[i - 1], es[i - 1], id);
      assert es[..i][..i - 1] == es[..i - 1];
    }
  }

  /** In any run, however long and however its steps interleave with others, a fetch takes at
      most 4 * (maxRedirects + 1) steps. */
  lemma FetchStepsBounded(p: Policy, ns: seq<Net>, es: seq<Event>, id: FetchId)
    requires Run(p, ns, es)
    ensures StepsOf(es, id) <= 4 * (p.maxRedirects + 1)
  {
    WorkIsBudget(p, ns, es, |es|, id);
    RunInv(p, ns, es, |es|);
    assert es[..|es|] == es;
    assert id in ns[|es|].fetches ==> FetchInv(p, ns[|es|], id);
  }

  // ---------- what the answers tell ----------

  /** The requests start at the requested URL and each follows the redirect before it. */
  ghost predicate Chained(f: Fetch, log: seq<Answer>) {
    && (f.sent != [] ==> f.sent[0].url == f.requested)
    && |f.sent| <= |log| + 1
    && forall k :: 0 <= k < |f.sent| - 1 ==> log[k] == Redirect(Some(f.sent[k + 1].url))
  }

  ghost predicate OnItsWay(f: Fetch, log: seq<Answer>) {
    && |f.sent| == |log|
    && (if log == [] then f.current == f.requested else log[|log| - 1] == Redirect(Some(f.current)))
  }

  /** A fetch whose last request was answered ends as that answer says, unless it was sent on;
      then, and before any answer, only a host that does not resolve or a cancellation ends it. */
  ghost predicate EndedBy(p: Policy, f: Fetch, log: seq<Answer>, result: Result<Outcome, FetchError>) {
    if log == [] || |log| < |f.sent| then result == Err(Cancelled) || (result == Err(ResolveFailed) && f.sent == [])
    else
      |f.sent| == |log| &&
      var url := f.sent[|log| - 1].url;
      match log[|log| - 1]
      case Broken => result == Err(RequestFailed)
      case Refused => result == Err(RemoteStatus)
      case Unmodified(identified) => result == if identified then Ok(NotModified(url)) else Err(InvalidTarget)
      case Content(sound) => result == if sound then Ok(Changed(url)) else Err(BadDocument)
      case Redirect(target) =>
        if |log| == p.maxRedirects + 1 then result == Err(RedirectLimit)
        else if target.None? then result == Err(InvalidTarget)
        else if !p.allows(f.scope, target.value) then result == Err(OutOfScope)
        else result == Err(Cancelled) || result == Err(ResolveFailed)
  }

  /** Where a fetch stands once `log` has answered its requests: under way to where the last
      redirect pointed, with a request out to it, or done. A success rests on the answer of
      the last URL; the limit is hit exactly when one redirect too many has arrived. */
  ghost predicate Tells(p: Policy, f: Fetch, log: seq<Answer>) {
    && FetchOk(p, f) && Chained(f, log)
    && (match f.phase
        case Asking => OnItsWay(f, log)
        case Queued(_) => OnItsWay(f, log)
        case Permitted(_) => OnItsWay(f, log)
        case InFlight(_) => |f.sent| == |log| + 1 && f.sent[|log|].url == f.current
        case Done(result) => |log| <= |f.sent| && EndedBy(p, f, log, result))
    && (f.phase == Done(Err(RedirectLimit)) <==> |log| == p.maxRedirects + 1 && log[p.maxRedirects].Redirect?)
  }

  lemma SendingTells(p: Policy, f: Fetch, log: seq<Answer>)
    requires Tells(p, f, log) && f.phase.Permitted?
    ensures Tells(p, Sent(p, f), log)
  {
    FetchOkSent(p, f);
  }

  lemma AnswerTells(p: Policy, f: Fetch, log: seq<Answer>, answer: Answer)
    requires Tells(p, f, log) && f.phase.InFlight?
    ensures Tells(p, AfterAnswer(p, f, answer), log + [answer])
  {
    FetchOkAfterAnswer(p, f, answer);
  }

  predicate UnderWay(phase: Phase) {
    phase.Asking? || phase.Queued? || phase.Permitted?
  }

  lemma MovingTells(p: Policy, f: Fetch, phase: Phase, log: seq<Answer>)
    requires Tells(p, f, log) && UnderWay(f.phase) && UnderWay(phase)
    ensures Tells(p, f.(phase := phase), log)
  {
  }

  lemma EndingTells(p: Policy, f: Fetch, error: FetchError, log: seq<Answer>)
    requires Tells(p, f, log) && !f.phase.Done?
    requires error.Cancelled? || (error.ResolveFailed? && UnderWay(f.phase))
    ensures Tells(p, Ended(f, Err(error)), log)
  {
  }

  lemma StepTells(p: Policy, n: Net, e: Event, f: Fetch, log: seq<Answer>)
    requires Enabled(n, e) && e.id in n.fetches && n.fetches[e.id] == f && Tells(p, f, log)
    ensures e.id in Next(p, n, e).fetches
    ensures Tells(p, Next(p, n, e).fetches[e.id], if e.Respond? then log + [e.answer] else log)
  {
    match e {
      case Lookup(_) => MovingTells(p, f, Next(p, n, e).fetches[e.id].phase, log);
      case Acquire(_) => MovingTells(p, f, Permitted(f.phase.sem), log);
      case Resolve(_, ok) =>
        if ok {
          SendingTells(p, f, log);
        } else {
          EndingTells(p, f, ResolveFailed, log);
        }
      case Respond(_, answer) => AnswerTells(p, f, log, answer);
      case Cancel(_) => EndingTells(p, f, Cancelled, log);
    }
  }

  function AnswerIn(e: Event, id: FetchId): seq<Answer> {
    if e.Respond? && e.id == id then [e.answer] else []
  }

  /** The answers among these events to the requests of this fetch, in order. */
  function AnswersOf(es: seq<Event>, id: FetchId): seq<Answer> {
    if es == [] then [] else AnswersOf(es[..|es| - 1], id) + AnswerIn(es[|es| - 1], id)
  }

  /** The fetch stands where these answers have led it, or has not begun. */
  ghost predicate LedBy(p: Policy, n: Net, id: FetchId, log: seq<Answer>) {
    if id in n.fetches then Tells(p, n.fetches[id], log) else log == []
  }

  lemma EventLeads(p: Policy, n: Net, e: Event, id: FetchId, log: seq<Answer>)
    requires Enabled(n, e) && LedBy(p, n, id, log)
    ensures LedBy(p, Next(p, n, e), id, log + AnswerIn(e, id))
  {
    assert log + [] == log;
    if e.id == id && id in n.fetches {
      StepTells(p, n, e, n.fetches[id], log);
    } else if id in n.fetches {
      assert Next(p, n, e).fetches[id] == n.fetches[id];
    }
  }

  /** In any run, however its steps interleave with others, every fetch stands where the
      answers to its own requests have led it. */
  lemma {:induction false} RequestsFollowRedirects(p: Policy, ns: seq<Net>, es: seq<Event>, i: nat, id: FetchId)
    requires Run(p, ns, es) && i < |ns|
    ensures LedBy(p, ns[i], id, AnswersOf(es[..i], id))
  {
    if i > 0 {
      RequestsFollowRedirects(p, ns, es, i - 1, id);
      assert StepAt(p, ns, es, i - 1);
      assert es[..i][..i - 1] == es[..i - 1];
      EventLeads(p, ns[i - 1], es[i - 1], id, AnswersOf(es[..i - 1], id));
    }
  }

  // ---------- one fetch on its own ----------

  ghost function OneRequest(p: Policy, f: Fetch, answer: Answer): Fetch {
    AfterAnswer(p, Sent(p, f.(phase := Permitted(0))), answer)
  }

  /** The fetch driven to its end by its own steps alone, with a permit whenever it asks. */
  ghost function Alone(p: Policy, f: Fetch, answers: nat -> Answer, resolves: nat -> bool): Fetch
    requires f.phase.Asking? && f.redirects <= p.maxRedirects
    decreases p.maxRedirects - f.redirects
  {
    if !resolves(|f.sent|) then Ended(f, Err(ResolveFailed))
    else
      var next := OneRequest(p, f, answers(|f.sent|));
      if next.phase.Asking? then Alone(p, next, answers, resolves) else next
  }

  function FirstAnswers(answers: nat -> Answer, n: nat): (log: seq<Answer>)
    ensures |log| == n && forall k :: 0 <= k < n ==> log[k] == answers(k)
  {
    if n == 0 then [] else FirstAnswers(answers, n - 1) + [answers(n - 1)]
  }

  /** A finished fetch, all of whose requests were answered. */
  ghost predicate EndedWell(p: Policy, g: Fetch, answers: nat -> Answer) {
    Tells(p, g, FirstAnswers(answers, |g.sent|)) && g.phase.Done? && g.phase.result != Err(Cancelled)
  }

  lemma OneRequestTells(p: Policy, f: Fetch, log: seq<Answer>, answer: Answer)
    requires Tells(p, f, log) && f.phase.Asking?
    ensures Tells(p, OneRequest(p, f, answer), log + [answer])
    ensures var next := OneRequest(p, f, answer);
      && next.scope == f.scope && next.requested == f.requested && |next.sent| == |f.sent| + 1
      && (next.phase.Asking? || (next.phase.Done? && next.phase.result != Err(Cancelled)))
  {
    var asked := f.(phase := Permitted(0));
    MovingTells(p, f, Permitted(0), log);
    SendingTells(p, asked, log);
    AnswerTells(p, Sent(p, asked), log, answer);
  }

  lemma AfterAnswerPhases(p: Policy, f: Fetch, answer: Answer)
    ensures var next := OneRequest(p, f, answer);
      && |next.sent| == |f.sent| + 1 && next.redirects <= f.redirects + 1
      && (next.phase.Asking? ==> f.redirects != p.maxRedirects && next.redirects == f.redirects + 1)
      && (!next.phase.Asking? ==> next.phase.Done? && next.phase.result != Err(ResolveFailed))
  {
  }

  /** It sends no request to a host that does not resolve, and fails to resolve only such. */
  lemma {:induction false} AloneSendsWhatResolves(p: Policy, f: Fetch, answers: nat -> Answer, resolves: nat -> bool)
    requires f.phase.Asking? && f.redirects <= p.maxRedirects
    ensures var g := Alone(p, f, answers, resolves);
      && |f.sent| <= |g.sent| && (forall k: nat :: |f.sent| <= k < |g.sent| ==> resolves(k))
      && (g.phase == Done(Err(ResolveFailed)) ==> !resolves(|g.sent|))
    decreases p.maxRedirects - f.redirects
  {
    if resolves(|f.sent|) {
      AfterAnswerPhases(p, f, answers(|f.sent|));
      var next := OneRequest(p, f, answers(|f.sent|));
      if next.phase.Asking? {
        AloneSendsWhatResolves(p, next, answers, resolves);
      }
    }
  }

  /** A fetch left to itself always ends, and ends well. */
  lemma {:induction false} AloneEnds(p: Policy, f: Fetch, answers: nat -> Answer, resolves: nat -> bool)
    requires Tells(p, f, FirstAnswers(answers, |f.sent|)) && f.phase.Asking?
    ensures var g := Alone(p, f, answers, resolves);
      EndedWell(p, g, answers) && g.scope == f.scope && g.requested == f.requested
    decreases p.maxRedirects - f.redirects
  {
    if resolves(|f.sent|) {
      var log := FirstAnswers(answers, |f.sent|);
      OneRequestTells(p, f, log, answers(|f.sent|));
      assert FirstAnswers(answers, |f.sent| + 1) == log + [answers(|f.sent|)];
      var next := OneRequest(p, f, answers(|f.sent|));
      if next.phase.Asking? {
        AloneEnds(p, next, answers, resolves);
      }
    }
  }

  /** The redirect loop as the code runs it. `answers(k)` is what the k-th request brings,
      `resolves(k)` whether its host resolves. */
  method FollowRedirects(p: Policy, scope: Scope, url: Option<Url>, conditional: bool,
                         answers: nat -> Answer, resolves: nat -> bool)
    returns (result: Result<Outcome, FetchError>, sent: seq<Request>)
    ensures var begun := Begun(p, scope, url, conditional);
      if begun.Err? then result == Err(begun.error) && sent == []
      else Alone(p, begun.value, answers, resolves).phase == Done(result)
           && Alone(p, begun.value, answers, resolves).sent == sent
    ensures url.None? ==> result == Err(InvalidTarget) && sent == []
    ensures url.Some? && !p.allows(scope, url.value) ==> result == Err(OutOfScope) && sent == []
  {
    sent := [];
    if url.None? {
      return Err(InvalidTarget), sent;
    }
    if !Allowed(p, scope, url.value) {
      return Err(OutOfScope), sent;
    }
    var current := url.value;
    ghost var begun := Begun(p, scope, url, conditional).value;
    ghost var f := begun;
    for redirectCount := 0 to p.maxRedirects + 1
      invariant redirectCount <= p.maxRedirects
      invariant f == Fetch(scope, url.value, conditional, current, redirectCount, Asking, sent)
      invariant |sent| == redirectCount
      invariant Alone(p, f, answers, resolves) == Alone(p, begun, answers, resolves)
    {
      if !resolves(redirectCount) {
        return Err(ResolveFailed), sent;
      }
      sent := sent + [Request(current, conditional && p.keyOf(current) == p.keyOf(url.value))];
      match answers(redirectCount) {
        case Broken => return Err(RequestFailed), sent;
        case Unmodified(identified) =>
          if !identified {
            return Err(InvalidTarget), sent;
          }
          return Ok(NotModified(current)), sent;
        case Redirect(target) =>
          if redirectCount == p.maxRedirects {
            return Err(RedirectLimit), sent;
          }
          if target.None? {
            return Err(InvalidTarget), sent;
          }
          if !Allowed(p, scope, target.value) {
            return Err(OutOfScope), sent;
          }
          current := target.value;
          f := OneRequest(p, f, answers(redirectCount));
        case Refused => return Err(RemoteStatus), sent;
        case Content(sound) =>
          if !sound {
            return Err(BadDocument), sent;
          }
          return Ok(Changed(current)), sent;
      }
    }
    result := Err(Unexpected);
  }
}
