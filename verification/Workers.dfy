/** Any number of workers around one queue. A worker reaps, leases, crawls, hands the page to
    the ingest API and settles its attempt; it may stop at any point. An event is one atomic
    step of one participant, so a run is any interleaving of them. */
module Workers {
  import opened Wrappers
  import opened LeaseRows
  import opened LeaseSteps
  import opened LeaseInvariant
  import opened LeaseTimes

  type WorkerId = nat

  /** What the crawl command came back with: an error, or an envelope. `sound` stands for
      every check of the envelope except the one on `sourceId`. */
  datatype CrawlResult =
    | CrawlError(code: string, diagnostic: Payload)
    | Envelope(sourceId: Option<Uuid>, sound: bool, page: Payload, diagnostic: Payload)

  datatype Failure = Failure(code: string, diagnostic: Payload)

  datatype Page = Page(source: Uuid, body: Payload)

  datatype Stage =
    | Idle
    | Reaped
    | Crawling(job: CrawlJob)
    | Ingesting(job: CrawlJob, page: Page, diagnostic: Payload)
    | Failing(job: CrawlJob, failure: Failure)
    | Completing(job: CrawlJob, diagnostic: Payload, receipt: Payload)

  /** One call of the ingest API, with its receipt if it succeeded. */
  datatype Call = Call(worker: WorkerId, attempt: Uuid, tenant: Uuid, source: Uuid, page: Page,
                       receipt: Option<Payload>)

  /** `calls`, `holder` and `rejected` are a log kept for the proofs: all ingest calls so far,
      which worker each attempt was given to, and the attempts whose crawl was refused. */
  datatype World = World(sys: Sys, clock: Time, workers: map<WorkerId, Stage>,
                         calls: seq<Call>, holder: map<Uuid, WorkerId>, rejected: set<Uuid>)

  datatype Event =
    | Tick(elapsed: nat)
    | Operator(op: Op)
    | Start(w: WorkerId)
    | Stop(w: WorkerId)
    | DoReap(w: WorkerId)
    | DoLease(w: WorkerId, op: Op)
    | DoCrawl(w: WorkerId, result: CrawlResult)
    | DoIngest(w: WorkerId, outcome: Result<Payload, Failure>)
    | Settle(w: WorkerId)

  predicate Accepted(result: CrawlResult, job: CrawlJob) {
    result.Envelope? && result.sound && result.sourceId == Some(job.source)
  }

  function CrawlFailure(result: CrawlResult): Failure {
    if result.CrawlError? then Failure(result.code, result.diagnostic)
    else Failure("crawl_command_protocol", "validate crawl command result")
  }

  /** The transaction that settles a worker's attempt. */
  function SettleOp(stage: Stage): Op
    requires stage.Failing? || stage.Completing?
  {
    match stage
    case Failing(job, failure) => Fail(job, failure.code, failure.diagnostic)
    case Completing(job, diagnostic, receipt) => Complete(job, diagnostic, receipt)
  }

  function CallOf(w: WorkerId, job: CrawlJob, page: Page, outcome: Result<Payload, Failure>): Call {
    Call(w, job.attempt, job.tenant, job.source, page,
         if outcome.Ok? then Some(outcome.value) else None)
  }

  predicate Holding(stage: Stage) {
    !stage.Idle? && !stage.Reaped?
  }

  ghost predicate Enabled(world: World, e: Event) {
    match e
    case Tick(_) => true
    case Operator(op) => (op.Seed? || op.Reap?) && Legal(world.sys, world.clock, op)
    case Start(w) => w !in world.workers
    case Stop(w) => w in world.workers
    case DoReap(w) => w in world.workers && world.workers[w].Idle?
    case DoLease(w, op) =>
      w in world.workers && world.workers[w].Reaped? && op.Lease? && Legal(world.sys, world.clock, op)
    case DoCrawl(w, _) => w in world.workers && world.workers[w].Crawling?
    case DoIngest(w, _) => w in world.workers && world.workers[w].Ingesting?
    case Settle(w) => w in world.workers && (world.workers[w].Failing? || world.workers[w].Completing?)
  }

  /** The queue transaction an event commits, if any. */
  ghost function OpOf(world: World, e: Event): Option<Op> {
    match e
    case Operator(op) => Some(op)
    case DoReap(_) => Some(Reap)
    case DoLease(_, op) => Some(op)
    case Settle(w) =>
      if w in world.workers && (world.workers[w].Failing? || world.workers[w].Completing?)
      then Some(SettleOp(world.workers[w])) else None
    case _ => None
  }

  ghost function NextSys(world: World, e: Event): Sys {
    var op := OpOf(world, e);
    if op.Some? then Apply(world.sys, world.clock, op.value) else world.sys
  }

  ghost function Next(world: World, e: Event): World
    requires Enabled(world, e)
  {
    var sys := NextSys(world, e);
    match e
    case Tick(elapsed) => world.(clock := world.clock + elapsed)
    case Operator(_) => world.(sys := sys)
    case Start(w) => world.(workers := world.workers[w := Idle])
    case Stop(w) => world.(workers := world.workers - {w})
    case DoReap(w) => world.(sys := sys, workers := world.workers[w := Reaped])
    case DoLease(w, op) =>
      if !LeaseAccepted(op.owner, op.seconds) then world.(workers := world.workers - {w})
      else if op.picked.None? then world.(workers := world.workers[w := Idle])
      else
        var id := op.picked.value;
        world.(sys := sys,
               workers := world.workers[w := Crawling(Snapshot(id, world.sys.db.jobs[id], op.token, op.attempt))],
               holder := world.holder[op.attempt := w])
    case DoCrawl(w, result) =>
      var job := world.workers[w].job;
      if Accepted(result, job) then
        world.(workers := world.workers[w :=
          Ingesting(job, Page(result.sourceId.value, result.page), result.diagnostic)])
      else
        world.(workers := world.workers[w := Failing(job, CrawlFailure(result))],
               rejected := world.rejected + {job.attempt})
    case DoIngest(w, outcome) =>
      var Ingesting(job, page, diagnostic) := world.workers[w];
      world.(calls := world.calls + [CallOf(w, job, page, outcome)],
             workers := world.workers[w :=
               if outcome.Ok? then Completing(job, diagnostic, outcome.value)
               else Failing(job, outcome.error)])
    case Settle(w) =>
      world.(sys := sys,
             workers := if Holds(world.sys.db, world.workers[w].job) then world.workers[w := Idle]
                        else world.workers - {w})
  }

  ghost predicate Initial(world: World) {
    && world.sys == Sys(Db(map[], map[]), map[])
    && world.workers == map[] && world.calls == [] && world.holder == map[] && world.rejected == {}
  }

  ghost predicate StepAt(ws: seq<World>, es: seq<Event>, i: nat)
    requires |ws| == |es| + 1 && i < |es|
  {
    Enabled(ws[i], es[i]) && ws[i + 1] == Next(ws[i], es[i])
  }

  ghost predicate Path(ws: seq<World>, es: seq<Event>) {
    && |ws| == |es| + 1
    && forall i: nat {:trigger StepAt(ws, es, i)} :: i < |es| ==> StepAt(ws, es, i)
  }

  ghost predicate Run(ws: seq<World>, es: seq<Event>) {
    Path(ws, es) && Initial(ws[0])
  }

  // ---------- the invariant of a run ----------

  ghost predicate Called(world: World, a: Uuid) {
    exists i :: 0 <= i < |world.calls| && world.calls[i].attempt == a
  }

  /** Call `i` is the successful handoff of attempt `a`. */
  ghost predicate Handoff(world: World, i: nat, a: Uuid, receipt: Payload) {
    && i < |world.calls|
    && world.calls[i].attempt == a
    && world.calls[i].receipt == Some(receipt)
    && world.calls[i].page.source == world.calls[i].source
  }

  ghost predicate SnapshotOk(world: World, w: WorkerId, job: CrawlJob) {
    var db := world.sys.db;
    && job.attempt in db.attempts
    && db.attempts[job.attempt].job == job.id
    && db.attempts[job.attempt].token == job.token
    && db.attempts[job.attempt].status in {Leased, Abandoned}
    && job.id in db.jobs
    && SameSource(db.jobs[job.id], job.tenant, job.source, job.startUrl)
    && (db.jobs[job.id].token == Some(job.token) ==> db.jobs[job.id].attemptCount == job.attemptCount)
    && job.attempt in world.holder && world.holder[job.attempt] == w
  }

  ghost predicate StageOk(world: World, w: WorkerId) {
    && w in world.workers
    && var stage := world.workers[w];
    && (Holding(stage) ==> SnapshotOk(world, w, stage.job))
    && (stage.Crawling? || stage.Ingesting? ==>
          !Called(world, stage.job.attempt) && stage.job.attempt !in world.rejected)
    && (stage.Ingesting? ==> stage.page.source == stage.job.source)
    && (stage.Completing? ==> exists i :: Handoff(world, i, stage.job.attempt, stage.receipt))
  }

  ghost predicate CallOk(world: World, i: nat)
    requires i < |world.calls|
  {
    var call, db := world.calls[i], world.sys.db;
    && call.attempt in db.attempts
    && call.attempt in world.holder && world.holder[call.attempt] == call.worker
    && call.attempt !in world.rejected
    && db.attempts[call.attempt].job in db.jobs
    && db.jobs[db.attempts[call.attempt].job].tenant == call.tenant
    && db.jobs[db.attempts[call.attempt].job].source == call.source
    && call.page.source == call.source
  }

  ghost predicate DifferentCalls(world: World, i: nat, k: nat)
    requires i < |world.calls| && k < |world.calls|
  {
    world.calls[i].attempt != world.calls[k].attempt
  }

  /** A succeeded attempt stored the receipt of its handoff. */
  ghost predicate SuccessOk(world: World, a: Uuid)
    requires a in world.sys.db.attempts
  {
    world.sys.db.attempts[a].status == Succeeded ==>
      world.sys.db.attempts[a].receipt.Some?
      && exists i :: Handoff(world, i, a, world.sys.db.attempts[a].receipt.value)
  }

  ghost predicate LogInv(world: World) {
    && world.holder.Keys == world.sys.db.attempts.Keys
    && world.rejected <= world.sys.db.attempts.Keys
    && (forall i: nat {:trigger CallOk(world, i)} :: i < |world.calls| ==> CallOk(world, i))
    && (forall i: nat, k: nat {:trigger DifferentCalls(world, i, k)} ::
          i < k < |world.calls| ==> DifferentCalls(world, i, k))
    && (forall a {:trigger SuccessOk(world, a)} :: a in world.sys.db.attempts ==> SuccessOk(world, a))
  }

  ghost predicate WorldInv(world: World) {
    && Inv(world.sys)
    && TimeInv(world.sys, world.clock)
    && (forall w {:trigger StageOk(world, w)} :: w in world.workers ==> StageOk(world, w))
    && LogInv(world)
  }

  // ---------- preservation ----------

  /** What the other participants see of a transaction. */
  ghost predicate Preserves(s: Sys, t: Sys, mine: Option<Uuid>) {
    && s.db.jobs.Keys <= t.db.jobs.Keys
    && s.db.attempts.Keys <= t.db.attempts.Keys
    && (forall j :: j in s.db.jobs ==>
          && SameSource(t.db.jobs[j], s.db.jobs[j].tenant, s.db.jobs[j].source, s.db.jobs[j].startUrl)
          && (t.db.jobs[j].token.Some? ==>
                (t.db.jobs[j].token == s.db.jobs[j].token && t.db.jobs[j].attemptCount == s.db.jobs[j].attemptCount)
                || (forall a :: a in s.db.attempts ==> Some(s.db.attempts[a].token) != t.db.jobs[j].token)))
    && (forall a :: a in s.db.attempts ==>
          && t.db.attempts[a].job == s.db.attempts[a].job
          && t.db.attempts[a].token == s.db.attempts[a].token
          && (t.db.attempts[a] == s.db.attempts[a] || t.db.attempts[a].status == Abandoned || mine == Some(a)))
  }

  lemma SeedPreserves(s: Sys, now: Time, op: Op)
    requires Inv(s) && op.Seed? && Legal(s, now, op)
    ensures Preserves(s, ApplySeed(s, now, op), None)
  {
  }

  lemma ReapPreserves(s: Sys, now: Time)
    requires Inv(s)
    ensures Preserves(s, ApplyReap(s, now), None)
  {
  }

  lemma LeasePreserves(s: Sys, now: Time, op: Op)
    requires Inv(s) && op.Lease? && Legal(s, now, op)
    ensures Preserves(s, ApplyLease(s, now, op), None)
  {
  }

  lemma EndPreserves(s: Sys, j: Uuid, a: Uuid, free: Job, ended: Attempt)
    requires j in s.db.jobs && a in s.db.attempts && free.token.None?
    requires SameSource(free, s.db.jobs[j].tenant, s.db.jobs[j].source, s.db.jobs[j].startUrl)
    requires ended.job == s.db.attempts[a].job && ended.token == s.db.attempts[a].token
    ensures Preserves(s, Sys(Db(s.db.jobs[j := free], s.db.attempts[a := ended]), s.history), Some(a))
  {
  }

  lemma OpPreserves(s: Sys, now: Time, op: Op)
    requires Inv(s) && Legal(s, now, op)
    ensures Preserves(s, Apply(s, now, op),
                      if op.Complete? || op.Fail? then Some(op.held.attempt) else None)
  {
    match op
    case Seed(_, _, _, _, _, _, _) =>
      SeedPreserves(s, now, op);
    case Lease(_, _, _, _, _, _) =>
      LeasePreserves(s, now, op);
    case Complete(held, _, _) =>
      if Holds(s.db, held) {
        var t := ApplyComplete(s, now, op);
        EndPreserves(s, held.id, held.attempt, t.db.jobs[held.id], t.db.attempts[held.attempt]);
      }
    case Fail(held, _, _) =>
      if Holds(s.db, held) {
        var t := ApplyFail(s, now, op);
        EndPreserves(s, held.id, held.attempt, t.db.jobs[held.id], t.db.attempts[held.attempt]);
      }
    case Reap =>
      ReapPreserves(s, now);
  }

  lemma SysKept(world: World, e: Event)
    requires WorldInv(world) && Enabled(world, e)
    ensures Inv(Next(world, e).sys) && TimeInv(Next(world, e).sys, Next(world, e).clock)
    ensures Next(world, e).sys == NextSys(world, e) && world.clock <= Next(world, e).clock
  {
    var op := OpOf(world, e);
    if op.Some? {
      InvKept(world.sys, world.clock, op.value);
      TimeInvKept(world.sys, world.clock, op.value);
    }
    TimeInvLater(NextSys(world, e), world.clock, Next(world, e).clock);
  }

  // ---------- what an event leaves alone ----------

  /** The worker an event belongs to, if any. */
  function Actor(e: Event): Option<WorkerId> {
    match e
    case Tick(_) => None
    case Operator(_) => None
    case Start(w) => Some(w)
    case Stop(w) => Some(w)
    case DoReap(w) => Some(w)
    case DoLease(w, _) => Some(w)
    case DoCrawl(w, _) => Some(w)
    case DoIngest(w, _) => Some(w)
    case Settle(w) => Some(w)
  }

  /** The attempt an event is about, if it belongs to a worker that holds one. */
  ghost function Mine(world: World, e: Event): Option<Uuid>
    requires Enabled(world, e)
  {
    if e.DoCrawl? || e.DoIngest? || e.Settle? then Some(world.workers[e.w].job.attempt) else None
  }

  /** Only the actor's stage moves, only its own attempt is logged, and the tables change the
      way others can rely on. */
  ghost predicate Framed(world: World, next: World, actor: Option<WorkerId>, mine: Option<Uuid>) {
    && Preserves(world.sys, next.sys, mine)
    && world.calls <= next.calls
    && (forall i :: |world.calls| <= i < |next.calls| ==> Some(next.calls[i].attempt) == mine)
    && (forall a :: a in world.holder ==> a in next.holder && next.holder[a] == world.holder[a])
    && (forall a :: a in next.rejected ==> a in world.rejected || Some(a) == mine)
    && (forall w :: w in next.workers && Some(w) != actor ==> w in world.workers && next.workers[w] == world.workers[w])
  }

  /** The attempt an event is about is the actor's. */
  ghost predicate Owned(world: World, actor: Option<WorkerId>, mine: Option<Uuid>) {
    mine.Some? ==> mine.value in world.holder && Some(world.holder[mine.value]) == actor
  }

  lemma NextPreserves(world: World, e: Event)
    requires WorldInv(world) && Enabled(world, e)
    ensures Preserves(world.sys, Next(world, e).sys, Mine(world, e))
  {
    SysKept(world, e);
    var op := OpOf(world, e);
    if op.Some? {
      OpPreserves(world.sys, world.clock, op.value);
    }
  }

  lemma CallsGrow(world: World, e: Event)
    requires Enabled(world, e)
    ensures world.calls <= Next(world, e).calls
    ensures forall i :: |world.calls| <= i < |Next(world, e).calls| ==>
      Some(Next(world, e).calls[i].attempt) == Mine(world, e)
  {
  }

  lemma HoldersStay(world: World, e: Event)
    requires Enabled(world, e) && world.holder.Keys == world.sys.db.attempts.Keys
    ensures forall a :: a in world.holder ==> a in Next(world, e).holder && Next(world, e).holder[a] == world.holder[a]
    ensures forall a :: a in Next(world, e).rejected ==> a in world.rejected || Some(a) == Mine(world, e)
  {
  }

  lemma OnlyTheActorMoves(world: World, e: Event)
    requires Enabled(world, e)
    ensures forall w :: w in Next(world, e).workers && Some(w) != Actor(e) ==>
      w in world.workers && Next(world, e).workers[w] == world.workers[w]
  {
  }

  lemma NextFrames(world: World, e: Event)
    requires WorldInv(world) && Enabled(world, e)
    ensures Framed(world, Next(world, e), Actor(e), Mine(world, e))
  {
    NextPreserves(world, e);
    CallsGrow(world, e);
    HoldersStay(world, e);
    OnlyTheActorMoves(world, e);
  }

  lemma MineIsOwned(world: World, e: Event)
    requires WorldInv(world) && Enabled(world, e)
    ensures Owned(world, Actor(e), Mine(world, e))
  {
    if Mine(world, e).Some? {
      assert StageOk(world, e.w);
    }
  }

  // ---------- the workers' stages ----------

  lemma NotCalledYet(world: World, next: World, actor: Option<WorkerId>, mine: Option<Uuid>, a: Uuid)
    requires Framed(world, next, actor, mine) && mine != Some(a) && !Called(world, a)
    ensures !Called(next, a)
  {
    forall i | 0 <= i < |next.calls|
      ensures next.calls[i].attempt != a
    {
      assert i < |world.calls| ==> next.calls[i] == world.calls[i];
    }
  }

  /** A worker that did not move keeps its stage's invariant: only the transaction of another
      worker ran, and that one holds another attempt. */
  lemma BystanderKept(world: World, next: World, w: WorkerId, actor: Option<WorkerId>, mine: Option<Uuid>)
    requires Framed(world, next, actor, mine) && Owned(world, actor, mine)
    requires StageOk(world, w) && w in next.workers && actor != Some(w)
    ensures StageOk(next, w)
  {
    var stage := world.workers[w];
    if Holding(stage) {
      var a := stage.job.attempt;
      assert SnapshotOk(next, w, stage.job);
      if stage.Crawling? || stage.Ingesting? {
        NotCalledYet(world, next, actor, mine, a);
      }
      if stage.Completing? {
        var i :| Handoff(world, i, a, stage.receipt);
        assert Handoff(next, i, a, stage.receipt);
      }
    }
  }

  lemma LeasedStageOk(world: World, e: Event)
    requires WorldInv(world) && Enabled(world, e) && e.DoLease? && e.w in Next(world, e).workers
    ensures StageOk(Next(world, e), e.w)
  {
    var next := Next(world, e);
    if next.workers[e.w].Crawling? {
      forall i: nat | i < |world.calls|
        ensures world.calls[i].attempt != e.op.attempt
      {
        assert CallOk(world, i);
      }
      assert !Called(next, e.op.attempt);
    }
  }

  lemma ActorKept(world: World, e: Event, w: WorkerId)
    requires WorldInv(world) && Enabled(world, e) && Actor(e) == Some(w) && w in Next(world, e).workers
    ensures StageOk(Next(world, e), w)
  {
    var next := Next(world, e);
    if w in world.workers {
      assert StageOk(world, w);
    }
    match e {
      case DoLease(_, _) =>
        LeasedStageOk(world, e);
      case DoCrawl(_, _) =>
        assert next.calls == world.calls;
        assert !Called(next, world.workers[w].job.attempt);
      case DoIngest(_, outcome) =>
        if outcome.Ok? {
          assert Handoff(next, |world.calls|, world.workers[w].job.attempt, outcome.value);
        }
      case _ =>
    }
  }

  // ---------- the call log ----------

  /** At most one entry is added to the log, about an attempt that had none. */
  ghost predicate LogGrows(world: World, next: World, mine: Option<Uuid>) {
    && |next.calls| <= |world.calls| + 1
    && (next.calls == world.calls || next.rejected == world.rejected)
    && (next.calls != world.calls || next.rejected != world.rejected ==>
          mine.Some? && !Called(world, mine.value))
    && (|world.calls| < |next.calls| ==> CallOk(next, |world.calls|))
  }

  lemma NextLogGrows(world: World, e: Event)
    requires WorldInv(world) && Enabled(world, e)
    ensures LogGrows(world, Next(world, e), Mine(world, e))
  {
    if Mine(world, e).Some? {
      assert StageOk(world, e.w);
    }
  }

  lemma CallKept(world: World, next: World, i: nat, actor: Option<WorkerId>, mine: Option<Uuid>)
    requires Framed(world, next, actor, mine) && LogGrows(world, next, mine)
    requires i < |world.calls| && CallOk(world, i)
    ensures CallOk(next, i)
  {
    assert next.calls[i] == world.calls[i];
    assert Called(world, world.calls[i].attempt);
  }

  lemma CallsKept(world: World, next: World, actor: Option<WorkerId>, mine: Option<Uuid>)
    requires LogInv(world) && Framed(world, next, actor, mine) && LogGrows(world, next, mine)
    ensures forall i: nat {:trigger CallOk(next, i)} :: i < |next.calls| ==> CallOk(next, i)
    ensures forall i: nat, k: nat {:trigger DifferentCalls(next, i, k)} ::
      i < k < |next.calls| ==> DifferentCalls(next, i, k)
  {
    forall i: nat | i < |next.calls|
      ensures CallOk(next, i)
    {
      if i < |world.calls| {
        assert CallOk(world, i);
        CallKept(world, next, i, actor, mine);
      }
    }
    forall i: nat, k: nat | i < k < |next.calls|
      ensures DifferentCalls(next, i, k)
    {
      assert next.calls[i] == world.calls[i];
      assert k < |world.calls| ==> DifferentCalls(world, i, k);
    }
  }

  lemma SuccessFrame(world: World, next: World, a: Uuid)
    requires a in world.sys.db.attempts && SuccessOk(world, a) && world.calls <= next.calls
    requires a in next.sys.db.attempts
    requires next.sys.db.attempts[a] == world.sys.db.attempts[a] || next.sys.db.attempts[a].status == Abandoned
    ensures SuccessOk(next, a)
  {
    if next.sys.db.attempts[a].status == Succeeded {
      var receipt := world.sys.db.attempts[a].receipt.value;
      var i :| Handoff(world, i, a, receipt);
      assert Handoff(next, i, a, receipt);
    }
  }

  /** The attempt an event is about is settled with its handoff's receipt, or as before. */
  lemma OwnSuccess(world: World, e: Event, a: Uuid)
    requires WorldInv(world) && Enabled(world, e) && Mine(world, e) == Some(a)
    ensures a in Next(world, e).sys.db.attempts && SuccessOk(Next(world, e), a)
  {
    var next, stage := Next(world, e), world.workers[e.w];
    assert StageOk(world, e.w);
    assert SuccessOk(world, a);
    if e.Settle? && stage.Completing? && Holds(world.sys.db, stage.job) {
      var i :| Handoff(world, i, a, stage.receipt);
      assert Handoff(next, i, a, stage.receipt);
    } else if next.sys.db.attempts[a].status == Succeeded {
      SuccessFrame(world, next, a);
    }
  }

  /** Attempts that an event adds are open. */
  lemma NewAttemptsAreOpen(world: World, e: Event, a: Uuid)
    requires WorldInv(world) && Enabled(world, e)
    requires a in Next(world, e).sys.db.attempts && a !in world.sys.db.attempts
    ensures Next(world, e).sys.db.attempts[a].status == Leased
  {
  }

  lemma SuccessesKept(world: World, e: Event, next: World)
    requires WorldInv(world) && Enabled(world, e) && next == Next(world, e)
    ensures forall a {:trigger SuccessOk(next, a)} :: a in next.sys.db.attempts ==> SuccessOk(next, a)
  {
    NextFrames(world, e);
    forall a | a in next.sys.db.attempts
      ensures SuccessOk(next, a)
    {
      if Mine(world, e) == Some(a) {
        OwnSuccess(world, e, a);
      } else if a in world.sys.db.attempts {
        assert SuccessOk(world, a);
        SuccessFrame(world, next, a);
      } else {
        NewAttemptsAreOpen(world, e, a);
      }
    }
  }

  lemma KeysKept(world: World, e: Event)
    requires WorldInv(world) && Enabled(world, e)
    ensures Next(world, e).holder.Keys == Next(world, e).sys.db.attempts.Keys
    ensures Next(world, e).rejected <= Next(world, e).sys.db.attempts.Keys
  {
    if Mine(world, e).Some? {
      assert StageOk(world, e.w);
    }
  }

  lemma LogKept(world: World, e: Event)
    requires WorldInv(world) && Enabled(world, e)
    ensures LogInv(Next(world, e))
  {
    var next := Next(world, e);
    NextFrames(world, e);
    NextLogGrows(world, e);
    CallsKept(world, next, Actor(e), Mine(world, e));
    SuccessesKept(world, e, next);
    KeysKept(world, e);
  }

  /** Every event keeps the invariant of a run. */
  lemma WorldInvKept(world: World, e: Event)
    requires WorldInv(world) && Enabled(world, e)
    ensures WorldInv(Next(world, e))
  {
    SysKept(world, e);
    LogKept(world, e);
    NextFrames(world, e);
    MineIsOwned(world, e);
    var next := Next(world, e);
    forall w | w in next.workers
      ensures StageOk(next, w)
    {
      if Actor(e) == Some(w) {
        ActorKept(world, e, w);
      } else {
        BystanderKept(world, next, w, Actor(e), Mine(world, e));
      }
    }
  }

  lemma {:induction false} RunInv(ws: seq<World>, es: seq<Event>, i: nat)
    requires Run(ws, es) && i < |ws|
    ensures WorldInv(ws[i])
  {
    if i > 0 {
      RunInv(ws, es, i - 1);
      assert StepAt(ws, es, i - 1);
      WorldInvKept(ws[i - 1], es[i - 1]);
    } else {
      InvInitially();
    }
  }
}
