/** One turn of a worker, as the code runs it: reap, lease, crawl, hand over, settle, with the
    other participants doing whatever they like in between. Every run of it is a path of
    events of the `Workers` model. */
module ProcessNexts {
  import opened Wrappers
  import opened LeaseRows
  import opened LeaseSteps
  import opened Workers
  import opened CrawlQueues

  /** A path with its worlds. */
  datatype Trace = Trace(ws: seq<World>, es: seq<Event>)

  function Last(t: Trace): World
    requires t.ws != []
  {
    t.ws[|t.ws| - 1]
  }

  ghost predicate Ends(t: Trace, from: World, to: World) {
    Path(t.ws, t.es) && t.ws[0] == from && t.ws[|t.es|] == to
  }

  /** Appends one event of the worker itself. */
  lemma Extend(t: Trace, from: World, to: World, e: Event) returns (longer: Trace, after: World)
    requires Ends(t, from, to) && WorldInv(to) && Enabled(to, e)
    ensures after == Next(to, e) && WorldInv(after)
    ensures Ends(longer, from, after) && longer.es == t.es + [e]
  {
    after := Next(to, e);
    WorldInvKept(to, e);
    longer := Trace(t.ws + [after], t.es + [e]);
    forall i: nat | i < |longer.es|
      ensures StepAt(longer.ws, longer.es, i)
    {
      assert i < |t.es| ==> StepAt(t.ws, t.es, i);
    }
  }

  lemma Joined(t: Trace, from: World, to: World, more: Trace) returns (longer: Trace)
    requires Ends(t, from, to) && Path(more.ws, more.es) && more.ws[0] == to
    ensures Ends(longer, from, Last(more)) && longer.es == t.es + more.es
  {
    longer := Trace(t.ws + more.ws[1..], t.es + more.es);
    var n := |t.es|;
    forall i: nat | i < |longer.es|
      ensures StepAt(longer.ws, longer.es, i)
    {
      if i < n {
        assert StepAt(t.ws, t.es, i);
      } else {
        assert StepAt(more.ws, more.es, i - n);
        assert longer.es[i] == more.es[i - n] && longer.ws[i + 1] == more.ws[i - n + 1];
        assert i > n ==> longer.ws[i] == more.ws[i - n];
      }
    }
  }

  // ---------- the others ----------

  predicate NoneBy(es: seq<Event>, w: WorkerId) {
    forall e :: e in es ==> Actor(e) != Some(w)
  }

  /** From `to` on the other participants do `t`, and time passes. */
  ghost predicate OthersDo(to: World, w: WorkerId, t: Trace) {
    Path(t.ws, t.es) && t.ws[0] == to && NoneBy(t.es, w)
  }

  /** What the others do after each step of the worker's turn. */
  datatype Others = Others(afterReap: Trace, afterLease: Trace, afterCrawl: Trace, afterCall: Trace)

  /** If the worker can take step `e` at the end of `before`, the others go on from there by `t`. */
  ghost predicate GoOn(before: Trace, e: Event, w: WorkerId, t: Trace) {
    before.ws != [] && Enabled(Last(before), e) ==> OthersDo(Next(Last(before), e), w, t)
  }

  lemma {:induction false} OthersKeep(t: Trace, w: WorkerId, i: nat)
    requires Path(t.ws, t.es) && WorldInv(t.ws[0]) && i < |t.ws|
    requires forall e :: e in t.es ==> Actor(e) != Some(w)
    requires w in t.ws[0].workers
    ensures WorldInv(t.ws[i]) && w in t.ws[i].workers && t.ws[i].workers[w] == t.ws[0].workers[w]
  {
    if i > 0 {
      OthersKeep(t, w, i - 1);
      assert StepAt(t.ws, t.es, i - 1);
      assert t.es[i - 1] in t.es;
      WorldInvKept(t.ws[i - 1], t.es[i - 1]);
    }
  }

  /** The worker comes back to tables that others have changed meanwhile. */
  method ComeBack(queue: CrawlQueue, others: Trace,
                  ghost t: Trace, ghost from: World, ghost to: World, ghost w: WorkerId)
    returns (ghost longer: Trace, ghost later: World)
    requires Ends(t, from, to) && WorldInv(to) && w in to.workers
    requires OthersDo(to, w, others)
    modifies queue
    ensures queue.Valid() && later.sys == queue.State() && later == Last(others)
    ensures Ends(longer, from, later) && longer.es == t.es + others.es && WorldInv(later)
    ensures w in later.workers && later.workers[w] == to.workers[w]
  {
    later := Last(others);
    OthersKeep(others, w, |others.es|);
    longer := Joined(t, from, to, others);
    queue.SeeCommitted(Last(others).sys.db, later.sys.history);
  }

  /** The worker takes step `e`, which leaves it in `stage`, and comes back after the others. */
  method StepThenComeBack(queue: CrawlQueue, ghost e: Event, ghost stage: Stage, others: Trace,
                          ghost before: Trace, ghost t: Trace, ghost from: World, ghost to: World, ghost w: WorkerId)
    returns (ghost longer: Trace, ghost later: World)
    requires Ends(t, from, to) && WorldInv(to) && Enabled(to, e)
    requires w in Next(to, e).workers && Next(to, e).workers[w] == stage
    requires before.ws != [] && Last(before) == to && GoOn(before, e, w, others)
    modifies queue
    ensures queue.Valid() && others.ws != [] && later == Last(others) && later.sys == queue.State()
    ensures Ends(longer, from, later) && longer.es == t.es + [e] + others.es && WorldInv(later)
    ensures w in later.workers && later.workers[w] == stage && NoneBy(others.es, w)
  {
    ghost var after;
    longer, after := Extend(t, from, to, e);
    longer, later := ComeBack(queue, others, longer, from, after, w);
  }

  // ---------- reap and lease ----------

  lemma ReapLeads(world: World, w: WorkerId)
    requires w in world.workers && world.workers[w].Idle?
    ensures Enabled(world, DoReap(w)) && w in Next(world, DoReap(w)).workers
    ensures Next(world, DoReap(w)).workers[w] == Reaped
  {
  }

  /** The reap of a turn, and what the others do before its lease call. */
  method ReapFirst(queue: CrawlQueue, now: Time, others: Trace, ghost world: World, ghost w: WorkerId)
    returns (ghost trace: Trace, ghost after: World)
    requires queue.Valid() && world.sys == queue.State() && world.clock == now && WorldInv(world)
    requires w in world.workers && world.workers[w].Idle?
    requires GoOn(Trace([world], []), DoReap(w), w, others)
    modifies queue
    ensures queue.Valid() && others.ws != [] && after == Last(others) && after.sys == queue.State()
    ensures Ends(trace, world, after) && trace.es == [DoReap(w)] + others.es && WorldInv(after)
    ensures w in after.workers && after.workers[w] == Reaped
  {
    var count := queue.ReapExpired(now);
    ReapLeads(world, w);
    ghost var start := Trace([world], []);
    trace, after := StepThenComeBack(queue, DoReap(w), Reaped, others, start, start, world, world, w);
  }

  /** The lease call of a turn. */
  method AskForLease(queue: CrawlQueue, owner: Option<string>, seconds: int,
                     token: Uuid, attempt: Uuid, locked: set<Uuid>, now: Time,
                     ghost t: Trace, ghost from: World, ghost to: World, ghost w: WorkerId)
    returns (leased: Result<Option<CrawlJob>, QueueError>, ghost op: Op, ghost longer: Trace, ghost after: World)
    requires queue.Valid() && to.sys == queue.State() && to.clock == now && WorldInv(to)
    requires Ends(t, from, to) && w in to.workers && to.workers[w].Reaped?
    requires attempt !in queue.attempts
    requires forall a :: a in queue.attempts ==> queue.attempts[a].token != token
    modifies queue
    ensures queue.Valid() && after.sys == queue.State()
    ensures Ends(longer, from, after) && WorldInv(after)
    ensures leased.Err? <==> !LeaseAccepted(owner, seconds)
    ensures leased.Err? ==> after == to.(workers := to.workers - {w}) && longer.es == t.es + [Stop(w)]
    ensures leased.Ok? ==>
      && op == Lease(owner, seconds, token, attempt, locked,
                     if leased.value.None? then None else Some(leased.value.value.id))
      && longer.es == t.es + [DoLease(w, op)]
      && Enabled(to, DoLease(w, op)) && after == Next(to, DoLease(w, op))
    ensures leased == Ok(None) ==> after.workers == to.workers[w := Idle]
    ensures leased.Ok? && leased.value.Some? ==>
      var job := leased.value.value;
      && job.attempt == attempt && job.token == token
      && after.workers == to.workers[w := Crawling(job)] && Holds(after.sys.db, job)
  {
    leased := queue.Lease(owner, seconds, token, attempt, locked, now);
    ghost var picked := if leased.Err? || leased.value.None? then None else Some(leased.value.value.id);
    op := Lease(owner, seconds, token, attempt, locked, picked);
    if leased.Err? {
      longer, after := Extend(t, from, to, Stop(w));
    } else {
      longer, after := Extend(t, from, to, DoLease(w, op));
    }
  }

  /** The first half of a turn: reap what has expired, then ask for a row. */
  method ReapAndLease(queue: CrawlQueue, owner: Option<string>, seconds: int,
                      token: Uuid, attempt: Uuid, locked: set<Uuid>, now: Time, others: Trace,
                      ghost world: World, ghost w: WorkerId)
    returns (leased: Result<Option<CrawlJob>, QueueError>, ghost op: Op, ghost trace: Trace, ghost after: World)
    requires queue.Valid() && world.sys == queue.State() && world.clock == now && WorldInv(world)
    requires w in world.workers && world.workers[w].Idle?
    requires GoOn(Trace([world], []), DoReap(w), w, others)
    requires others.ws != [] && attempt !in Last(others).sys.db.attempts
    requires forall a :: a in Last(others).sys.db.attempts ==> Last(others).sys.db.attempts[a].token != token
    modifies queue
    ensures queue.Valid() && after.sys == queue.State()
    ensures Ends(trace, world, after) && WorldInv(after)
    ensures leased.Err? <==> !LeaseAccepted(owner, seconds)
    ensures leased.Err? ==> w !in after.workers && trace.es == [DoReap(w)] + others.es + [Stop(w)]
    ensures leased.Ok? ==>
      && op == Lease(owner, seconds, token, attempt, locked,
                     if leased.value.None? then None else Some(leased.value.value.id))
      && trace.es == [DoReap(w)] + others.es + [DoLease(w, op)]
      && Enabled(Last(others), DoLease(w, op)) && after == Next(Last(others), DoLease(w, op))
    ensures leased == Ok(None) ==> w in after.workers && after.workers[w].Idle?
    ensures leased.Ok? && leased.value.Some? ==>
      var job := leased.value.value;
      && job.attempt == attempt && job.token == token
      && w in after.workers && after.workers[w] == Crawling(job) && Holds(after.sys.db, job)
  {
    trace, after := ReapFirst(queue, now, others, world, w);
    leased, op, trace, after :=
      AskForLease(queue, owner, seconds, token, attempt, locked, Last(others).clock, trace, world, after, w);
  }

  // ---------- crawl, hand over, settle ----------

  /** Where a worker stands once the crawl command and the ingest API have answered. */
  function StageAfter(job: CrawlJob, crawl: CrawlResult, outcome: Result<Payload, Failure>): Stage {
    if !Accepted(crawl, job) then Failing(job, CrawlFailure(crawl))
    else if outcome.Err? then Failing(job, outcome.error)
    else Completing(job, crawl.diagnostic, outcome.value)
  }

  /** What the others have done when the worker settles. */
  function LastSeen(job: CrawlJob, crawl: CrawlResult, others: Others): Trace {
    if Accepted(crawl, job) then others.afterCall else others.afterCrawl
  }

  /** All events between a lease and its settling: one crawl, and exactly if its answer was
      accepted one handoff. */
  function AnswerEvents(w: WorkerId, job: CrawlJob, crawl: CrawlResult,
                        outcome: Result<Payload, Failure>, others: Others): seq<Event> {
    others.afterLease.es + [DoCrawl(w, crawl)] + others.afterCrawl.es
    + (if Accepted(crawl, job) then [DoIngest(w, outcome)] + others.afterCall.es else [])
  }

  /** Among them the worker's own handoffs are one if the answer passed every check, else none. */
  lemma HandsOverExactlySoundAnswers(w: WorkerId, job: CrawlJob, crawl: CrawlResult,
                                     outcome: Result<Payload, Failure>, others: Others)
    requires NoneBy(others.afterLease.es, w) && NoneBy(others.afterCrawl.es, w)
    requires Accepted(crawl, job) ==> NoneBy(others.afterCall.es, w)
    ensures forall e :: e in AnswerEvents(w, job, crawl, outcome, others) && e.DoIngest? && e.w == w ==>
      crawl.Envelope? && crawl.sound && crawl.sourceId == Some(job.source) && e.outcome == outcome
    ensures crawl.Envelope? && crawl.sound && crawl.sourceId == Some(job.source) ==>
      DoIngest(w, outcome) in AnswerEvents(w, job, crawl, outcome, others)
  {
    assert crawl.Envelope? && crawl.sound && crawl.sourceId == Some(job.source) ==>
      DoIngest(w, outcome) in [DoIngest(w, outcome)] + others.afterCall.es;
  }

  /** One settling transaction, with the tables before and after it. */
  datatype Settling = Settling(before: Sys, at: Time, op: Op, after: Sys)

  ghost predicate Settles(s: Settling) {
    s.after == Apply(s.before, s.at, s.op)
  }

  /** Records what became of a leased job: a refused crawl or a failed handoff as a failure, a
      receipt as a completion. */
  method Record(queue: CrawlQueue, job: CrawlJob, crawl: CrawlResult, outcome: Result<Payload, Failure>,
                now: Time, ghost before: Sys)
    returns (settled: Result<(), QueueError>, ghost settling: Settling)
    requires queue.Valid() && queue.State() == before
    modifies queue
    ensures queue.Valid() && queue.State() == settling.after && Settles(settling)
    ensures settling.before == before && settling.at == now
    ensures settling.op == SettleOp(StageAfter(job, crawl, outcome))
    ensures settled.Ok? <==> Holds(before.db, job)
    ensures settled.Err? ==> queue.State() == before
    ensures settled.Ok? ==> job.attempt in queue.attempts
    ensures settled.Ok? ==>
      queue.attempts[job.attempt].status == (if Accepted(crawl, job) && outcome.Ok? then Succeeded else Failed)
  {
    if !Accepted(crawl, job) {
      var failure := CrawlFailure(crawl);
      settled := queue.Fail(job, failure.code, failure.diagnostic, now);
    } else if outcome.Err? {
      settled := queue.Fail(job, outcome.error.code, outcome.error.diagnostic, now);
    } else {
      settled := queue.Complete(job, crawl.diagnostic, outcome.value, now);
    }
    settling := Settling(before, now, SettleOp(StageAfter(job, crawl, outcome)), queue.State());
  }

  lemma Settled(t: Trace, from: World, to: World, w: WorkerId, stage: Stage, settling: Settling)
    returns (longer: Trace, after: World)
    requires Ends(t, from, to) && WorldInv(to) && w in to.workers && to.workers[w] == stage
    requires (stage.Failing? || stage.Completing?) && settling.op == SettleOp(stage)
    requires to.sys == settling.before && to.clock == settling.at && Settles(settling)
    ensures Ends(longer, from, after) && longer.es == t.es + [Settle(w)] && WorldInv(after)
    ensures after.sys == settling.after && after.calls == to.calls
    ensures after.workers == if Holds(settling.before.db, stage.job) then to.workers[w := Idle] else to.workers - {w}
  {
    longer, after := Extend(t, from, to, Settle(w));
  }

  /** The call log shows that this worker handed over the page of the attempt, for this receipt. */
  ghost predicate HandedOver(world: World, w: WorkerId, attempt: Uuid, receipt: Payload) {
    exists i: nat :: Handoff(world, i, attempt, receipt) && world.calls[i].worker == w
  }

  lemma CompletingHandedOver(world: World, w: WorkerId, after: World)
    requires WorldInv(world) && w in world.workers && world.workers[w].Completing? && after.calls == world.calls
    ensures HandedOver(after, w, world.workers[w].job.attempt, world.workers[w].receipt)
  {
    assert StageOk(world, w);
    var stage := world.workers[w];
    var i: nat :| Handoff(world, i, stage.job.attempt, stage.receipt);
    assert CallOk(world, i);
    assert Handoff(after, i, stage.job.attempt, stage.receipt);
  }

  /** Where a worker stands once the crawl command has answered. */
  function StageAfterCrawl(job: CrawlJob, crawl: CrawlResult): Stage {
    if Accepted(crawl, job) then Ingesting(job, Page(job.source, crawl.page), crawl.diagnostic)
    else Failing(job, CrawlFailure(crawl))
  }

  lemma CrawlLeads(world: World, w: WorkerId, job: CrawlJob, crawl: CrawlResult)
    requires w in world.workers && world.workers[w] == Crawling(job)
    ensures Enabled(world, DoCrawl(w, crawl)) && w in Next(world, DoCrawl(w, crawl)).workers
    ensures Next(world, DoCrawl(w, crawl)).workers[w] == StageAfterCrawl(job, crawl)
  {
  }

  lemma HandingOverLeads(world: World, w: WorkerId, job: CrawlJob, crawl: CrawlResult,
                         outcome: Result<Payload, Failure>)
    requires Accepted(crawl, job) && w in world.workers && world.workers[w] == StageAfterCrawl(job, crawl)
    ensures Enabled(world, DoIngest(w, outcome)) && w in Next(world, DoIngest(w, outcome)).workers
    ensures Next(world, DoIngest(w, outcome)).workers[w] == StageAfter(job, crawl, outcome)
  {
  }

  /** From the lease to the crawl's answer. */
  method Crawl(queue: CrawlQueue, job: CrawlJob, crawl: CrawlResult, others: Others,
               ghost t: Trace, ghost from: World, ghost to: World, ghost w: WorkerId)
    returns (ghost trace: Trace, ghost after: World)
    requires Ends(t, from, to) && WorldInv(to) && w in to.workers && to.workers[w] == Crawling(job)
    requires OthersDo(to, w, others.afterLease)
    requires GoOn(others.afterLease, DoCrawl(w, crawl), w, others.afterCrawl)
    modifies queue
    ensures queue.Valid() && after.sys == queue.State()
    ensures others.afterCrawl.ws != [] && after == Last(others.afterCrawl)
    ensures Ends(trace, from, after) && WorldInv(after)
    ensures trace.es == t.es + others.afterLease.es + [DoCrawl(w, crawl)] + others.afterCrawl.es
    ensures NoneBy(others.afterCrawl.es, w)
    ensures w in after.workers && after.workers[w] == StageAfterCrawl(job, crawl)
  {
    trace, after := ComeBack(queue, others.afterLease, t, from, to, w);
    CrawlLeads(after, w, job, crawl);
    trace, after := StepThenComeBack(queue, DoCrawl(w, crawl), StageAfterCrawl(job, crawl), others.afterCrawl,
                                     others.afterLease, trace, from, after, w);
  }

  /** From the lease to the moment before settling: crawl, and hand over what was accepted. */
  method CrawlAndHandOver(queue: CrawlQueue, job: CrawlJob, crawl: CrawlResult, outcome: Result<Payload, Failure>,
                          others: Others, ghost t: Trace, ghost from: World, ghost to: World, ghost w: WorkerId)
    returns (ghost trace: Trace, ghost after: World)
    requires Ends(t, from, to) && WorldInv(to) && w in to.workers && to.workers[w] == Crawling(job)
    requires OthersDo(to, w, others.afterLease)
    requires GoOn(others.afterLease, DoCrawl(w, crawl), w, others.afterCrawl)
    requires GoOn(others.afterCrawl, DoIngest(w, outcome), w, others.afterCall)
    modifies queue
    ensures queue.Valid() && after.sys == queue.State()
    ensures LastSeen(job, crawl, others).ws != [] && after == Last(LastSeen(job, crawl, others))
    ensures Ends(trace, from, after) && WorldInv(after)
    ensures trace.es == t.es + AnswerEvents(w, job, crawl, outcome, others)
    ensures w in after.workers && after.workers[w] == StageAfter(job, crawl, outcome)
    ensures forall e :: e in AnswerEvents(w, job, crawl, outcome, others) && e.DoIngest? && e.w == w ==>
      crawl.Envelope? && crawl.sound && crawl.sourceId == Some(job.source) && e.outcome == outcome
    ensures crawl.Envelope? && crawl.sound && crawl.sourceId == Some(job.source) ==>
      DoIngest(w, outcome) in AnswerEvents(w, job, crawl, outcome, others)
  {
    trace, after := Crawl(queue, job, crawl, others, t, from, to, w);
    if Accepted(crawl, job) {
      HandingOverLeads(after, w, job, crawl, outcome);
      trace, after := StepThenComeBack(queue, DoIngest(w, outcome), StageAfter(job, crawl, outcome), others.afterCall,
                                       others.afterCrawl, trace, from, after, w);
    }
    HandsOverExactlySoundAnswers(w, job, crawl, outcome, others);
  }

  /** An answer that fails a check is never handed over, and leaves the attempt `failed`; one
      that passes them all is handed over, and the handoff decides. */
  ghost predicate OnlySoundAnswersCount(queue: CrawlQueue, w: WorkerId, job: CrawlJob, crawl: CrawlResult,
                                        outcome: Result<Payload, Failure>, others: Others,
                                        r: Result<bool, QueueError>)
    reads queue
  {
    var es := AnswerEvents(w, job, crawl, outcome, others);
    if crawl.CrawlError? || !crawl.sound || crawl.sourceId != Some(job.source) then
      && (forall e :: e in es ==> !(e.DoIngest? && e.w == w))
      && (r.Ok? ==> job.attempt in queue.attempts && queue.attempts[job.attempt].status == Failed)
    else
      && DoIngest(w, outcome) in es
      && (r.Ok? ==> job.attempt in queue.attempts
                    && queue.attempts[job.attempt].status == if outcome.Ok? then Succeeded else Failed)
  }

  /** The turn from a granted lease on. `crawl` and `outcome` stand for the answers of the
      crawl command and of the ingest API. */
  method RunLeased(queue: CrawlQueue, job: CrawlJob, crawl: CrawlResult, outcome: Result<Payload, Failure>,
                   others: Others, ghost t: Trace, ghost from: World, ghost to: World, ghost w: WorkerId)
    returns (r: Result<bool, QueueError>, ghost trace: Trace, ghost after: World)
    requires Ends(t, from, to) && WorldInv(to) && w in to.workers && to.workers[w] == Crawling(job)
    requires OthersDo(to, w, others.afterLease)
    requires GoOn(others.afterLease, DoCrawl(w, crawl), w, others.afterCrawl)
    requires GoOn(others.afterCrawl, DoIngest(w, outcome), w, others.afterCall)
    modifies queue
    ensures queue.Valid() && after.sys == queue.State()
    ensures Ends(trace, from, after) && WorldInv(after)
    ensures trace.es == t.es + AnswerEvents(w, job, crawl, outcome, others) + [Settle(w)]
    ensures LastSeen(job, crawl, others).ws != []
    ensures r.Ok? <==> Holds(Last(LastSeen(job, crawl, others)).sys.db, job)
    ensures r.Ok? ==> r.value && w in after.workers && after.workers[w].Idle?
    ensures r.Err? ==> after.sys == Last(LastSeen(job, crawl, others)).sys && w !in after.workers
    ensures r.Ok? ==> job.attempt in queue.attempts
    ensures r.Ok? ==>
      queue.attempts[job.attempt].status == (if Accepted(crawl, job) && outcome.Ok? then Succeeded else Failed)
    ensures Accepted(crawl, job) && outcome.Ok? ==> HandedOver(after, w, job.attempt, outcome.value)
    ensures OnlySoundAnswersCount(queue, w, job, crawl, outcome, others, r)
  {
    ghost var before;
    trace, before := CrawlAndHandOver(queue, job, crawl, outcome, others, t, from, to, w);
    ghost var settling;
    var settled: Result<(), QueueError>;
    settled, settling := Record(queue, job, crawl, outcome, Last(LastSeen(job, crawl, others)).clock, before.sys);
    trace, after := Settled(trace, from, before, w, StageAfter(job, crawl, outcome), settling);
    if Accepted(crawl, job) && outcome.Ok? {
      CompletingHandedOver(before, w, after);
    }
    r := if settled.Ok? then Ok(true) else Err(settled.error);
  }

  // ---------- the whole turn ----------

  /** The events of a turn that leased `job` by `op` and settled it. */
  ghost predicate LeasedTurn(es: seq<Event>, w: WorkerId, op: Op, job: CrawlJob, others: Others,
                             crawl: CrawlResult, outcome: Result<Payload, Failure>) {
    && op.Lease? && op.picked == Some(job.id) && op.attempt == job.attempt && op.token == job.token
    && es == [DoReap(w)] + others.afterReap.es + [DoLease(w, op)]
             + AnswerEvents(w, job, crawl, outcome, others) + [Settle(w)]
  }

  ghost predicate IdleTurn(es: seq<Event>, w: WorkerId, op: Op, others: Others) {
    op.Lease? && op.picked.None? && es == [DoReap(w)] + others.afterReap.es + [DoLease(w, op)]
  }

  /** A whole turn. Its answer is Ok(false) when no row was ready. After each of its steps the
      other participants do whatever they like, and the lease may be lost to them. */
  method ProcessNext(queue: CrawlQueue, owner: Option<string>, seconds: int,
                     token: Uuid, attempt: Uuid, locked: set<Uuid>,
                     crawl: CrawlResult, outcome: Result<Payload, Failure>, now: Time,
                     others: Others, ghost world: World, ghost w: WorkerId)
    returns (r: Result<bool, QueueError>, ghost trace: Trace, ghost after: World)
    requires queue.Valid() && world.sys == queue.State() && world.clock == now && WorldInv(world)
    requires w in world.workers && world.workers[w].Idle?
    requires GoOn(Trace([world], []), DoReap(w), w, others.afterReap)
    requires others.afterReap.ws != [] && attempt !in Last(others.afterReap).sys.db.attempts
    requires forall a :: a in Last(others.afterReap).sys.db.attempts ==>
               Last(others.afterReap).sys.db.attempts[a].token != token
    requires LeaseAccepted(owner, seconds) ==> forall id: Uuid ::
               GoOn(others.afterReap, DoLease(w, Lease(owner, seconds, token, attempt, locked, Some(id))), w,
                    others.afterLease)
    requires GoOn(others.afterLease, DoCrawl(w, crawl), w, others.afterCrawl)
    requires GoOn(others.afterCrawl, DoIngest(w, outcome), w, others.afterCall)
    modifies queue
    ensures queue.Valid() && after.sys == queue.State()
    ensures Ends(trace, world, after) && WorldInv(after)
    ensures r.Ok? ==> w in after.workers && after.workers[w].Idle?
    ensures r.Err? ==> w !in after.workers
    ensures !LeaseAccepted(owner, seconds) ==> r.Err? && trace.es == [DoReap(w)] + others.afterReap.es + [Stop(w)]
    ensures r == Ok(false) ==> exists op :: IdleTurn(trace.es, w, op, others)
    ensures r != Ok(false) && LeaseAccepted(owner, seconds) ==>
      exists op, job :: LeasedTurn(trace.es, w, op, job, others, crawl, outcome)
                        && job.attempt == attempt && job.token == token
                        && LastSeen(job, crawl, others).ws != []
                        && (r.Err? <==> !Holds(Last(LastSeen(job, crawl, others)).sys.db, job))
                        && OnlySoundAnswersCount(queue, w, job, crawl, outcome, others, r)
    ensures r == Ok(true) ==>
      && attempt in queue.attempts && queue.attempts[attempt].status in {Succeeded, Failed}
      && (queue.attempts[attempt].status == Succeeded ==>
            outcome.Ok? && HandedOver(after, w, attempt, outcome.value))
  {
    ghost var op: Op;
    var leased: Result<Option<CrawlJob>, QueueError>;
    leased, op, trace, after :=
      ReapAndLease(queue, owner, seconds, token, attempt, locked, now, others.afterReap, world, w);
    if leased.Err? {
      r := Err(leased.error);
    } else if leased.value.None? {
      r := Ok(false);
      assert IdleTurn(trace.es, w, op, others);
    } else {
      var job := leased.value.value;
      assert GoOn(others.afterReap, DoLease(w, op), w, others.afterLease);
      r, trace, after := RunLeased(queue, job, crawl, outcome, others, trace, world, after, w);
      assert LeasedTurn(trace.es, w, op, job, others, crawl, outcome);
    }
  }
}
