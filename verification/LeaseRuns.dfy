/** Safety and fairness over whole runs: fencing, the handoff protocol, retry delays,
    exclusion in time and bounded overtaking. */
module LeaseRuns {
  import opened Wrappers
  import Lists
  import opened LeaseRows
  import opened LeaseSteps
  import opened LeaseInvariant
  import opened LeaseTimes
  import opened Workers
  import opened Backoff

  lemma RunStep(ws: seq<World>, es: seq<Event>, i: nat)
    requires Run(ws, es) && i < |es|
    ensures Enabled(ws[i], es[i]) && ws[i + 1] == Next(ws[i], es[i])
    ensures WorldInv(ws[i]) && WorldInv(ws[i + 1])
    ensures ws[i + 1].sys == NextSys(ws[i], es[i]) && ws[i].clock <= ws[i + 1].clock
  {
    RunInv(ws, es, i);
    assert StepAt(ws, es, i);
    WorldInvKept(ws[i], es[i]);
    SysKept(ws[i], es[i]);
  }

  // ---------- fencing ----------

  /** An attempt that has ended or was superseded keeps its row for the rest of the run. */
  lemma {:induction false} FencedForever(ws: seq<World>, es: seq<Event>, i: nat, k: nat, a: Uuid)
    requires Run(ws, es) && i <= k < |ws| && a in ws[i].sys.db.attempts
    requires ws[i].sys.db.attempts[a].status != Leased || Superseded(ws[i].sys, a)
    ensures a in ws[k].sys.db.attempts && ws[k].sys.db.attempts[a] == ws[i].sys.db.attempts[a]
    ensures Superseded(ws[i].sys, a) ==> Superseded(ws[k].sys, a)
    decreases k
  {
    if i < k {
      FencedForever(ws, es, i, k - 1, a);
      RunStep(ws, es, k - 1);
      var op := OpOf(ws[k - 1], es[k - 1]);
      if op.Some? {
        FencedAttemptFrozen(ws[k - 1].sys, ws[k - 1].clock, op.value, a);
      }
    }
  }

  /** Step `i` commits an outcome for the attempt. */
  ghost predicate EndsAt(ws: seq<World>, i: nat, a: Uuid)
    requires i + 1 < |ws|
  {
    && a in ws[i].sys.db.attempts && ws[i].sys.db.attempts[a].status == Leased
    && a in ws[i + 1].sys.db.attempts && ws[i + 1].sys.db.attempts[a].status != Leased
  }

  /** At most one completion, failure or reap ever commits for an attempt. */
  lemma EndsAtMostOnce(ws: seq<World>, es: seq<Event>, i: nat, k: nat, a: Uuid)
    requires Run(ws, es) && i < |es| && k < |es| && EndsAt(ws, i, a) && EndsAt(ws, k, a)
    ensures i == k
  {
    if i < k {
      FencedForever(ws, es, i + 1, k, a);
    } else if k < i {
      FencedForever(ws, es, k + 1, i, a);
    }
  }

  /** The worker is settling attempt `a`, which was leased to it and whose token it holds. */
  ghost predicate SettlesOwn(world: World, w: WorkerId, a: Uuid) {
    && w in world.workers && Holding(world.workers[w])
    && world.workers[w].job.attempt == a
    && Holds(world.sys.db, world.workers[w].job)
    && a in world.holder && world.holder[a] == w
  }

  /** What commits an outcome is a reap, or the settling of the attempt's own worker; never
      of an attempt that was superseded. */
  lemma EndedByReapOrOwner(ws: seq<World>, es: seq<Event>, i: nat, a: Uuid)
    requires Run(ws, es) && i < |es| && EndsAt(ws, i, a)
    ensures OpOf(ws[i], es[i]) == Some(Reap) || (es[i].Settle? && SettlesOwn(ws[i], es[i].w, a))
    ensures !Superseded(ws[i].sys, a)
  {
    RunStep(ws, es, i);
    var op := OpOf(ws[i], es[i]);
    EndingIsFinal(ws[i].sys, ws[i].clock, op.value, a);
    if es[i].Settle? {
      assert StageOk(ws[i], es[i].w);
    }
  }

  /** A worker whose attempt was fenced at some earlier point settles without changing any
      row, and stops. */
  lemma FencedWorkerStops(ws: seq<World>, es: seq<Event>, i: nat, k: nat)
    requires Run(ws, es) && i <= k < |es| && es[k].Settle? && Enabled(ws[k], es[k])
    requires var a := ws[k].workers[es[k].w].job.attempt;
             a in ws[i].sys.db.attempts && (ws[i].sys.db.attempts[a].status != Leased || Superseded(ws[i].sys, a))
    ensures ws[k + 1].sys == ws[k].sys && es[k].w !in ws[k + 1].workers
  {
    var job := ws[k].workers[es[k].w].job;
    RunStep(ws, es, k);
    FencedForever(ws, es, i, k, job.attempt);
    if Holds(ws[k].sys.db, job) {
      HolderIsLast(ws[k].sys, job.id, job.attempt);
    }
  }

  // ---------- handoff ----------

  /** Call `c` is the handoff the protocol asks for before attempt `a` of `job` succeeds. */
  ghost predicate ProperHandoff(world: World, c: nat, a: Uuid, receipt: Option<Payload>) {
    && c < |world.calls| && a in world.sys.db.attempts && a in world.holder
    && world.sys.db.attempts[a].job in world.sys.db.jobs
    && var call, job := world.calls[c], world.sys.db.jobs[world.sys.db.attempts[a].job];
    && call.attempt == a && call.worker == world.holder[a]
    && call.tenant == job.tenant && call.source == job.source && call.page.source == job.source
    && call.receipt.Some? && call.receipt == receipt
  }

  /** No attempt is handed to the ingest API twice, nor at all once its crawl was refused. */
  lemma AtMostOneHandoff(ws: seq<World>, es: seq<Event>, i: nat, c: nat, d: nat)
    requires Run(ws, es) && i < |ws| && c < |ws[i].calls| && d < |ws[i].calls|
    ensures ws[i].calls[c].attempt == ws[i].calls[d].attempt ==> c == d
    ensures ws[i].calls[c].attempt !in ws[i].rejected
  {
    RunInv(ws, es, i);
    assert CallOk(ws[i], c);
    assert c < d ==> DifferentCalls(ws[i], c, d);
    assert d < c ==> DifferentCalls(ws[i], d, c);
  }

  /** When an attempt becomes `succeeded`, its own worker has already handed the page to the
      API for the leased tenant and source, and that call's receipt is the one stored. */
  lemma HandoffPrecedesSuccess(ws: seq<World>, es: seq<Event>, i: nat, a: Uuid)
    requires Run(ws, es) && i < |es| && EndsAt(ws, i, a) && ws[i + 1].sys.db.attempts[a].status == Succeeded
    ensures var receipt := ws[i + 1].sys.db.attempts[a].receipt;
      exists c :: ProperHandoff(ws[i], c, a, receipt)
  {
    RunStep(ws, es, i);
    EndedByReapOrOwner(ws, es, i, a);
    assert StageOk(ws[i], es[i].w);
    var stage := ws[i].workers[es[i].w];
    var c :| Handoff(ws[i], c, a, stage.receipt);
    assert CallOk(ws[i], c);
    assert ProperHandoff(ws[i], c, a, ws[i + 1].sys.db.attempts[a].receipt);
  }

  /** In every reachable state each succeeded attempt still shows that handoff. */
  lemma SucceededWasHandedOff(ws: seq<World>, es: seq<Event>, i: nat, a: Uuid)
    requires Run(ws, es) && i < |ws| && a in ws[i].sys.db.attempts
    requires ws[i].sys.db.attempts[a].status == Succeeded
    ensures exists c :: ProperHandoff(ws[i], c, a, ws[i].sys.db.attempts[a].receipt)
  {
    RunInv(ws, es, i);
    assert SuccessOk(ws[i], a);
    var c :| Handoff(ws[i], c, a, ws[i].sys.db.attempts[a].receipt.value);
    assert CallOk(ws[i], c);
    assert ProperHandoff(ws[i], c, a, ws[i].sys.db.attempts[a].receipt);
  }

  // ---------- the order of a turn ----------

  /** Step `i` is an accepted lease call that takes row `k`. */
  ghost predicate LeasesAt(ws: seq<World>, es: seq<Event>, i: nat, k: Uuid)
    requires i < |es| && i < |ws|
  {
    es[i].DoLease? && LeasesRow(es[i].op, k) && k in ws[i].sys.db.jobs
  }

  /** Between the two steps the worker does nothing. */
  predicate Untouched(es: seq<Event>, lo: nat, hi: nat, w: WorkerId) {
    forall m :: lo < m < hi && m < |es| ==> Actor(es[m]) != Some(w)
  }

  lemma BystanderStays(ws: seq<World>, es: seq<Event>, i: nat, w: WorkerId)
    requires Run(ws, es) && i < |es| && Actor(es[i]) != Some(w) && w in ws[i + 1].workers
    ensures w in ws[i].workers && ws[i].workers[w] == ws[i + 1].workers[w]
  {
    RunStep(ws, es, i);
    OnlyTheActorMoves(ws[i], es[i]);
  }

  lemma ReapedByReap(world: World, e: Event, w: WorkerId)
    requires Enabled(world, e) && Actor(e) == Some(w) && w in Next(world, e).workers
    requires Next(world, e).workers[w].Reaped?
    ensures e == DoReap(w)
  {
  }

  lemma CrawlingByLease(world: World, e: Event, w: WorkerId)
    requires Enabled(world, e) && Actor(e) == Some(w) && w in Next(world, e).workers
    requires Next(world, e).workers[w].Crawling?
    ensures e.DoLease? && e.w == w
    ensures var job := Next(world, e).workers[w].job;
      && LeasesRow(e.op, job.id) && e.op.attempt == job.attempt && e.op.token == job.token
      && job.id in world.sys.db.jobs
      && var row := world.sys.db.jobs[job.id];
      && job == CrawlJob(job.id, row.tenant, row.source, row.startUrl, row.interval,
                         row.attemptCount, row.maxAttempts, job.token, job.attempt)
  {
  }

  /** A worker leases only after a reap of its own, with nothing else it does in between. */
  lemma {:induction false} ReapPrecedesLease(ws: seq<World>, es: seq<Event>, i: nat, w: WorkerId) returns (r: nat)
    requires Run(ws, es) && i < |ws| && w in ws[i].workers
    requires ws[i].workers[w].Reaped? || (i < |es| && es[i].DoLease? && es[i].w == w && Enabled(ws[i], es[i]))
    ensures r < i && es[r] == DoReap(w) && Untouched(es, r, i, w)
  {
    RunStep(ws, es, i - 1);
    if Actor(es[i - 1]) == Some(w) {
      r := i - 1;
      ReapedByReap(ws[r], es[r], w);
    } else {
      BystanderStays(ws, es, i - 1, w);
      r := ReapPrecedesLease(ws, es, i - 1, w);
    }
  }

  /** A worker crawls only for a lease of its own that it was just given. */
  lemma {:induction false} LeasePrecedesCrawl(ws: seq<World>, es: seq<Event>, i: nat, w: WorkerId) returns (l: nat)
    requires Run(ws, es) && i < |ws| && w in ws[i].workers
    requires ws[i].workers[w].Crawling? || (i < |es| && es[i].DoCrawl? && es[i].w == w && Enabled(ws[i], es[i]))
    ensures l < i && es[l].DoLease? && es[l].w == w && Untouched(es, l, i, w)
    ensures var job := ws[i].workers[w].job;
      && LeasesAt(ws, es, l, job.id) && es[l].op.attempt == job.attempt && es[l].op.token == job.token
      && var row := ws[l].sys.db.jobs[job.id];
      && job == CrawlJob(job.id, row.tenant, row.source, row.startUrl, row.interval,
                         row.attemptCount, row.maxAttempts, job.token, job.attempt)
  {
    RunStep(ws, es, i - 1);
    if Actor(es[i - 1]) == Some(w) {
      l := i - 1;
      CrawlingByLease(ws[l], es[l], w);
    } else {
      BystanderStays(ws, es, i - 1, w);
      l := LeasePrecedesCrawl(ws, es, i - 1, w);
    }
  }

  // ---------- the crawl's answer ----------

  /** Step `i` is the crawl's answer for attempt `a`. */
  ghost predicate AnswersAt(ws: seq<World>, es: seq<Event>, i: nat, a: Uuid) {
    && i < |es| && i < |ws| && es[i].DoCrawl? && Enabled(ws[i], es[i])
    && ws[i].workers[es[i].w].job.attempt == a
  }

  /** Step `c` answered attempt `a` of worker `w` with this page, in an envelope that passed
      every check. */
  ghost predicate CrawledAt(ws: seq<World>, es: seq<Event>, c: nat, w: WorkerId, a: Uuid, page: Page) {
    && AnswersAt(ws, es, c, a) && es[c].w == w
    && var result, job := es[c].result, ws[c].workers[w].job;
    && result.Envelope? && result.sound && result.sourceId == Some(job.source)
    && page == Page(job.source, result.page)
  }

  /** A refused answer makes the worker record a failure, under the error's own code or as a
      protocol error; any other makes it hand over just that page. */
  lemma AnswerDecides(ws: seq<World>, es: seq<Event>, i: nat, a: Uuid)
    requires Run(ws, es) && AnswersAt(ws, es, i, a)
    ensures var w, result, job := es[i].w, es[i].result, ws[i].workers[es[i].w].job;
      && w in ws[i + 1].workers
      && ws[i + 1].workers[w] ==
           if result.CrawlError? then Failing(job, Failure(result.code, result.diagnostic))
           else if !result.sound || result.sourceId != Some(job.source) then
             Failing(job, Failure("crawl_command_protocol", "validate crawl command result"))
           else Ingesting(job, Page(job.source, result.page), result.diagnostic)
  {
    RunStep(ws, es, i);
  }

  lemma {:induction false} RejectedForever(ws: seq<World>, es: seq<Event>, i: nat, k: nat, a: Uuid)
    requires Run(ws, es) && i <= k < |ws| && a in ws[i].rejected
    ensures a in ws[k].rejected
    decreases k
  {
    if i < k {
      RejectedForever(ws, es, i, k - 1, a);
      RunStep(ws, es, k - 1);
    }
  }

  /** An attempt whose crawl was refused is never handed over, and never succeeds. */
  lemma RefusedCrawlIsNeverHandedOver(ws: seq<World>, es: seq<Event>, i: nat, k: nat, a: Uuid, c: nat)
    requires Run(ws, es) && AnswersAt(ws, es, i, a) && i < k < |ws|
    requires es[i].result.CrawlError? || !es[i].result.sound
             || es[i].result.sourceId != Some(ws[i].workers[es[i].w].job.source)
    ensures c < |ws[k].calls| ==> ws[k].calls[c].attempt != a
    ensures a in ws[k].sys.db.attempts && ws[k].sys.db.attempts[a].status != Succeeded
  {
    RunStep(ws, es, i);
    RejectedForever(ws, es, i + 1, k, a);
    RunInv(ws, es, k);
    if c < |ws[k].calls| {
      AtMostOneHandoff(ws, es, k, c, c);
    }
    if ws[k].sys.db.attempts[a].status == Succeeded {
      SucceededWasHandedOff(ws, es, k, a);
      var d :| ProperHandoff(ws[k], d, a, ws[k].sys.db.attempts[a].receipt);
      AtMostOneHandoff(ws, es, k, d, d);
    }
  }

  lemma IngestingByCrawl(world: World, e: Event, w: WorkerId)
    requires Enabled(world, e) && Actor(e) == Some(w) && w in Next(world, e).workers
    requires Next(world, e).workers[w].Ingesting?
    ensures e.DoCrawl? && e.w == w && w in world.workers && world.workers[w].Crawling?
    ensures var Ingesting(job, page, _) := Next(world, e).workers[w];
      && world.workers[w].job == job && page == Page(job.source, e.result.page)
      && e.result.Envelope? && e.result.sound && e.result.sourceId == Some(job.source)
  {
  }

  lemma {:induction false} IngestingWasCrawled(ws: seq<World>, es: seq<Event>, i: nat, w: WorkerId) returns (c: nat)
    requires Run(ws, es) && i < |ws| && w in ws[i].workers && ws[i].workers[w].Ingesting?
    ensures c < i && CrawledAt(ws, es, c, w, ws[i].workers[w].job.attempt, ws[i].workers[w].page)
  {
    RunStep(ws, es, i - 1);
    if Actor(es[i - 1]) == Some(w) {
      c := i - 1;
      IngestingByCrawl(ws[c], es[c], w);
    } else {
      BystanderStays(ws, es, i - 1, w);
      c := IngestingWasCrawled(ws, es, i - 1, w);
    }
  }

  /** What is handed over is what the worker's own crawl brought for that attempt. */
  lemma {:induction false} CallWasCrawled(ws: seq<World>, es: seq<Event>, i: nat, n: nat) returns (c: nat)
    requires Run(ws, es) && i < |ws| && n < |ws[i].calls|
    ensures var call := ws[i].calls[n]; c < i && CrawledAt(ws, es, c, call.worker, call.attempt, call.page)
  {
    RunStep(ws, es, i - 1);
    if n < |ws[i - 1].calls| {
      c := CallWasCrawled(ws, es, i - 1, n);
    } else {
      c := IngestingWasCrawled(ws, es, i - 1, es[i - 1].w);
    }
  }

  /** The handoff's outcome decides what the worker records. */
  lemma HandoffDecides(ws: seq<World>, es: seq<Event>, i: nat)
    requires Run(ws, es) && i < |es| && es[i].DoIngest? && Enabled(ws[i], es[i])
    ensures var Ingesting(job, page, diagnostic) := ws[i].workers[es[i].w];
      && ws[i + 1].calls == ws[i].calls + [Call(es[i].w, job.attempt, job.tenant, job.source, page,
                                              if es[i].outcome.Ok? then Some(es[i].outcome.value) else None)]
      && es[i].w in ws[i + 1].workers
      && ws[i + 1].workers[es[i].w] ==
           if es[i].outcome.Ok? then Completing(job, diagnostic, es[i].outcome.value)
           else Failing(job, es[i].outcome.error)
  {
    RunStep(ws, es, i);
  }

  // ---------- what a settling worker commits ----------

  /** While a worker holds the current token its snapshot agrees with the row on the count,
      whatever seeds came between, so a committed failure waits exactly the delay of the
      count it stores. */
  lemma FailureCommitsItsDelay(ws: seq<World>, es: seq<Event>, i: nat)
    requires Run(ws, es) && i < |es| && es[i].Settle? && Enabled(ws[i], es[i])
    requires ws[i].workers[es[i].w].Failing? && Holds(ws[i].sys.db, ws[i].workers[es[i].w].job)
    ensures var job := ws[i].workers[es[i].w].job;
      job.id in ws[i + 1].sys.db.jobs &&
      var row, after := ws[i].sys.db.jobs[job.id], ws[i + 1].sys.db.jobs[job.id];
      && job.attemptCount == row.attemptCount
      && 1 <= after.attemptCount <= 100 && after.attemptCount == row.attemptCount + 1
      && after.nextRunAt == ws[i].clock + Delay(after.attemptCount) * SECOND
      && after.token.None?
  {
    RunStep(ws, es, i);
    assert StageOk(ws[i], es[i].w);
    var job := ws[i].workers[es[i].w].job;
    assert JobOk(ws[i].sys, job.id);
    BackoffIsCappedDoubling(SaturatingInc32(job.attemptCount));
  }

  /** What a settling worker that still holds its lease leaves behind: its attempt ended as the
      crawl and the handoff went, with the code or the receipt and the diagnostic. */
  lemma SettlingDecides(ws: seq<World>, es: seq<Event>, i: nat)
    requires Run(ws, es) && i < |es| && es[i].Settle? && Enabled(ws[i], es[i])
    requires Holds(ws[i].sys.db, ws[i].workers[es[i].w].job)
    ensures var stage := ws[i].workers[es[i].w];
      && stage.job.attempt in ws[i].sys.db.attempts && stage.job.attempt in ws[i + 1].sys.db.attempts
      && var before, after := ws[i].sys.db.attempts[stage.job.attempt], ws[i + 1].sys.db.attempts[stage.job.attempt];
      && (stage.Failing? ==>
            after == before.(status := Failed, finishedAt := Some(ws[i].clock),
                             errorCode := Some(SanitizeCode(stage.failure.code)), details := stage.failure.diagnostic))
      && (stage.Completing? ==>
            after == before.(status := Succeeded, finishedAt := Some(ws[i].clock),
                             receipt := Some(stage.receipt), details := stage.diagnostic))
  {
    RunStep(ws, es, i);
  }

  // ---------- failures in a row ----------

  /** Step `i` commits a failure of job `j`. */
  ghost predicate FailsAt(ws: seq<World>, es: seq<Event>, i: nat, j: Uuid) {
    && i < |es| && i + 1 < |ws| && es[i].Settle? && Enabled(ws[i], es[i])
    && ws[i].workers[es[i].w].Failing? && ws[i].workers[es[i].w].job.id == j
    && Holds(ws[i].sys.db, ws[i].workers[es[i].w].job)
    && j in ws[i].sys.db.jobs && j in ws[i + 1].sys.db.jobs
  }

  /** No attempt of job `j` has its outcome committed by step `i`. */
  ghost predicate NoOutcomeAt(ws: seq<World>, i: nat, j: Uuid) {
    i + 1 < |ws| ==> forall a :: a in ws[i].sys.db.attempts && ws[i].sys.db.attempts[a].job == j ==> !EndsAt(ws, i, a)
  }

  lemma {:induction false} CountKept(ws: seq<World>, es: seq<Event>, i: nat, k: nat, j: Uuid)
    requires Run(ws, es) && i <= k < |ws| && j in ws[i].sys.db.jobs
    requires forall m {:trigger NoOutcomeAt(ws, m, j)} :: i <= m < k ==> NoOutcomeAt(ws, m, j)
    ensures j in ws[k].sys.db.jobs && ws[k].sys.db.jobs[j].attemptCount == ws[i].sys.db.jobs[j].attemptCount
    decreases k
  {
    if i < k {
      CountKept(ws, es, i, k - 1, j);
      RunStep(ws, es, k - 1);
      var op := OpOf(ws[k - 1], es[k - 1]);
      assert NoOutcomeAt(ws, k - 1, j);
      if op.Some? {
        CountMovesWithAnOutcome(ws[k - 1].sys, ws[k - 1].clock, op.value, j);
      }
    }
  }

  /** The steps `fs` are failures of job `j`, the first from a count of zero, with no other
      outcome of the job in between. */
  ghost predicate InARow(ws: seq<World>, es: seq<Event>, fs: seq<nat>, j: Uuid) {
    && (forall n :: 0 <= n < |fs| ==> FailsAt(ws, es, fs[n], j))
    && (fs != [] ==> ws[fs[0]].sys.db.jobs[j].attemptCount == 0)
    && (forall n :: 0 < n < |fs| ==> fs[n - 1] < fs[n])
    && (forall n, m {:trigger fs[n], NoOutcomeAt(ws, m, j)} ::
          0 < n < |fs| && fs[n - 1] < m < fs[n] ==> NoOutcomeAt(ws, m, j))
  }

  lemma {:induction false} CountInARow(ws: seq<World>, es: seq<Event>, fs: seq<nat>, j: Uuid, n: nat)
    requires Run(ws, es) && InARow(ws, es, fs, j) && n < |fs|
    ensures FailsAt(ws, es, fs[n], j) && ws[fs[n]].sys.db.jobs[j].attemptCount == n
  {
    if n > 0 {
      CountInARow(ws, es, fs, j, n - 1);
      FailureCommitsItsDelay(ws, es, fs[n - 1]);
      CountKept(ws, es, fs[n - 1] + 1, fs[n], j);
    }
  }

  /** How long the job is put off by these failures, all together. */
  ghost function PutOff(ws: seq<World>, es: seq<Event>, fs: seq<nat>, j: Uuid): int
    requires forall n :: 0 <= n < |fs| ==> FailsAt(ws, es, fs[n], j)
  {
    if fs == [] then 0
    else
      var last := fs[|fs| - 1];
      assert FailsAt(ws, es, last, j);
      PutOff(ws, es, fs[..|fs| - 1], j) + (ws[last + 1].sys.db.jobs[j].nextRunAt - ws[last].clock)
  }

  lemma FailureInARowWaits(ws: seq<World>, es: seq<Event>, fs: seq<nat>, j: Uuid, n: nat)
    requires Run(ws, es) && InARow(ws, es, fs, j) && n < |fs|
    ensures FailsAt(ws, es, fs[n], j)
    ensures ws[fs[n] + 1].sys.db.jobs[j].nextRunAt - ws[fs[n]].clock == RetryBackoffSeconds(n + 1) * SECOND
  {
    CountInARow(ws, es, fs, j, n);
    FailureCommitsItsDelay(ws, es, fs[n]);
    BackoffIsCappedDoubling(n + 1);
  }

  lemma FrontInARow(ws: seq<World>, es: seq<Event>, fs: seq<nat>, j: Uuid, front: seq<nat>)
    requires InARow(ws, es, fs, j) && front <= fs
    ensures InARow(ws, es, front, j)
  {
  }

  lemma {:induction false} FailuresInARowWaitTheirTotal(ws: seq<World>, es: seq<Event>, fs: seq<nat>, j: Uuid)
    requires Run(ws, es) && InARow(ws, es, fs, j)
    ensures PutOff(ws, es, fs, j) == TotalDelay(|fs|) * SECOND
  {
    if fs != [] {
      var n := |fs| - 1;
      FrontInARow(ws, es, fs, j, fs[..n]);
      FailuresInARowWaitTheirTotal(ws, es, fs[..n], j);
      FailureInARowWaits(ws, es, fs, j, n);
      assert TotalDelay(n + 1) == TotalDelay(n) + RetryBackoffSeconds(n + 1);
    }
  }

  /** In any run, n failures of a job in a row put it off by the closed form. */
  lemma FailuresInARow(ws: seq<World>, es: seq<Event>, fs: seq<nat>, j: Uuid)
    requires Run(ws, es) && InARow(ws, es, fs, j)
    ensures |fs| <= 12 ==> PutOff(ws, es, fs, j) == 30 * (Pow2(|fs|) - 1) * SECOND
    ensures |fs| >= 12 ==> PutOff(ws, es, fs, j) == (122_850 + MAX_DELAY * (|fs| - 12)) * SECOND
  {
    FailuresInARowWaitTheirTotal(ws, es, fs, j);
    TotalDelayClosedForm(|fs|);
  }

  // ---------- leases in time ----------

  /** The job's leases that are in force never overlap, in any reachable state. */
  lemma ExclusiveLeases(ws: seq<World>, es: seq<Event>, n: nat, j: Uuid, i: nat, k: nat)
    requires Run(ws, es) && n < |ws| && j in ws[n].sys.db.jobs
    requires j in ws[n].sys.history && i < k < |ws[n].sys.history[j]|
    ensures var s := ws[n].sys;
      && s.history[j][i].attempt in s.db.attempts
      && End(s.history[j][i], s.db.attempts) <= s.history[j][k].from
  {
    RunInv(ws, es, n);
    LeasesDoNotOverlap(ws[n].sys, ws[n].clock, j, i, k);
  }

  /** A worker that settles no later than its lease expires always commits. */
  lemma PunctualWorkerCommits(ws: seq<World>, es: seq<Event>, i: nat, place: nat)
    requires Run(ws, es) && i < |es| && es[i].Settle? && Enabled(ws[i], es[i])
    requires var job := ws[i].workers[es[i].w].job;
             job.id in ws[i].sys.history && place < |ws[i].sys.history[job.id]|
             && ws[i].sys.history[job.id][place].attempt == job.attempt
             && ws[i].clock <= ws[i].sys.history[job.id][place].until
    ensures Holds(ws[i].sys.db, ws[i].workers[es[i].w].job)
    ensures es[i].w in ws[i + 1].workers && ws[i + 1].workers[es[i].w].Idle?
    ensures EndsAt(ws, i, ws[i].workers[es[i].w].job.attempt)
  {
    RunStep(ws, es, i);
    var job := ws[i].workers[es[i].w].job;
    assert StageOk(ws[i], es[i].w);
    assert JobOk(ws[i].sys, job.id);
    assert Recorded(ws[i].sys.history[job.id][place], job.id, ws[i].sys.db.attempts);
    UnexpiredLeaseIsHeld(ws[i].sys, ws[i].clock, job, place);
  }

  // ---------- exhausted jobs ----------

  /** The event commits a seed that gives job `j` attempts again. */
  ghost predicate RaisesAt(world: World, e: Event, j: Uuid) {
    j in world.sys.db.jobs && OpOf(world, e).Some? && RaisesLimit(world.sys.db.jobs[j], OpOf(world, e).value)
  }

  /** A free job with no attempts left keeps its count and is not leased again until a seed
      raises its limit. Refused seeds, and seeds that do not raise it enough, change nothing
      about that. */
  lemma {:induction false} ExhaustedUntilRaised(ws: seq<World>, es: seq<Event>, i: nat, k: nat, j: Uuid)
    requires Run(ws, es) && i <= k < |ws| && j in ws[i].sys.db.jobs && Exhausted(ws[i].sys.db.jobs[j])
    requires forall n {:trigger RaisesAt(ws[n], es[n], j)} :: i <= n < k ==> !RaisesAt(ws[n], es[n], j)
    ensures j in ws[k].sys.db.jobs && Exhausted(ws[k].sys.db.jobs[j])
    ensures ws[k].sys.db.jobs[j].attemptCount == ws[i].sys.db.jobs[j].attemptCount
    ensures j in ws[i].sys.history && j in ws[k].sys.history && ws[k].sys.history[j] == ws[i].sys.history[j]
    decreases k
  {
    if i < k {
      ExhaustedUntilRaised(ws, es, i, k - 1, j);
      RunStep(ws, es, k - 1);
      var op := OpOf(ws[k - 1], es[k - 1]);
      if op.Some? {
        assert !RaisesAt(ws[k - 1], es[k - 1], j);
        ExhaustedUnlessRaised(ws[k - 1].sys, ws[k - 1].clock, op.value, j);
      }
    } else {
      RunInv(ws, es, i);
      assert JobOk(ws[i].sys, j);
    }
  }

  /** The event commits a seed that lowers job `j`'s limit to what is, or may soon be, used up. */
  ghost predicate LowersAt(world: World, e: Event, j: Uuid) {
    j in world.sys.db.jobs && OpOf(world, e).Some? && LowersLimit(world.sys.db.jobs[j], OpOf(world, e).value)
  }

  /** As long as no seed lowers the limit that far, the count does not pass it. */
  lemma {:induction false} CountWithinLimitUntilLowered(ws: seq<World>, es: seq<Event>, i: nat, k: nat, j: Uuid)
    requires Run(ws, es) && i <= k < |ws| && j in ws[i].sys.db.jobs && WithinLimit(ws[i].sys.db.jobs[j])
    requires forall n {:trigger LowersAt(ws[n], es[n], j)} :: i <= n < k ==> !LowersAt(ws[n], es[n], j)
    ensures j in ws[k].sys.db.jobs && WithinLimit(ws[k].sys.db.jobs[j]) && !OverLimit(ws[k].sys.db.jobs[j])
    decreases k
  {
    if i < k {
      CountWithinLimitUntilLowered(ws, es, i, k - 1, j);
      RunStep(ws, es, k - 1);
      var op := OpOf(ws[k - 1], es[k - 1]);
      if op.Some? {
        assert !LowersAt(ws[k - 1], es[k - 1], j);
        LimitKeptUnlessLowered(ws[k - 1].sys, ws[k - 1].clock, op.value, j);
      }
    }
  }

  // ---------- waiting out a delay ----------

  /** Step `i` commits an accepted seed of the job. */
  ghost predicate SeedsAt(ws: seq<World>, es: seq<Event>, i: nat, j: Uuid)
    requires i < |es| && i < |ws|
  {
    j in ws[i].sys.db.jobs && OpOf(ws[i], es[i]).Some? && SeedsRow(ws[i].sys.db.jobs[j], OpOf(ws[i], es[i]).value)
  }

  ghost predicate NoSeedOf(ws: seq<World>, es: seq<Event>, lo: nat, hi: nat, j: Uuid)
    requires |ws| == |es| + 1 && lo <= hi <= |es|
  {
    forall n: nat {:trigger SeedsAt(ws, es, n, j)} :: lo <= n < hi ==> !SeedsAt(ws, es, n, j)
  }

  /** Every lease that is given is of a row that is enabled, due, not used up and not out. */
  lemma LeasedRowWasReady(ws: seq<World>, es: seq<Event>, i: nat, k: Uuid)
    requires Run(ws, es) && i < |es| && LeasesAt(ws, es, i, k)
    ensures var row, now := ws[i].sys.db.jobs[k], ws[i].clock;
      && row.enabled && row.nextRunAt <= now && row.attemptCount < row.maxAttempts
      && (row.token.None? || (row.expiresAt.Some? && row.expiresAt.value < now))
  {
    RunStep(ws, es, i);
    LeaseTakesTheFirstReadyRow(ws[i].sys, ws[i].clock, es[i].op);
  }

  /** A free row stays free, with its due time, or that time has come. */
  lemma {:induction false} FreeUntilDue(ws: seq<World>, es: seq<Event>, i: nat, k: nat, j: Uuid)
    requires Run(ws, es) && i <= k <= |es| && j in ws[i].sys.db.jobs && ws[i].sys.db.jobs[j].token.None?
    requires NoSeedOf(ws, es, i, k, j)
    ensures j in ws[k].sys.db.jobs
    ensures
      || ws[i].sys.db.jobs[j].nextRunAt <= ws[k].clock
      || (ws[k].sys.db.jobs[j].token.None? && ws[k].sys.db.jobs[j].nextRunAt == ws[i].sys.db.jobs[j].nextRunAt)
    decreases k
  {
    if i < k {
      FreeUntilDue(ws, es, i, k - 1, j);
      RunStep(ws, es, k - 1);
      var op := OpOf(ws[k - 1], es[k - 1]);
      if op.Some? {
        assert !SeedsAt(ws, es, k - 1, j);
        OpPreserves(ws[k - 1].sys, ws[k - 1].clock, op.value);
        if ws[k - 1].sys.db.jobs[j].token.None? {
          FreeRowKeepsItsTime(ws[k - 1].sys, ws[k - 1].clock, op.value, j);
        }
      }
    }
  }

  /** No free row is leased before it is due, except after a seed of it. */
  lemma NotLeasedBeforeItIsDue(ws: seq<World>, es: seq<Event>, i: nat, k: nat, j: Uuid)
    requires Run(ws, es) && i <= k < |es| && j in ws[i].sys.db.jobs && ws[i].sys.db.jobs[j].token.None?
    requires NoSeedOf(ws, es, i, k, j) && LeasesAt(ws, es, k, j)
    ensures ws[i].sys.db.jobs[j].nextRunAt <= ws[k].clock
  {
    FreeUntilDue(ws, es, i, k, j);
    LeasedRowWasReady(ws, es, k, j);
  }

  /** After a failure a job is not leased again before its retry delay is over: thirty seconds
      doubled per earlier failure, at most a day. Only a seed of it cuts the wait short. */
  lemma FailureIsWaitedOut(ws: seq<World>, es: seq<Event>, i: nat, k: nat, j: Uuid)
    requires Run(ws, es) && i < k < |es| && FailsAt(ws, es, i, j)
    requires NoSeedOf(ws, es, i + 1, k, j) && LeasesAt(ws, es, k, j)
    ensures var failures := ws[i].sys.db.jobs[j].attemptCount;
      && 0 <= failures
      && ws[i].clock + Min(30 * Pow2(failures), 86_400) * 1_000_000 <= ws[k].clock
  {
    FailureCommitsItsDelay(ws, es, i);
    NotLeasedBeforeItIsDue(ws, es, i + 1, k, j);
  }

  /** Step `i` commits a success of job `j`. */
  ghost predicate SucceedsAt(ws: seq<World>, es: seq<Event>, i: nat, j: Uuid) {
    && i < |es| && i + 1 < |ws| && es[i].Settle? && Enabled(ws[i], es[i])
    && ws[i].workers[es[i].w].Completing? && ws[i].workers[es[i].w].job.id == j
    && Holds(ws[i].sys.db, ws[i].workers[es[i].w].job)
    && j in ws[i].sys.db.jobs
  }

  /** After a success a job is not leased again before its interval is over. */
  lemma SuccessIsWaitedOut(ws: seq<World>, es: seq<Event>, i: nat, k: nat, j: Uuid)
    requires Run(ws, es) && i < k < |es| && SucceedsAt(ws, es, i, j)
    requires NoSeedOf(ws, es, i + 1, k, j) && LeasesAt(ws, es, k, j)
    ensures ws[i].clock + ws[i].sys.db.jobs[j].interval * 1_000_000 <= ws[k].clock
  {
    RunStep(ws, es, i);
    NotLeasedBeforeItIsDue(ws, es, i + 1, k, j);
  }

  /** After its lease was reaped a job is not leased again for a minute. */
  lemma ReapIsWaitedOut(ws: seq<World>, es: seq<Event>, i: nat, k: nat, j: Uuid)
    requires Run(ws, es) && i < k < |es| && OpOf(ws[i], es[i]) == Some(Reap)
    requires j in ws[i].sys.db.jobs && ws[i].sys.db.jobs[j].token.Some?
    requires ws[i].sys.db.jobs[j].expiresAt.Some? && ws[i].sys.db.jobs[j].expiresAt.value < ws[i].clock
    requires NoSeedOf(ws, es, i + 1, k, j) && LeasesAt(ws, es, k, j)
    ensures ws[i].clock + 60_000_000 <= ws[k].clock
  {
    RunStep(ws, es, i);
    NotLeasedBeforeItIsDue(ws, es, i + 1, k, j);
  }

  /** Step `i` commits an accepted seed that enables the job. */
  ghost predicate EnablesAt(ws: seq<World>, es: seq<Event>, i: nat, j: Uuid)
    requires i < |es| && i < |ws|
  {
    SeedsAt(ws, es, i, j) && OpOf(ws[i], es[i]).value.enabled
  }

  lemma {:induction false} DisabledUntilEnabled(ws: seq<World>, es: seq<Event>, i: nat, k: nat, j: Uuid)
    requires Run(ws, es) && i <= k <= |es| && j in ws[i].sys.db.jobs && !ws[i].sys.db.jobs[j].enabled
    requires forall n: nat {:trigger EnablesAt(ws, es, n, j)} :: i <= n < k ==> !EnablesAt(ws, es, n, j)
    ensures j in ws[k].sys.db.jobs && !ws[k].sys.db.jobs[j].enabled
    decreases k
  {
    if i < k {
      DisabledUntilEnabled(ws, es, i, k - 1, j);
      RunStep(ws, es, k - 1);
      var op := OpOf(ws[k - 1], es[k - 1]);
      if op.Some? {
        assert !EnablesAt(ws, es, k - 1, j);
        EnabledOnlyBySeed(ws[k - 1].sys, ws[k - 1].clock, op.value, j);
      }
    }
  }

  /** A job that an accepted seed has disabled is not leased until an accepted seed enables it. */
  lemma DisabledIsNotLeased(ws: seq<World>, es: seq<Event>, i: nat, k: nat, j: Uuid)
    requires Run(ws, es) && i < k < |es| && SeedsAt(ws, es, i, j) && !OpOf(ws[i], es[i]).value.enabled
    requires forall n: nat {:trigger EnablesAt(ws, es, n, j)} :: i < n < k ==> !EnablesAt(ws, es, n, j)
    ensures !LeasesAt(ws, es, k, j)
  {
    RunStep(ws, es, i);
    EnabledOnlyBySeed(ws[i].sys, ws[i].clock, OpOf(ws[i], es[i]).value, j);
    DisabledUntilEnabled(ws, es, i + 1, k, j);
    if LeasesAt(ws, es, k, j) {
      LeasedRowWasReady(ws, es, k, j);
    }
  }

  // ---------- bounded overtaking ----------

  /** Step `i` leases the job, or seeds it so that it is disabled or has no attempts left. */
  ghost predicate EndsWaitAt(ws: seq<World>, es: seq<Event>, i: nat, j: Uuid)
    requires i < |es| && i < |ws|
  {
    j in ws[i].sys.db.jobs && OpOf(ws[i], es[i]).Some? &&
    var op := OpOf(ws[i], es[i]).value;
    LeasesRow(op, j) || SwitchesOff(ws[i].sys.db.jobs[j], op)
  }

  /** No step in the window ends the job's wait. Refused calls, seeds that leave it ready and
      leases that find it locked may all be in it. */
  ghost predicate Unserved(ws: seq<World>, es: seq<Event>, lo: nat, hi: nat, j: Uuid)
    requires |ws| == |es| + 1 && lo <= hi <= |es|
  {
    forall i: nat {:trigger EndsWaitAt(ws, es, i, j)} :: lo <= i < hi ==> !EndsWaitAt(ws, es, i, j)
  }

  /** Step `i` is a lease call that passes `j` over because its row is locked. */
  ghost predicate PassesOverAt(ws: seq<World>, es: seq<Event>, i: nat, j: Uuid)
    requires i < |es| && i < |ws|
  {
    es[i].DoLease? && j in ws[i].sys.db.jobs && PassesOver(ws[i].sys.db, es[i].op, j)
  }

  ghost predicate FreshlyLeasesAt(ws: seq<World>, es: seq<Event>, i: nat, k: Uuid)
    requires i < |es| && i < |ws|
  {
    LeasesAt(ws, es, i, k) && ws[i].sys.db.jobs[k].token.None?
  }

  /** Step `i` leases some free row, without passing `j` over. */
  ghost predicate FreshAt(ws: seq<World>, es: seq<Event>, i: nat, j: Uuid)
    requires i < |es| && i < |ws|
  {
    !PassesOverAt(ws, es, i, j) && exists k :: FreshlyLeasesAt(ws, es, i, k)
  }

  ghost function FreshSteps(ws: seq<World>, es: seq<Event>, lo: nat, hi: nat, j: Uuid): set<nat>
    requires |ws| == |es| + 1 && lo <= hi <= |es|
  {
    set i: nat | lo <= i < hi && FreshAt(ws, es, i, j)
  }

  ghost predicate Precedes(world: World, k: Uuid, j: Uuid) {
    k in world.sys.db.jobs && j in world.sys.db.jobs && Before(world.sys.db.jobs, k, j)
  }

  lemma OvertakingStep(ws: seq<World>, es: seq<Event>, i: nat, j: Uuid)
    requires Run(ws, es) && i < |es| && Waiting(ws[i].sys, ws[i].clock, j)
    requires !EndsWaitAt(ws, es, i, j)
    ensures Waiting(ws[i + 1].sys, ws[i + 1].clock, j)
    ensures Ahead(ws[i + 1].sys, j) <= Ahead(ws[i].sys, j)
    ensures forall k :: LeasesAt(ws, es, i, k) ==> k !in Ahead(ws[i + 1].sys, j)
    ensures forall k :: LeasesAt(ws, es, i, k) ==> (Precedes(ws[i], k, j) <==> !PassesOverAt(ws, es, i, j))
  {
    RunStep(ws, es, i);
    var op := OpOf(ws[i], es[i]);
    if op.Some? {
      WaitingKept(ws[i].sys, ws[i].clock, op.value, j);
      AheadShrinks(ws[i].sys, ws[i].clock, op.value, j);
      if es[i].DoLease? && LeaseAccepted(op.value.owner, op.value.seconds) {
        LeaseServesBefore(ws[i].sys, ws[i].clock, op.value, j);
      }
    }
  }

  /** While `j` waits nothing gets in front of it that was not there before. */
  lemma {:induction false} AheadOnlyShrinks(ws: seq<World>, es: seq<Event>, lo: nat, hi: nat, j: Uuid)
    requires Run(ws, es) && lo <= hi <= |es| && Waiting(ws[lo].sys, ws[lo].clock, j)
    requires Unserved(ws, es, lo, hi, j)
    ensures Waiting(ws[hi].sys, ws[hi].clock, j)
    ensures Ahead(ws[hi].sys, j) <= Ahead(ws[lo].sys, j)
    decreases hi
  {
    if lo < hi {
      AheadOnlyShrinks(ws, es, lo, hi - 1, j);
      assert !EndsWaitAt(ws, es, hi - 1, j);
      OvertakingStep(ws, es, hi - 1, j);
    }
  }

  /** While `j` waits, a lease goes to a row before it in the order exactly if it does not pass
      `j` over; if it is fresh too, to a row that was ahead at the start of the wait. In any
      case the row is not ahead at the end. */
  lemma OvertakenOnlyByThoseAhead(ws: seq<World>, es: seq<Event>, lo: nat, hi: nat, j: Uuid, i: nat, k: Uuid)
    requires Run(ws, es) && lo <= i < hi <= |es| && Waiting(ws[lo].sys, ws[lo].clock, j)
    requires Unserved(ws, es, lo, hi, j) && LeasesAt(ws, es, i, k)
    ensures Waiting(ws[hi].sys, ws[hi].clock, j)
    ensures Precedes(ws[i], k, j) <==> !PassesOverAt(ws, es, i, j)
    ensures FreshlyLeasesAt(ws, es, i, k) && !PassesOverAt(ws, es, i, j) ==> k in Ahead(ws[lo].sys, j)
    ensures k !in Ahead(ws[hi].sys, j)
  {
    AheadOnlyShrinks(ws, es, lo, i, j);
    assert !EndsWaitAt(ws, es, i, j);
    OvertakingStep(ws, es, i, j);
    AheadOnlyShrinks(ws, es, i + 1, hi, j);
  }

  /** A row that was leased while `j` waits is not freshly leased again in front of `j`. */
  lemma OvertakenAtMostOnce(ws: seq<World>, es: seq<Event>, lo: nat, hi: nat, j: Uuid, i: nat, i': nat, k: Uuid)
    requires Run(ws, es) && lo <= i < i' < hi <= |es| && Waiting(ws[lo].sys, ws[lo].clock, j)
    requires Unserved(ws, es, lo, hi, j) && LeasesAt(ws, es, i, k)
    ensures FreshlyLeasesAt(ws, es, i', k) ==> PassesOverAt(ws, es, i', j)
  {
    if FreshlyLeasesAt(ws, es, i', k) {
      OvertakenOnlyByThoseAhead(ws, es, lo, i', j, i, k);
      OvertakenOnlyByThoseAhead(ws, es, i', i' + 1, j, i', k);
    }
  }

  lemma FreshLeaseUsesUpOne(ws: seq<World>, es: seq<Event>, m: nat, j: Uuid)
    requires Run(ws, es) && m < |es| && Waiting(ws[m].sys, ws[m].clock, j)
    requires !EndsWaitAt(ws, es, m, j)
    ensures j in ws[m + 1].sys.db.jobs
    ensures |Ahead(ws[m + 1].sys, j)| + (if FreshAt(ws, es, m, j) then 1 else 0) <= |Ahead(ws[m].sys, j)|
  {
    OvertakingStep(ws, es, m, j);
    if FreshAt(ws, es, m, j) {
      var k :| FreshlyLeasesAt(ws, es, m, k);
      assert Precedes(ws[m], k, j);
      Lists.SmallerSet(Ahead(ws[m + 1].sys, j), Ahead(ws[m].sys, j) - {k});
    } else {
      Lists.SmallerSet(Ahead(ws[m + 1].sys, j), Ahead(ws[m].sys, j));
    }
  }

  lemma OneMore(before: set<nat>, after: set<nat>, m: nat, more: bool)
    requires m !in before && forall i :: i in after <==> i in before || (i == m && more)
    ensures |after| == |before| + (if more then 1 else 0)
  {
    assert after == if more then before + {m} else before;
  }

  lemma FreshStepsSnoc(ws: seq<World>, es: seq<Event>, lo: nat, m: nat, j: Uuid)
    requires |ws| == |es| + 1 && lo <= m < |es|
    ensures |FreshSteps(ws, es, lo, m + 1, j)| ==
      |FreshSteps(ws, es, lo, m, j)| + (if FreshAt(ws, es, m, j) then 1 else 0)
  {
    var before, after := FreshSteps(ws, es, lo, m, j), FreshSteps(ws, es, lo, m + 1, j);
    forall i: nat
      ensures i in after <==> i in before || (i == m && FreshAt(ws, es, m, j))
    {
    }
    OneMore(before, after, m, FreshAt(ws, es, m, j));
  }

  /** Fresh leases use up the rows that were ahead at the start, one each. */
  lemma {:induction false} BoundedOvertaking(ws: seq<World>, es: seq<Event>, lo: nat, hi: nat, j: Uuid)
    requires Run(ws, es) && lo <= hi <= |es| && Waiting(ws[lo].sys, ws[lo].clock, j)
    requires Unserved(ws, es, lo, hi, j)
    ensures j in ws[hi].sys.db.jobs
    ensures |FreshSteps(ws, es, lo, hi, j)| + |Ahead(ws[hi].sys, j)| <= |Ahead(ws[lo].sys, j)|
    decreases hi
  {
    if lo == hi {
      assert FreshSteps(ws, es, lo, hi, j) == {};
    } else {
      BoundedOvertaking(ws, es, lo, hi - 1, j);
      AheadOnlyShrinks(ws, es, lo, hi - 1, j);
      assert !EndsWaitAt(ws, es, hi - 1, j);
      FreshLeaseUsesUpOne(ws, es, hi - 1, j);
      FreshStepsSnoc(ws, es, lo, hi - 1, j);
    }
  }

  /** Step `i` is an accepted lease call made when no lease has run out. */
  ghost predicate PromptLease(ws: seq<World>, es: seq<Event>, i: nat)
    requires i < |es| && i < |ws|
  {
    && ExpiredJobs(ws[i].sys.db, ws[i].clock) == {}
    && es[i].DoLease? && es[i].op.Lease? && LeaseAccepted(es[i].op.owner, es[i].op.seconds)
  }

  /** So is every accepted lease call right after a reap, as `process_next` makes them. */
  lemma LeaseRightAfterReapIsPrompt(ws: seq<World>, es: seq<Event>, i: nat)
    requires Run(ws, es) && 0 < i < |es| && OpOf(ws[i - 1], es[i - 1]) == Some(Reap)
    requires es[i].DoLease? && es[i].op.Lease? && LeaseAccepted(es[i].op.owner, es[i].op.seconds)
    ensures PromptLease(ws, es, i)
  {
    RunStep(ws, es, i - 1);
    ReapIsComplete(ws[i - 1].sys, ws[i - 1].clock);
  }

  /** A prompt lease made while `j` waits and is not passed over is a fresh one. */
  lemma PromptLeaseIsFresh(ws: seq<World>, es: seq<Event>, i: nat, j: Uuid)
    requires Run(ws, es) && i < |es| && PromptLease(ws, es, i)
    requires Waiting(ws[i].sys, ws[i].clock, j) && !PassesOverAt(ws, es, i, j)
    ensures FreshAt(ws, es, i, j)
  {
    RunStep(ws, es, i);
    var picked := es[i].op.picked;
    if picked != Some(j) {
      LeaseServesBefore(ws[i].sys, ws[i].clock, es[i].op, j);
    }
    assert picked.value !in ExpiredJobs(ws[i].sys.db, ws[i].clock);
    assert FreshlyLeasesAt(ws, es, i, picked.value);
  }

  /** The first step of the window that ends the job's wait, or the window's end. */
  lemma {:induction false} FirstEnd(ws: seq<World>, es: seq<Event>, lo: nat, hi: nat, j: Uuid) returns (n: nat)
    requires |ws| == |es| + 1 && lo <= hi <= |es|
    ensures lo <= n <= hi && Unserved(ws, es, lo, n, j)
    ensures n < hi ==> EndsWaitAt(ws, es, n, j)
    decreases hi - lo
  {
    if lo == hi || EndsWaitAt(ws, es, lo, j) {
      n := lo;
    } else {
      n := FirstEnd(ws, es, lo + 1, hi, j);
    }
  }

  /** Hence a waiting job is leased, unless it is switched off, before more prompt lease calls
      that do not pass it over have been made than there were rows ahead of it. Nothing else
      ends its wait before that. */
  lemma ServedAfterThoseAhead(ws: seq<World>, es: seq<Event>, lo: nat, hi: nat, j: Uuid, prompt: set<nat>)
    requires Run(ws, es) && lo <= hi <= |es| && Waiting(ws[lo].sys, ws[lo].clock, j)
    requires forall i :: i in prompt ==> lo <= i < hi && PromptLease(ws, es, i) && !PassesOverAt(ws, es, i, j)
    requires |prompt| > |Ahead(ws[lo].sys, j)|
    ensures exists i: nat :: lo <= i < hi && Waiting(ws[i].sys, ws[i].clock, j) && EndsWaitAt(ws, es, i, j)
  {
    var n := FirstEnd(ws, es, lo, hi, j);
    AheadOnlyShrinks(ws, es, lo, n, j);
    if n == hi {
      BoundedOvertaking(ws, es, lo, hi, j);
      forall i | i in prompt
        ensures i in FreshSteps(ws, es, lo, hi, j)
      {
        AheadOnlyShrinks(ws, es, lo, i, j);
        PromptLeaseIsFresh(ws, es, i, j);
      }
      Lists.SmallerSet(prompt, FreshSteps(ws, es, lo, hi, j));
    }
  }
}
