/** The queue as the workers call it: each method runs its statements over the two tables in
    place, and commits or rolls back as the source does. Every method refines the step
    `Apply` and keeps the invariant of `LeaseInvariant`. */
module CrawlQueues {
  import opened Wrappers
  import opened LeaseRows
  import opened LeaseSteps
  import opened LeaseInvariant
  import opened Backoff

  datatype QueueError =
    | InvalidUrl | InvalidInterval | InvalidMaxAttempts
    | InvalidOwner | InvalidLeaseSeconds
    | AttemptLeaseLost | JobLeaseLost

  lemma ReapedTables(s: Sys, now: Time, abandoned: set<Uuid>, released: set<Uuid>, t: Sys)
    requires forall a :: a in abandoned <==> a in s.db.attempts && Overdue(s.db, now, a)
    requires released == ExpiredJobs(s.db, now) && t.history == s.history
    requires t.db.attempts.Keys == s.db.attempts.Keys && t.db.jobs.Keys == s.db.jobs.Keys
    requires forall a :: a in s.db.attempts ==>
      t.db.attempts[a] == if a in abandoned then AbandonedAt(s.db.attempts[a], now) else s.db.attempts[a]
    requires forall j :: j in s.db.jobs ==>
      t.db.jobs[j] == if j in released then Reaped(s.db.jobs[j], now) else s.db.jobs[j]
    ensures t == ApplyReap(s, now)
  {
    var after := ApplyReap(s, now);
    assert t.db.attempts == after.db.attempts;
    assert t.db.jobs == after.db.jobs;
  }

  ghost predicate IsFirst(jobs: map<Uuid, Job>, candidates: set<Uuid>, id: Uuid)
    requires candidates <= jobs.Keys
  {
    id in candidates && forall k :: k in candidates && k != id ==> Before(jobs, id, k)
  }

  lemma {:induction false} FirstExists(jobs: map<Uuid, Job>, candidates: set<Uuid>)
    requires candidates != {} && candidates <= jobs.Keys
    ensures exists id :: IsFirst(jobs, candidates, id)
    decreases |candidates|
  {
    var c :| c in candidates;
    var rest := candidates - {c};
    if rest == {} {
      assert candidates == {c};
      assert IsFirst(jobs, candidates, c);
    } else {
      FirstExists(jobs, rest);
      var first :| IsFirst(jobs, rest, first);
      var id := if Before(jobs, c, first) then c else first;
      forall k | k in candidates && k != id
        ensures Before(jobs, id, k)
      {
        assert k != c ==> k in rest;
      }
      assert IsFirst(jobs, candidates, id);
    }
  }

  /** The jobs whose attempt a reap abandons are exactly the expired ones. */
  lemma ReleasedAreExpired(s: Sys, now: Time, abandoned: set<Uuid>, released: set<Uuid>)
    requires Inv(s)
    requires forall a :: a in abandoned <==> a in s.db.attempts && Overdue(s.db, now, a)
    requires released == set a | a in abandoned :: s.db.attempts[a].job
    ensures released == ExpiredJobs(s.db, now)
  {
    forall j | j in s.db.jobs && Expired(s.db.jobs[j], now)
      ensures j in released
    {
      assert JobOk(s, j);
      var last := s.history[j][|s.history[j]| - 1];
      assert Recorded(last, j, s.db.attempts);
      assert last.attempt in abandoned;
    }
  }

  lemma NothingToPick(jobs: map<Uuid, Job>, now: Time, locked: set<Uuid>, candidates: set<Uuid>)
    requires candidates == set j | j in jobs && j !in locked && Eligible(jobs[j], now)
    requires candidates == {}
    ensures RightPick(jobs, now, locked, None)
  {
    assert forall j :: j in jobs && j !in locked && Eligible(jobs[j], now) ==> j in candidates;
  }

  lemma FirstIsRightPick(jobs: map<Uuid, Job>, now: Time, locked: set<Uuid>, candidates: set<Uuid>, id: Uuid)
    requires candidates == set j | j in jobs && j !in locked && Eligible(jobs[j], now)
    requires IsFirst(jobs, candidates, id)
    ensures RightPick(jobs, now, locked, Some(id))
  {
  }

  lemma LeasedTables(s: Sys, now: Time, op: Op, t: Sys)
    requires op.Lease? && LeaseAccepted(op.owner, op.seconds) && op.picked.Some?
    requires op.picked.value in s.db.jobs && op.picked.value in s.history
    requires var id, until := op.picked.value, now + op.seconds * SECOND;
      && t.db.jobs == s.db.jobs[id :=
           s.db.jobs[id].(token := Some(op.token), owner := op.owner, expiresAt := Some(until))]
      && t.db.attempts == s.db.attempts[op.attempt := Attempt(id, op.token, Leased, now, None, None, None, "{}")]
      && t.history == s.history[id := s.history[id] + [Tenure(op.attempt, op.token, now, until)]]
    ensures t == ApplyLease(s, now, op)
  {
  }

  class CrawlQueue {
    var jobs: map<Uuid, Job>
    var attempts: map<Uuid, Attempt>
    ghost var history: map<Uuid, seq<Tenure>>

    ghost function State(): Sys
      reads this
    {
      Sys(Db(jobs, attempts), history)
    }

    ghost predicate Valid()
      reads this
    {
      Inv(State())
    }

    constructor ()
      ensures Valid() && State() == Sys(Db(map[], map[]), map[])
    {
      jobs, attempts, history := map[], map[], map[];
      new;
      InvInitially();
    }

    /** The tables as other clients of the database leave them. */
    method SeeCommitted(tables: Db, ghost later: map<Uuid, seq<Tenure>>)
      requires Inv(Sys(tables, later))
      modifies this
      ensures Valid() && State() == Sys(tables, later)
    {
      jobs, attempts, history := tables.jobs, tables.attempts, later;
    }

    /** Inserts the job, or updates the row its unique key conflicts with. */
    method Seed(id: Uuid, tenant: Uuid, source: Uuid, url: Option<string>,
                interval: int, maxAttempts: int, enabled: bool, now: Time)
      returns (r: Result<Uuid, QueueError>)
      requires Valid() && id !in jobs
      modifies this
      ensures Valid()
      ensures State() == Apply(old(State()), now, Op.Seed(id, tenant, source, url, interval, maxAttempts, enabled))
      ensures r.Ok? <==> url.Some? && 60 <= interval <= 2_592_000 && 1 <= maxAttempts <= 100
      ensures attempts == old(attempts) && (r.Err? ==> jobs == old(jobs))
      ensures r.Ok? && r.value in old(jobs) ==>
        var row := old(jobs)[r.value];
        && row.tenant == tenant && row.source == source && row.startUrl == url.value
        && jobs == old(jobs)[r.value := row.(
             enabled := enabled, interval := interval, maxAttempts := maxAttempts,
             nextRunAt := if row.nextRunAt <= now then row.nextRunAt else now)]
      ensures r.Ok? && r.value !in old(jobs) ==>
        && (forall k :: k in old(jobs) ==>
              !(old(jobs)[k].tenant == tenant && old(jobs)[k].source == source && old(jobs)[k].startUrl == url.value))
        && r.value == id
        && jobs == old(jobs)[id := Job(tenant, source, url.value, enabled, interval, now,
                                       None, None, None, 0, maxAttempts, None)]
    {
      ghost var op := Op.Seed(id, tenant, source, url, interval, maxAttempts, enabled);
      ghost var after := ApplySeed(State(), now, op);
      SeedKeeps(State(), now, op);
      if url.None? {
        return Err(InvalidUrl);
      }
      if !(60 <= interval <= 2_592_000) {
        return Err(InvalidInterval);
      }
      if !(1 <= maxAttempts <= 100) {
        return Err(InvalidMaxAttempts);
      }
      if row :| row in jobs && SameSource(jobs[row], tenant, source, url.value) {
        forall k | k in jobs && SameSource(jobs[k], tenant, source, url.value)
          ensures k == row
        {
          assert SameKey(jobs, k, row);
        }
        jobs := jobs[row := jobs[row].(enabled := enabled, interval := interval, maxAttempts := maxAttempts,
                                       nextRunAt := if jobs[row].nextRunAt <= now then jobs[row].nextRunAt else now)];
        assert jobs == after.db.jobs;
        r := Ok(row);
      } else {
        jobs := jobs[id := Job(tenant, source, url.value, enabled, interval, now,
                               None, None, None, 0, maxAttempts, None)];
        history := history[id := []];
        r := Ok(id);
      }
    }

    /** Takes the first ready row that is not locked, and records an open attempt for it. */
    method Lease(owner: Option<string>, seconds: int, token: Uuid, attempt: Uuid,
                 locked: set<Uuid>, now: Time)
      returns (r: Result<Option<CrawlJob>, QueueError>)
      requires Valid() && attempt !in attempts
      requires forall a :: a in attempts ==> attempts[a].token != token
      modifies this
      ensures Valid()
      ensures r.Ok? <==> owner.Some? && 30 <= seconds <= 3_600
      ensures r.Err? || r.value.None? ==> State() == old(State())
      ensures r.Ok? ==>
        var picked := if r.value.None? then None else Some(r.value.value.id);
        var op := Op.Lease(owner, seconds, token, attempt, locked, picked);
        Legal(old(State()), now, op) && State() == Apply(old(State()), now, op)
      ensures r.Ok? && r.value.Some? ==>
        var id := r.value.value.id;
        && id in old(jobs)
        && var row := old(jobs)[id];
        && r.value.value == CrawlJob(id, row.tenant, row.source, row.startUrl, row.interval,
                                     row.attemptCount, row.maxAttempts, token, attempt)
        && jobs == old(jobs)[id := row.(token := Some(token), owner := owner,
                                        expiresAt := Some(now + seconds * 1_000_000))]
        && attempts == old(attempts)[attempt := Attempt(id, token, Leased, now, None, None, None, "{}")]
      ensures r.Ok? && r.value.Some? ==>
        r.value.value.id in old(jobs)
        && r.value.value == Snapshot(r.value.value.id, old(jobs)[r.value.value.id], token, attempt)
        && Holds(Db(jobs, attempts), r.value.value)
      ensures r.Ok? && r.value.Some? ==>
        var id := r.value.value.id;
        && id in old(jobs) && id !in locked
        && var row := old(jobs)[id];
        && row.enabled && row.nextRunAt <= now && row.attemptCount < row.maxAttempts
        && (row.token.None? || (row.expiresAt.Some? && row.expiresAt.value < now))
    {
      if owner.None? {
        return Err(InvalidOwner);
      }
      if !(30 <= seconds <= 3_600) {
        return Err(InvalidLeaseSeconds);
      }
      var candidates := set j | j in jobs && j !in locked && Eligible(jobs[j], now);
      if candidates == {} {
        NothingToPick(jobs, now, locked, candidates);
        return Ok(None);
      }
      FirstExists(jobs, candidates);
      assert exists first :: IsFirst(jobs, candidates, first);
      var id :| id in candidates && forall k :: k in candidates && k != id ==> Before(jobs, id, k);
      FirstIsRightPick(jobs, now, locked, candidates, id);
      ghost var op := Op.Lease(owner, seconds, token, attempt, locked, Some(id));
      ghost var before := State();
      LeaseKeeps(before, now, op);
      var row := jobs[id];
      jobs := jobs[id := row.(token := Some(token), owner := owner, expiresAt := Some(now + seconds * SECOND))];
      attempts := attempts[attempt := Attempt(id, token, Leased, now, None, None, None, "{}")];
      history := history[id := history[id] + [Tenure(attempt, token, now, now + seconds * SECOND)]];
      LeasedTables(before, now, op, State());
      r := Ok(Some(CrawlJob(id, row.tenant, row.source, row.startUrl, row.interval,
                            row.attemptCount, row.maxAttempts, token, attempt)));
    }

    /** Closes the attempt, then releases the job; if either update finds no row the whole
        transaction is rolled back. */
    method Complete(held: CrawlJob, details: Payload, receipt: Payload, now: Time)
      returns (r: Result<(), QueueError>)
      requires Valid()
      modifies this
      ensures Valid() && State() == Apply(old(State()), now, Op.Complete(held, details, receipt))
      ensures r.Ok? <==> old(Holds(Db(jobs, attempts), held))
      ensures r.Ok? ==> held.attempt in attempts && attempts[held.attempt].status == Succeeded
      ensures r.Ok? <==>
        && held.attempt in old(attempts) && old(attempts)[held.attempt].token == held.token
        && old(attempts)[held.attempt].status == Leased
        && held.id in old(jobs) && old(jobs)[held.id].token == Some(held.token)
      ensures r.Ok? ==>
        && held.attempt in old(attempts) && held.id in old(jobs)
        && var row := old(jobs)[held.id];
        && jobs == old(jobs)[held.id := row.(
             token := None, owner := None, expiresAt := None, attemptCount := 0, lastError := None,
             nextRunAt := now + row.interval * 1_000_000)]
        && attempts == old(attempts)[held.attempt := old(attempts)[held.attempt].(
             status := Succeeded, finishedAt := Some(now), receipt := Some(receipt), details := details)]
      ensures r.Err? ==> State() == old(State())
    {
      ghost var op := Op.Complete(held, details, receipt);
      InvKept(State(), now, op);
      if !(held.attempt in attempts && attempts[held.attempt].token == held.token
           && attempts[held.attempt].status == Leased) {
        return Err(AttemptLeaseLost);
      }
      var closed := attempts[held.attempt := attempts[held.attempt].(
        status := Succeeded, finishedAt := Some(now), receipt := Some(receipt), details := details)];
      if !(held.id in jobs && jobs[held.id].token == Some(held.token)) {
        return Err(JobLeaseLost);
      }
      var row := jobs[held.id];
      attempts := closed;
      jobs := jobs[held.id := row.(
        nextRunAt := now + row.interval * SECOND, token := None, owner := None, expiresAt := None,
        attemptCount := 0, lastError := None)];
      r := Ok(());
    }

    /** Like `Complete`, but counts the failure and waits for a delay computed from the
        holder's own snapshot. */
    method Fail(held: CrawlJob, code: string, details: Payload, now: Time)
      returns (r: Result<(), QueueError>)
      requires Valid()
      modifies this
      ensures Valid() && State() == Apply(old(State()), now, Op.Fail(held, code, details))
      ensures r.Ok? <==> old(Holds(Db(jobs, attempts), held))
      ensures r.Ok? ==> held.attempt in attempts && attempts[held.attempt].status == Failed
      ensures r.Ok? <==>
        && held.attempt in old(attempts) && old(attempts)[held.attempt].token == held.token
        && old(attempts)[held.attempt].status == Leased
        && held.id in old(jobs) && old(jobs)[held.id].token == Some(held.token)
      ensures r.Ok? ==>
        && held.attempt in old(attempts) && held.id in old(jobs)
        && var row, delay := old(jobs)[held.id], RetryBackoffSeconds(SaturatingInc32(held.attemptCount));
        && jobs == old(jobs)[held.id := row.(
             token := None, owner := None, expiresAt := None, attemptCount := row.attemptCount + 1,
             lastError := Some(SanitizeCode(code)), nextRunAt := now + delay * 1_000_000)]
        && attempts == old(attempts)[held.attempt := old(attempts)[held.attempt].(
             status := Failed, finishedAt := Some(now), errorCode := Some(SanitizeCode(code)), details := details)]
      ensures r.Err? ==> State() == old(State())
    {
      ghost var op := Op.Fail(held, code, details);
      InvKept(State(), now, op);
      var errorCode := SanitizeCode(code);
      var backoff := RetryBackoffSeconds(SaturatingInc32(held.attemptCount));
      if !(held.attempt in attempts && attempts[held.attempt].token == held.token
           && attempts[held.attempt].status == Leased) {
        return Err(AttemptLeaseLost);
      }
      var closed := attempts[held.attempt := attempts[held.attempt].(
        status := Failed, finishedAt := Some(now), errorCode := Some(errorCode), details := details)];
      if !(held.id in jobs && jobs[held.id].token == Some(held.token)) {
        return Err(JobLeaseLost);
      }
      var row := jobs[held.id];
      attempts := closed;
      jobs := jobs[held.id := row.(
        nextRunAt := now + backoff * SECOND, token := None, owner := None, expiresAt := None,
        attemptCount := row.attemptCount + 1, lastError := Some(errorCode))];
      r := Ok(());
    }

    /** Abandons the open attempts of expired leases and releases the jobs whose attempt was
        abandoned. That this releases every expired job, as `Apply` says, needs `Valid`. */
    method ReapExpired(now: Time) returns (count: nat)
      requires Valid()
      modifies this
      ensures Valid() && State() == Apply(old(State()), now, Op.Reap)
      ensures count == |ExpiredJobs(old(Db(jobs, attempts)), now)|
    {
      ghost var before := State();
      var db := Db(jobs, attempts);
      var expired := set j | j in db.jobs && db.jobs[j].token.Some?
                             && db.jobs[j].expiresAt.Some? && db.jobs[j].expiresAt.value < now;
      var abandoned := set a | a in db.attempts && db.attempts[a].job in expired
                               && db.jobs[db.attempts[a].job].token == Some(db.attempts[a].token)
                               && db.attempts[a].status == Leased;
      var released := set a | a in abandoned :: db.attempts[a].job;
      ReleasedAreExpired(before, now, abandoned, released);
      attempts := map a | a in db.attempts ::
        if a in abandoned then AbandonedAt(db.attempts[a], now) else db.attempts[a];
      jobs := map j | j in db.jobs ::
        if j in released then Reaped(db.jobs[j], now) else db.jobs[j];
      ReapedTables(before, now, abandoned, released, State());
      ReapKeeps(before, now);
      count := |released|;
    }
  }
}
