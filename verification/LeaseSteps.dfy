/** The committed effect of each queue transaction, as a function on the two tables and
    on a ghost history that lists every job's leases in the order they were given. */
module LeaseSteps {
  import opened Wrappers
  import opened LeaseRows
  import opened Backoff

  /** One lease as it was given: the attempt, its token, when it began and when it expires. */
  datatype Tenure = Tenure(attempt: Uuid, token: Uuid, from: Time, until: Time)

  datatype Sys = Sys(db: Db, history: map<Uuid, seq<Tenure>>)

  /** A transaction with its arguments. Text that the source validates first arrives as an
      option, None meaning refused. `locked` holds the rows other transactions have locked,
      which `SKIP LOCKED` passes over; `picked` is the row the query settled on. */
  datatype Op =
    | Seed(id: Uuid, tenant: Uuid, source: Uuid, url: Option<string>,
           interval: int, maxAttempts: int, enabled: bool)
    | Lease(owner: Option<string>, seconds: int, token: Uuid, attempt: Uuid,
            locked: set<Uuid>, picked: Option<Uuid>)
    | Complete(held: CrawlJob, details: Payload, receipt: Payload)
    | Fail(held: CrawlJob, code: string, details: Payload)
    | Reap

  predicate SeedAccepted(url: Option<string>, interval: int, maxAttempts: int) {
    url.Some? && 60 <= interval <= 2_592_000 && 1 <= maxAttempts <= 100
  }

  predicate LeaseAccepted(owner: Option<string>, seconds: int) {
    owner.Some? && 30 <= seconds <= 3_600
  }

  /** `picked` is the first unlocked eligible row, or there is none. */
  ghost predicate RightPick(jobs: map<Uuid, Job>, now: Time, locked: set<Uuid>, picked: Option<Uuid>) {
    match picked
    case None => forall k :: k in jobs && k !in locked ==> !Eligible(jobs[k], now)
    case Some(id) =>
      && id in jobs && id !in locked && Eligible(jobs[id], now)
      && forall k :: k in jobs && k !in locked && k != id && Eligible(jobs[k], now) ==> Before(jobs, id, k)
  }

  /** New identifiers are fresh, and a lease takes the row its query ranks first. */
  ghost predicate Legal(s: Sys, now: Time, op: Op) {
    match op
    case Seed(id, _, _, _, _, _, _) => id !in s.db.jobs
    case Lease(_, _, token, attempt, locked, picked) =>
      && attempt !in s.db.attempts
      && (forall a :: a in s.db.attempts ==> s.db.attempts[a].token != token)
      && RightPick(s.db.jobs, now, locked, picked)
    case _ => true
  }

  /** The holder's attempt is still open and its token is still the row's. */
  predicate Holds(db: Db, held: CrawlJob) {
    && held.attempt in db.attempts
    && db.attempts[held.attempt].token == held.token
    && db.attempts[held.attempt].status == Leased
    && held.id in db.jobs
    && db.jobs[held.id].token == Some(held.token)
  }

  function Reseeded(job: Job, now: Time, interval: int, maxAttempts: int, enabled: bool): Job {
    job.(enabled := enabled, interval := interval, maxAttempts := maxAttempts,
         nextRunAt := Min(job.nextRunAt, now))
  }

  function NewJob(tenant: Uuid, source: Uuid, url: string, now: Time,
                  interval: int, maxAttempts: int, enabled: bool): Job {
    Job(tenant, source, url, enabled, interval, now, None, None, None, 0, maxAttempts, None)
  }

  function Released(job: Job, nextRunAt: Time, attemptCount: int, lastError: Option<string>): Job {
    job.(token := None, owner := None, expiresAt := None,
         nextRunAt := nextRunAt, attemptCount := attemptCount, lastError := lastError)
  }

  function Snapshot(id: Uuid, job: Job, token: Uuid, attempt: Uuid): CrawlJob {
    CrawlJob(id, job.tenant, job.source, job.startUrl, job.interval,
             job.attemptCount, job.maxAttempts, token, attempt)
  }

  predicate CodeChar(c: char) {
    '0' <= c <= '9' || 'A' <= c <= 'Z' || 'a' <= c <= 'z' || c == '_' || c == '-'
  }

  function KeptCodeChars(value: string): (kept: string)
    ensures forall c :: c in kept ==> CodeChar(c)
    ensures forall c :: CodeChar(c) ==> multiset(kept)[c] == multiset(value)[c]
    ensures (forall c :: c in value ==> CodeChar(c)) ==> kept == value
  {
    assert value != "" ==> value == [value[0]] + value[1..];
    if value == "" then ""
    else (if CodeChar(value[0]) then [value[0]] else []) + KeptCodeChars(value[1..])
  }

  /** Keeps ASCII letters, digits, `_` and `-`, at most 128 of them; proper codes stay as they are. */
  function SanitizeCode(value: string): (code: string)
    ensures 1 <= |code| <= 128
    ensures forall c :: c in code ==> CodeChar(c)
    ensures 1 <= |value| <= 128 && (forall c :: c in value ==> CodeChar(c)) ==> code == value
    ensures KeptCodeChars(value) != "" ==> |code| == Min(128, |KeptCodeChars(value)|)
    ensures code <= KeptCodeChars(value) || (code == "crawl_failed" && forall c :: c in value ==> !CodeChar(c))
  {
    var kept := KeptCodeChars(value);
    var cut := if |kept| <= 128 then kept else kept[..128];
    if cut == "" then "crawl_failed" else cut
  }

  /** A single permitted character is kept as it is, and any other is dropped. */
  lemma SingleCharacterCode(c: char)
    ensures var permitted := '0' <= c <= '9' || 'A' <= c <= 'Z' || 'a' <= c <= 'z' || c == '_' || c == '-';
      SanitizeCode([c]) == if permitted then [c] else "crawl_failed"
  {
    assert c in [c] && multiset(KeptCodeChars([c]))[c] == if CodeChar(c) then 1 else 0;
  }

  function FailureDelay(held: CrawlJob): int {
    RetryBackoffSeconds(SaturatingInc32(held.attemptCount))
  }

  ghost function ApplySeed(s: Sys, now: Time, op: Op): Sys
    requires op.Seed?
  {
    if !SeedAccepted(op.url, op.interval, op.maxAttempts) then s
    else
      var url := op.url.value;
      if exists k :: k in s.db.jobs && SameSource(s.db.jobs[k], op.tenant, op.source, url) then
        s.(db := s.db.(jobs := map k | k in s.db.jobs ::
          if SameSource(s.db.jobs[k], op.tenant, op.source, url)
          then Reseeded(s.db.jobs[k], now, op.interval, op.maxAttempts, op.enabled)
          else s.db.jobs[k]))
      else
        Sys(s.db.(jobs := s.db.jobs[op.id :=
              NewJob(op.tenant, op.source, url, now, op.interval, op.maxAttempts, op.enabled)]),
            s.history[op.id := []])
  }

  ghost function ApplyLease(s: Sys, now: Time, op: Op): Sys
    requires op.Lease?
  {
    if !LeaseAccepted(op.owner, op.seconds) || op.picked.None? || op.picked.value !in s.db.jobs then s
    else
      var id := op.picked.value;
      var until := now + op.seconds * SECOND;
      var tenures := if id in s.history then s.history[id] else [];
      Sys(Db(s.db.jobs[id := s.db.jobs[id].(token := Some(op.token), owner := op.owner, expiresAt := Some(until))],
             s.db.attempts[op.attempt := Attempt(id, op.token, Leased, now, None, None, None, "{}")]),
          s.history[id := tenures + [Tenure(op.attempt, op.token, now, until)]])
  }

  ghost function ApplyComplete(s: Sys, now: Time, op: Op): Sys
    requires op.Complete?
  {
    if !Holds(s.db, op.held) then s
    else
      var job := s.db.jobs[op.held.id];
      var attempt := s.db.attempts[op.held.attempt];
      s.(db := Db(
        s.db.jobs[op.held.id := Released(job, now + job.interval * SECOND, 0, None)],
        s.db.attempts[op.held.attempt := attempt.(status := Succeeded, finishedAt := Some(now),
                                                  receipt := Some(op.receipt), details := op.details)]))
  }

  ghost function ApplyFail(s: Sys, now: Time, op: Op): Sys
    requires op.Fail?
  {
    if !Holds(s.db, op.held) then s
    else
      var job := s.db.jobs[op.held.id];
      var attempt := s.db.attempts[op.held.attempt];
      var code := Some(SanitizeCode(op.code));
      s.(db := Db(
        s.db.jobs[op.held.id :=
          Released(job, now + FailureDelay(op.held) * SECOND, job.attemptCount + 1, code)],
        s.db.attempts[op.held.attempt := attempt.(status := Failed, finishedAt := Some(now),
                                                  errorCode := code, details := op.details)]))
  }

  /** The attempt is the open one of a job whose lease has run out. */
  predicate Overdue(db: Db, now: Time, a: Uuid)
    requires a in db.attempts
  {
    var attempt := db.attempts[a];
    && attempt.status == Leased
    && attempt.job in db.jobs
    && Expired(db.jobs[attempt.job], now)
    && db.jobs[attempt.job].token == Some(attempt.token)
  }

  function Reaped(job: Job, now: Time): Job {
    Released(job, now + 60 * SECOND, job.attemptCount + 1, Some("lease_expired"))
  }

  function AbandonedAt(attempt: Attempt, now: Time): Attempt {
    attempt.(status := Abandoned, finishedAt := Some(now), errorCode := Some("lease_expired"),
             details := "{\"reason\": \"worker lease expired\"}")
  }

  /** What reaping is for: every expired lease is released and its attempt abandoned. */
  ghost function ApplyReap(s: Sys, now: Time): Sys {
    s.(db := Db(
      map k | k in s.db.jobs :: if Expired(s.db.jobs[k], now) then Reaped(s.db.jobs[k], now) else s.db.jobs[k],
      map a | a in s.db.attempts ::
        if Overdue(s.db, now, a) then AbandonedAt(s.db.attempts[a], now) else s.db.attempts[a]))
  }

  ghost function Apply(s: Sys, now: Time, op: Op): Sys {
    match op
    case Seed(_, _, _, _, _, _, _) => ApplySeed(s, now, op)
    case Lease(_, _, _, _, _, _) => ApplyLease(s, now, op)
    case Complete(_, _, _) => ApplyComplete(s, now, op)
    case Fail(_, _, _) => ApplyFail(s, now, op)
    case Reap => ApplyReap(s, now)
  }
}
