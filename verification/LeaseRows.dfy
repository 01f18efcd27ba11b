/** The two tables of the crawl runtime, the snapshot a worker keeps of a leased row,
    and the constraints the migration puts on the rows. */
module LeaseRows {
  import opened Wrappers

  // UUIDs are compared as 128-bit numbers; only their order and equality matter.
  type Uuid = nat
  // A timestamptz: microseconds from some origin.
  type Time = int
  // JSON and other text the queue stores without looking inside.
  type Payload = string

  const SECOND: int := 1_000_000

  datatype Job = Job(
    tenant: Uuid, source: Uuid, startUrl: string,
    enabled: bool, interval: int, nextRunAt: Time,
    token: Option<Uuid>, owner: Option<string>, expiresAt: Option<Time>,
    attemptCount: int, maxAttempts: int, lastError: Option<string>)

  datatype Status = Leased | Succeeded | Failed | Abandoned

  datatype Attempt = Attempt(
    job: Uuid, token: Uuid, status: Status,
    startedAt: Time, finishedAt: Option<Time>,
    errorCode: Option<string>, receipt: Option<Payload>, details: Payload)

  datatype Db = Db(jobs: map<Uuid, Job>, attempts: map<Uuid, Attempt>)

  /** What `lease` returns: the leased row as it was, with the new token and attempt. */
  datatype CrawlJob = CrawlJob(
    id: Uuid, tenant: Uuid, source: Uuid, startUrl: string,
    interval: int, attemptCount: int, maxAttempts: int,
    token: Uuid, attempt: Uuid)

  predicate SameSource(job: Job, tenant: Uuid, source: Uuid, url: string) {
    job.tenant == tenant && job.source == source && job.startUrl == url
  }

  predicate LeaseShape(job: Job) {
    (job.token.None? && job.owner.None? && job.expiresAt.None?)
    || (job.token.Some? && job.owner.Some? && job.expiresAt.Some?)
  }

  predicate JobChecks(job: Job) {
    && LeaseShape(job)
    && 60 <= job.interval <= 2_592_000
    && 0 <= job.attemptCount
    && 1 <= job.maxAttempts <= 100
  }

  predicate AttemptChecks(attempt: Attempt) {
    attempt.status.Leased? <==> attempt.finishedAt.None?
  }

  /** The rows `lease` may take at time `now`. */
  predicate Eligible(job: Job, now: Time) {
    && job.enabled
    && job.nextRunAt <= now
    && job.attemptCount < job.maxAttempts
    && (job.token.None? || (job.expiresAt.Some? && job.expiresAt.value < now))
  }

  predicate Expired(job: Job, now: Time) {
    job.token.Some? && job.expiresAt.Some? && job.expiresAt.value < now
  }

  /** The order in which ready rows are served: earliest run first, then smallest id. */
  predicate Before(jobs: map<Uuid, Job>, a: Uuid, b: Uuid)
    requires a in jobs && b in jobs
  {
    jobs[a].nextRunAt < jobs[b].nextRunAt || (jobs[a].nextRunAt == jobs[b].nextRunAt && a < b)
  }
}
