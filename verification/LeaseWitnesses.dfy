/** A concrete series of transactions in which a job's count passes its limit. */
module LeaseWitnesses {
  import opened Wrappers
  import opened Backoff
  import opened LeaseRows
  import opened LeaseSteps
  import opened LeaseInvariant

  const URL: string := "https://example.com/"
  const LATER: Time := 30 * SECOND

  /** The snapshot of job 0's n-th lease; its token and attempt are numbered n, too. */
  function Held(n: nat, count: int): CrawlJob {
    CrawlJob(0, 7, 8, URL, 3_600, count, 2, n, n)
  }

  function SeedJob(id: Uuid, limit: int): Op {
    Op.Seed(id, 7, 8, Some(URL), 3_600, limit, true)
  }

  function Take(n: nat): Op {
    Op.Lease(Some("worker"), 60, n, n, {}, Some(0))
  }

  function GiveUp(n: nat, count: int, code: string): Op {
    Op.Fail(Held(n, count), code, code)
  }

  ghost predicate Follows(s: Sys, now: Time, op: Op, t: Sys) {
    Legal(s, now, op) && t == Apply(s, now, op)
  }

  /** Job 0 is the only job, with these values; `n` attempts have been made, and `leased` tells
      whether the last one is open. */
  ghost predicate At(s: Sys, n: nat, leased: bool, nextRunAt: Time, count: int, limit: int) {
    && s.db.jobs.Keys == {0}
    && var job := s.db.jobs[0];
    && SameSource(job, 7, 8, URL) && job.enabled && job.nextRunAt == nextRunAt
    && job.attemptCount == count && job.maxAttempts == limit
    && job.token == (if leased then Some(n) else None)
    && (forall a :: a in s.db.attempts ==> s.db.attempts[a].token == a <= n)
    && (leased ==> n in s.db.attempts && s.db.attempts[n].status == Leased)
  }

  lemma SeedsFirst(s: Sys) returns (t: Sys)
    requires s == Sys(Db(map[], map[]), map[])
    ensures Follows(s, 0, SeedJob(0, 2), t) && At(t, 0, false, 0, 0, 2)
  {
    t := ApplySeed(s, 0, SeedJob(0, 2));
  }

  lemma Leases(s: Sys, n: nat, now: Time, count: int, limit: int) returns (t: Sys)
    requires At(s, n, false, now, count, limit) && count < limit
    ensures Follows(s, now, Take(n + 1), t) && At(t, n + 1, true, now, count, limit)
  {
    t := ApplyLease(s, now, Take(n + 1));
    assert n + 1 !in s.db.attempts;
  }

  lemma Lowers(s: Sys, n: nat, now: Time, count: int, limit: int) returns (t: Sys)
    requires At(s, n, true, now, count, limit)
    ensures Follows(s, now, SeedJob(9, 1), t) && At(t, n, true, now, count, 1)
  {
    t := ApplySeed(s, now, SeedJob(9, 1));
    assert SameSource(s.db.jobs[0], 7, 8, URL);
  }

  lemma GivesUp(s: Sys, n: nat, now: Time, count: int, limit: int, code: string) returns (t: Sys)
    requires At(s, n, true, now, count, limit)
    ensures Follows(s, now, GiveUp(n, count, code), t)
    ensures At(t, n, false, now + FailureDelay(Held(n, count)) * SECOND, count + 1, limit)
  {
    t := ApplyFail(s, now, GiveUp(n, count, code));
    assert Holds(s.db, Held(n, count));
  }

  /** From the empty tables: seed with two attempts, fail once, lease again, lower the limit to
      one, fail again. All six are legal, and only the last one passes the limit. */
  lemma CountCanPassItsLimit(s0: Sys, code: string)
    returns (s1: Sys, s2: Sys, s3: Sys, s4: Sys, s5: Sys, s6: Sys)
    requires s0 == Sys(Db(map[], map[]), map[])
    ensures Follows(s0, 0, SeedJob(0, 2), s1)
    ensures Follows(s1, 0, Take(1), s2)
    ensures Follows(s2, 0, GiveUp(1, 0, code), s3)
    ensures Follows(s3, LATER, Take(2), s4)
    ensures Follows(s4, LATER, SeedJob(9, 1), s5)
    ensures Follows(s5, LATER, GiveUp(2, 1, code), s6)
    ensures 0 in s5.db.jobs && !OverLimit(s5.db.jobs[0])
    ensures 0 in s6.db.jobs && OverLimit(s6.db.jobs[0])
  {
    BackoffIsCappedDoubling(1);
    s1 := SeedsFirst(s0);
    s2 := Leases(s1, 0, 0, 0, 2);
    s3 := GivesUp(s2, 1, 0, 0, 2, code);
    s4 := Leases(s3, 1, LATER, 1, 2);
    s5 := Lowers(s4, 2, LATER, 1, 2);
    s6 := GivesUp(s5, 2, LATER, 1, 1, code);
  }
}
