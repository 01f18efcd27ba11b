/** What every queue transaction keeps: the row constraints, the correspondence of tokens
    and attempts, and the accounting of failed attempts. None of it depends on the clock. */
module LeaseInvariant {
  import opened Wrappers
  import opened LeaseRows
  import opened LeaseSteps

  /** How many of the listed attempts ended `failed` or `abandoned` after the latest one
      that `succeeded`. An attempt that was superseded stays `leased` and is not counted. */
  ghost function Debt(attempts: map<Uuid, Attempt>, tenures: seq<Tenure>): nat {
    if tenures == [] then 0
    else
      var rest := tenures[..|tenures| - 1];
      var a := tenures[|tenures| - 1].attempt;
      if a !in attempts || attempts[a].status == Leased then Debt(attempts, rest)
      else if attempts[a].status == Succeeded then 0
      else Debt(attempts, rest) + 1
  }

  ghost predicate Listed(tenures: seq<Tenure>, a: Uuid) {
    exists i :: 0 <= i < |tenures| && tenures[i].attempt == a
  }

  ghost predicate Recorded(t: Tenure, j: Uuid, attempts: map<Uuid, Attempt>) {
    && t.attempt in attempts
    && attempts[t.attempt].job == j
    && attempts[t.attempt].token == t.token
    && attempts[t.attempt].startedAt == t.from
  }

  /** A leased row carries the token of its last tenure, whose attempt is open; the last
      tenure of a free row has ended. */
  ghost predicate Current(token: Option<Uuid>, expiresAt: Option<Time>,
                          tenures: seq<Tenure>, attempts: map<Uuid, Attempt>) {
    if token.Some? then
      && tenures != []
      && var last := tenures[|tenures| - 1];
      && last.token == token.value
      && expiresAt == Some(last.until)
      && last.attempt in attempts
      && attempts[last.attempt].status == Leased
    else
      tenures == [] ||
      var last := tenures[|tenures| - 1];
      last.attempt in attempts && attempts[last.attempt].status != Leased
  }

  ghost predicate DifferentAttempts(tenures: seq<Tenure>, i: nat, k: nat)
    requires i < |tenures| && k < |tenures|
  {
    tenures[i].attempt != tenures[k].attempt
  }

  /** The job's tenures are its attempts in lease order, the last one current, and `count`
      is what they leave owing. */
  ghost predicate TenuresInv(j: Uuid, token: Option<Uuid>, expiresAt: Option<Time>, count: int,
                             tenures: seq<Tenure>, attempts: map<Uuid, Attempt>) {
    && (forall i :: 0 <= i < |tenures| ==> Recorded(tenures[i], j, attempts))
    && (forall i: nat, k: nat {:trigger DifferentAttempts(tenures, i, k)} ::
          i < k < |tenures| ==> DifferentAttempts(tenures, i, k))
    && Current(token, expiresAt, tenures, attempts)
    && count == Debt(attempts, tenures)
  }

  ghost predicate JobInv(j: Uuid, job: Job, tenures: seq<Tenure>, attempts: map<Uuid, Attempt>) {
    && JobChecks(job)
    && job.attemptCount <= (if job.token.Some? then 99 else 100)
    && TenuresInv(j, job.token, job.expiresAt, job.attemptCount, tenures, attempts)
  }

  ghost predicate SameToken(attempts: map<Uuid, Attempt>, a: Uuid, b: Uuid) {
    a in attempts && b in attempts && attempts[a].token == attempts[b].token
  }

  /** No token appears on two attempts. */
  ghost predicate UniqueTokens(attempts: map<Uuid, Attempt>) {
    forall a, b {:trigger SameToken(attempts, a, b)} :: SameToken(attempts, a, b) ==> a == b
  }

  ghost predicate SameKey(jobs: map<Uuid, Job>, j: Uuid, k: Uuid) {
    j in jobs && k in jobs && SameSource(jobs[j], jobs[k].tenant, jobs[k].source, jobs[k].startUrl)
  }

  ghost predicate UniqueSources(jobs: map<Uuid, Job>) {
    forall j, k {:trigger SameKey(jobs, j, k)} :: SameKey(jobs, j, k) ==> j == k
  }

  ghost predicate JobOk(s: Sys, j: Uuid) {
    j in s.db.jobs && j in s.history && JobInv(j, s.db.jobs[j], s.history[j], s.db.attempts)
  }

  ghost predicate AttemptOk(s: Sys, a: Uuid) {
    && a in s.db.attempts
    && AttemptChecks(s.db.attempts[a])
    && s.db.attempts[a].job in s.db.jobs
    && s.db.attempts[a].job in s.history
    && Listed(s.history[s.db.attempts[a].job], a)
  }

  ghost predicate Inv(s: Sys) {
    && s.history.Keys == s.db.jobs.Keys
    && (forall j {:trigger JobOk(s, j)} :: j in s.db.jobs ==> JobOk(s, j))
    && (forall a {:trigger AttemptOk(s, a)} :: a in s.db.attempts ==> AttemptOk(s, a))
    && UniqueTokens(s.db.attempts)
    && UniqueSources(s.db.jobs)
  }

  // ---------- frames and single steps of one job ----------

  lemma {:induction false} DebtFrame(attempts: map<Uuid, Attempt>, after: map<Uuid, Attempt>, tenures: seq<Tenure>)
    requires forall i :: 0 <= i < |tenures| ==>
      tenures[i].attempt in attempts && tenures[i].attempt in after
      && attempts[tenures[i].attempt].status == after[tenures[i].attempt].status
    ensures Debt(attempts, tenures) == Debt(after, tenures)
  {
    if tenures != [] {
      var n := |tenures| - 1;
      assert tenures[n].attempt in after;
      DebtFrame(attempts, after, tenures[..n]);
    }
  }

  /** A job all of whose attempts keep their rows keeps its invariant. */
  lemma JobFrame(j: Uuid, job: Job, tenures: seq<Tenure>, attempts: map<Uuid, Attempt>, after: map<Uuid, Attempt>)
    requires JobInv(j, job, tenures, attempts)
    requires forall a :: a in attempts && attempts[a].job == j ==> a in after && after[a] == attempts[a]
    ensures JobInv(j, job, tenures, after)
  {
    forall i | 0 <= i < |tenures|
      ensures tenures[i].attempt in after && after[tenures[i].attempt] == attempts[tenures[i].attempt]
    {
      assert Recorded(tenures[i], j, attempts);
    }
    DebtFrame(attempts, after, tenures);
  }

  /** The attempt a job's token belongs to is its last one. */
  lemma HolderIsLast(s: Sys, j: Uuid, a: Uuid)
    requires Inv(s) && j in s.db.jobs && a in s.db.attempts
    requires s.db.jobs[j].token == Some(s.db.attempts[a].token)
    ensures s.history[j] != []
    ensures s.history[j][|s.history[j]| - 1].attempt == a
    ensures s.db.attempts[a].job == j && s.db.attempts[a].status == Leased
  {
    var h := s.history[j];
    assert JobOk(s, j);
    assert Recorded(h[|h| - 1], j, s.db.attempts);
    assert SameToken(s.db.attempts, h[|h| - 1].attempt, a);
  }

  /** Ending the open attempt of a leased job and releasing the row keeps the job's
      invariant, provided the count moves the way the outcome says. */
  lemma ReleaseKeeps(j: Uuid, job: Job, tenures: seq<Tenure>, attempts: map<Uuid, Attempt>,
                     after: map<Uuid, Attempt>, free: Job)
    requires JobInv(j, job, tenures, attempts) && job.token.Some?
    requires forall a :: a in attempts && attempts[a].job == j && a != tenures[|tenures| - 1].attempt
               ==> a in after && after[a] == attempts[a]
    requires tenures[|tenures| - 1].attempt in after
    requires var a := tenures[|tenures| - 1].attempt;
             && after[a].job == j && after[a].token == attempts[a].token
             && after[a].startedAt == attempts[a].startedAt && after[a].status != Leased
    requires free == Released(job, free.nextRunAt,
                              if after[tenures[|tenures| - 1].attempt].status == Succeeded then 0
                              else job.attemptCount + 1, free.lastError)
    ensures JobInv(j, free, tenures, after)
  {
    var n := |tenures| - 1;
    forall i | 0 <= i < |tenures|
      ensures Recorded(tenures[i], j, after)
      ensures i < n ==> after[tenures[i].attempt] == attempts[tenures[i].attempt]
    {
      assert Recorded(tenures[i], j, attempts);
      assert i < n ==> DifferentAttempts(tenures, i, n);
    }
    forall i | 0 <= i < n
      ensures tenures[..n][i].attempt in attempts && tenures[..n][i].attempt in after
      ensures attempts[tenures[..n][i].attempt].status == after[tenures[..n][i].attempt].status
    {
      assert Recorded(tenures[i], j, attempts) && Recorded(tenures[i], j, after);
    }
    DebtFrame(attempts, after, tenures[..n]);
    assert Debt(attempts, tenures) == Debt(attempts, tenures[..n]);
  }

  // ---------- the transactions ----------

  lemma UniqueTokensKept(attempts: map<Uuid, Attempt>, after: map<Uuid, Attempt>)
    requires UniqueTokens(attempts) && after.Keys == attempts.Keys
    requires forall a :: a in attempts ==> after[a].token == attempts[a].token
    ensures UniqueTokens(after)
  {
    forall a, b | SameToken(after, a, b)
      ensures a == b
    {
      assert SameToken(attempts, a, b);
    }
  }

  lemma UniqueSourcesKept(jobs: map<Uuid, Job>, after: map<Uuid, Job>)
    requires UniqueSources(jobs) && after.Keys == jobs.Keys
    requires forall j :: j in jobs ==> SameSource(after[j], jobs[j].tenant, jobs[j].source, jobs[j].startUrl)
    ensures UniqueSources(after)
  {
    forall j, k | SameKey(after, j, k)
      ensures j == k
    {
      assert SameKey(jobs, j, k);
    }
  }

  lemma AttemptsKept(s: Sys, t: Sys)
    requires Inv(s) && t.history == s.history && t.db.jobs.Keys == s.db.jobs.Keys
    requires t.db.attempts.Keys == s.db.attempts.Keys
    requires forall a :: a in s.db.attempts ==>
      t.db.attempts[a].job == s.db.attempts[a].job && AttemptChecks(t.db.attempts[a])
    ensures forall a {:trigger AttemptOk(t, a)} :: a in t.db.attempts ==> AttemptOk(t, a)
  {
    forall a | a in t.db.attempts
      ensures AttemptOk(t, a)
    {
      assert AttemptOk(s, a);
    }
  }

  lemma InsertKeeps(s: Sys, id: Uuid, job: Job)
    requires Inv(s) && id !in s.db.jobs
    requires JobChecks(job) && job.token.None? && job.attemptCount == 0
    requires forall k :: k in s.db.jobs ==> !SameSource(s.db.jobs[k], job.tenant, job.source, job.startUrl)
    ensures Inv(Sys(s.db.(jobs := s.db.jobs[id := job]), s.history[id := []]))
  {
    var t := Sys(s.db.(jobs := s.db.jobs[id := job]), s.history[id := []]);
    forall j | j in t.db.jobs
      ensures JobOk(t, j)
    {
      assert j in s.db.jobs ==> JobOk(s, j);
    }
    forall a | a in t.db.attempts
      ensures AttemptOk(t, a)
    {
      assert AttemptOk(s, a);
    }
    forall j, k | SameKey(t.db.jobs, j, k)
      ensures j == k
    {
      assert j in s.db.jobs && k in s.db.jobs ==> SameKey(s.db.jobs, j, k);
    }
  }

  lemma AttemptsSame(s: Sys, t: Sys)
    requires Inv(s) && t.history == s.history && t.db.jobs.Keys == s.db.jobs.Keys
    requires t.db.attempts == s.db.attempts
    ensures forall a {:trigger AttemptOk(t, a)} :: a in t.db.attempts ==> AttemptOk(t, a)
  {
    forall a | a in s.db.attempts
      ensures AttemptChecks(t.db.attempts[a])
    {
      assert AttemptOk(s, a);
    }
    AttemptsKept(s, t);
  }

  lemma SeedKeeps(s: Sys, now: Time, op: Op)
    requires Inv(s) && op.Seed? && Legal(s, now, op)
    ensures Inv(ApplySeed(s, now, op))
  {
    if SeedAccepted(op.url, op.interval, op.maxAttempts) {
      if exists k :: k in s.db.jobs && SameSource(s.db.jobs[k], op.tenant, op.source, op.url.value) {
        var t := ApplySeed(s, now, op);
        forall j | j in t.db.jobs
          ensures JobOk(t, j)
        {
          assert JobOk(s, j);
        }
        AttemptsSame(s, t);
        UniqueSourcesKept(s.db.jobs, t.db.jobs);
      } else {
        InsertKeeps(s, op.id, NewJob(op.tenant, op.source, op.url.value, now,
                                     op.interval, op.maxAttempts, op.enabled));
      }
    }
  }

  lemma TenureAppended(j: Uuid, job: Job, tenures: seq<Tenure>, attempts: map<Uuid, Attempt>,
                       tenure: Tenure, attempt: Attempt)
    requires JobInv(j, job, tenures, attempts)
    requires tenure.attempt !in attempts && Recorded(tenure, j, attempts[tenure.attempt := attempt])
    requires attempt.status == Leased
    ensures TenuresInv(j, Some(tenure.token), Some(tenure.until), job.attemptCount,
                       tenures + [tenure], attempts[tenure.attempt := attempt])
  {
    var h, after := tenures + [tenure], attempts[tenure.attempt := attempt];
    JobFrame(j, job, tenures, attempts, after);
    assert h[..|tenures|] == tenures;
    forall i: nat, k: nat | i < k < |h|
      ensures DifferentAttempts(h, i, k)
    {
      assert Recorded(tenures[i], j, attempts);
      assert k < |tenures| ==> DifferentAttempts(tenures, i, k);
    }
  }

  lemma TokenAdded(attempts: map<Uuid, Attempt>, a: Uuid, attempt: Attempt, after: map<Uuid, Attempt>)
    requires UniqueTokens(attempts) && a !in attempts && after == attempts[a := attempt]
    requires forall b :: b in attempts ==> attempts[b].token != attempt.token
    ensures UniqueTokens(after)
  {
    forall b, c | SameToken(after, b, c)
      ensures b == c
    {
      assert b in attempts && c in attempts ==> SameToken(attempts, b, c);
    }
  }

  lemma AttemptAdded(s: Sys, t: Sys, id: Uuid, tenure: Tenure, attempt: Attempt)
    requires Inv(s) && id in s.history && tenure.attempt !in s.db.attempts
    requires t.history == s.history[id := s.history[id] + [tenure]]
    requires t.db.attempts == s.db.attempts[tenure.attempt := attempt] && t.db.jobs.Keys == s.db.jobs.Keys
    requires attempt.job == id && AttemptChecks(attempt)
    ensures forall a {:trigger AttemptOk(t, a)} :: a in t.db.attempts ==> AttemptOk(t, a)
  {
    forall a | a in t.db.attempts
      ensures AttemptOk(t, a)
    {
      if a == tenure.attempt {
        assert t.history[id][|s.history[id]|].attempt == a;
      } else {
        assert AttemptOk(s, a);
        var j := s.db.attempts[a].job;
        var i :| 0 <= i < |s.history[j]| && s.history[j][i].attempt == a;
        assert t.history[j][i].attempt == a;
      }
    }
  }

  lemma JobLeased(s: Sys, t: Sys, id: Uuid, tenure: Tenure, attempt: Attempt, owner: string)
    requires Inv(s) && id in s.db.jobs && s.db.jobs[id].attemptCount < s.db.jobs[id].maxAttempts
    requires tenure.attempt !in s.db.attempts && attempt.status == Leased
    requires attempt.job == id && attempt.token == tenure.token && attempt.startedAt == tenure.from
    requires t.history == s.history[id := s.history[id] + [tenure]]
    requires t.db.attempts == s.db.attempts[tenure.attempt := attempt]
    requires t.db.jobs.Keys == s.db.jobs.Keys && forall j :: j in s.db.jobs && j != id ==> t.db.jobs[j] == s.db.jobs[j]
    requires t.db.jobs[id] ==
      s.db.jobs[id].(token := Some(tenure.token), owner := Some(owner), expiresAt := Some(tenure.until))
    ensures forall j {:trigger JobOk(t, j)} :: j in t.db.jobs ==> JobOk(t, j)
  {
    assert JobOk(s, id);
    TenureAppended(id, s.db.jobs[id], s.history[id], s.db.attempts, tenure, attempt);
    assert JobOk(t, id);
    forall j | j in t.db.jobs
      ensures JobOk(t, j)
    {
      assert JobOk(s, j);
      if j != id {
        JobFrame(j, s.db.jobs[j], s.history[j], s.db.attempts, t.db.attempts);
      }
    }
  }

  lemma LeaseKeeps(s: Sys, now: Time, op: Op)
    requires Inv(s) && op.Lease? && Legal(s, now, op)
    ensures Inv(ApplyLease(s, now, op))
  {
    if LeaseAccepted(op.owner, op.seconds) && op.picked.Some? {
      var t := ApplyLease(s, now, op);
      var id := op.picked.value;
      var tenure := t.history[id][|s.history[id]|];
      JobLeased(s, t, id, tenure, t.db.attempts[op.attempt], op.owner.value);
      AttemptAdded(s, t, id, tenure, t.db.attempts[op.attempt]);
      TokenAdded(s.db.attempts, op.attempt, t.db.attempts[op.attempt], t.db.attempts);
      UniqueSourcesKept(s.db.jobs, t.db.jobs);
    }
  }

  /** Completing and failing share their shape: one attempt ends and its job is released. */
  lemma EndKeeps(s: Sys, j: Uuid, a: Uuid, ended: Attempt, free: Job)
    requires Inv(s) && j in s.db.jobs && a in s.db.attempts
    requires s.db.jobs[j].token == Some(s.db.attempts[a].token)
    requires ended.job == s.db.attempts[a].job && ended.token == s.db.attempts[a].token
    requires ended.startedAt == s.db.attempts[a].startedAt
    requires ended.status != Leased && ended.finishedAt.Some?
    requires free == Released(s.db.jobs[j], free.nextRunAt,
                              if ended.status == Succeeded then 0 else s.db.jobs[j].attemptCount + 1,
                              free.lastError)
    ensures Inv(Sys(Db(s.db.jobs[j := free], s.db.attempts[a := ended]), s.history))
  {
    var t := Sys(Db(s.db.jobs[j := free], s.db.attempts[a := ended]), s.history);
    HolderIsLast(s, j, a);
    assert JobOk(s, j);
    ReleaseKeeps(j, s.db.jobs[j], s.history[j], s.db.attempts, t.db.attempts, free);
    forall k | k in t.db.jobs
      ensures JobOk(t, k)
    {
      assert JobOk(s, k);
      if k != j {
        JobFrame(k, s.db.jobs[k], s.history[k], s.db.attempts, t.db.attempts);
      }
    }
    forall b | b in s.db.attempts
      ensures AttemptChecks(t.db.attempts[b])
    {
      assert AttemptOk(s, b);
    }
    AttemptsKept(s, t);
    UniqueTokensKept(s.db.attempts, t.db.attempts);
    UniqueSourcesKept(s.db.jobs, t.db.jobs);
  }

  /** Reaping touches only the last attempt of an expired job. */
  lemma ReapedJobKeeps(s: Sys, now: Time, j: Uuid)
    requires Inv(s) && j in s.db.jobs
    ensures JobOk(ApplyReap(s, now), j)
  {
    var t := ApplyReap(s, now);
    var job, h := s.db.jobs[j], s.history[j];
    assert JobOk(s, j);
    if Expired(job, now) {
      var last := h[|h| - 1].attempt;
      assert Recorded(h[|h| - 1], j, s.db.attempts);
      forall b | b in s.db.attempts && b != last && s.db.attempts[b].job == j
        ensures t.db.attempts[b] == s.db.attempts[b]
      {
        assert !SameToken(s.db.attempts, b, last);
      }
      ReleaseKeeps(j, job, h, s.db.attempts, t.db.attempts, t.db.jobs[j]);
    } else {
      JobFrame(j, job, h, s.db.attempts, t.db.attempts);
    }
  }

  lemma ReapKeeps(s: Sys, now: Time)
    requires Inv(s)
    ensures Inv(ApplyReap(s, now))
  {
    var t := ApplyReap(s, now);
    forall j | j in t.db.jobs
      ensures JobOk(t, j)
    {
      ReapedJobKeeps(s, now, j);
    }
    forall a | a in s.db.attempts
      ensures AttemptChecks(t.db.attempts[a])
    {
      assert AttemptOk(s, a);
    }
    AttemptsKept(s, t);
    UniqueTokensKept(s.db.attempts, t.db.attempts);
    UniqueSourcesKept(s.db.jobs, t.db.jobs);
  }

  lemma InvInitially()
    ensures Inv(Sys(Db(map[], map[]), map[]))
  {
  }

  /** Every transaction, takeover of an expired lease included, keeps the invariant. */
  lemma InvKept(s: Sys, now: Time, op: Op)
    requires Inv(s) && Legal(s, now, op)
    ensures Inv(Apply(s, now, op))
  {
    match op
    case Seed(_, _, _, _, _, _, _) => SeedKeeps(s, now, op);
    case Lease(_, _, _, _, _, _) => LeaseKeeps(s, now, op);
    case Complete(held, _, _) =>
      if Holds(s.db, held) {
        var t := ApplyComplete(s, now, op);
        EndKeeps(s, held.id, held.attempt, t.db.attempts[held.attempt], t.db.jobs[held.id]);
      }
    case Fail(held, _, _) =>
      if Holds(s.db, held) {
        var t := ApplyFail(s, now, op);
        EndKeeps(s, held.id, held.attempt, t.db.attempts[held.attempt], t.db.jobs[held.id]);
      }
    case Reap => ReapKeeps(s, now);
  }

  // ---------- what the invariant means ----------

  /** The attempts that carry the job's current token. */
  ghost function TokenAttempts(db: Db, j: Uuid): set<Uuid>
    requires j in db.jobs
  {
    set a | a in db.attempts && db.jobs[j].token == Some(db.attempts[a].token)
  }

  /** A leased row has exactly one attempt with its token; that attempt is open and the row's
      own. A free row has no owner, no expiry and no attempt with its token. */
  lemma TokenAttemptCorrespondence(s: Sys, j: Uuid)
    requires Inv(s) && j in s.db.jobs
    ensures s.db.jobs[j].token.Some? ==> |TokenAttempts(s.db, j)| == 1
    ensures s.db.jobs[j].token.None? ==> TokenAttempts(s.db, j) == {}
    ensures s.db.jobs[j].token.None? ==> s.db.jobs[j].owner.None? && s.db.jobs[j].expiresAt.None?
    ensures forall a :: a in TokenAttempts(s.db, j) ==>
      s.db.attempts[a].job == j && s.db.attempts[a].status == Leased
  {
    assert JobOk(s, j);
    var job, h := s.db.jobs[j], s.history[j];
    if job.token.Some? {
      var last := h[|h| - 1].attempt;
      assert Recorded(h[|h| - 1], j, s.db.attempts);
      forall a | a in TokenAttempts(s.db, j)
        ensures a == last
      {
        assert SameToken(s.db.attempts, a, last);
      }
      assert TokenAttempts(s.db, j) == {last};
    }
  }

  /** The places of an attempt in a job's history. */
  ghost function Places(tenures: seq<Tenure>, a: Uuid): set<nat> {
    set i: nat | i < |tenures| && tenures[i].attempt == a
  }

  lemma ListedOnce(tenures: seq<Tenure>, a: Uuid)
    requires Listed(tenures, a)
    requires forall i: nat, k: nat {:trigger DifferentAttempts(tenures, i, k)} ::
      i < k < |tenures| ==> DifferentAttempts(tenures, i, k)
    ensures |Places(tenures, a)| == 1
  {
    var i: nat :| i < |tenures| && tenures[i].attempt == a;
    forall k: nat | k in Places(tenures, a)
      ensures k == i
    {
      assert k < i ==> DifferentAttempts(tenures, k, i);
      assert i < k ==> DifferentAttempts(tenures, i, k);
    }
    assert Places(tenures, a) == {i};
  }

  /** The history lists each attempt of the job exactly once, and the job's count is the
      number of them that failed or were abandoned since the latest success: at most 100,
      and at most 99 while a lease is out, however the limit was re-seeded. */
  lemma AttemptAccounting(s: Sys, j: Uuid)
    requires Inv(s) && j in s.db.jobs
    ensures s.db.jobs[j].attemptCount == Debt(s.db.attempts, s.history[j])
    ensures 0 <= s.db.jobs[j].attemptCount <= (if s.db.jobs[j].token.Some? then 99 else 100)
    ensures forall a :: a in s.db.attempts && s.db.attempts[a].job == j ==> |Places(s.history[j], a)| == 1
  {
    assert JobOk(s, j);
    forall a | a in s.db.attempts && s.db.attempts[a].job == j
      ensures |Places(s.history[j], a)| == 1
    {
      assert AttemptOk(s, a);
      ListedOnce(s.history[j], a);
    }
  }

  /** The attempt at place `i` failed or was abandoned, and none after it succeeded. */
  ghost predicate Owing(attempts: map<Uuid, Attempt>, tenures: seq<Tenure>, i: nat) {
    && i < |tenures| && tenures[i].attempt in attempts
    && attempts[tenures[i].attempt].status in {Failed, Abandoned}
    && forall k :: i < k < |tenures| && tenures[k].attempt in attempts ==>
         attempts[tenures[k].attempt].status != Succeeded
  }

  ghost function OwingPlaces(attempts: map<Uuid, Attempt>, tenures: seq<Tenure>): set<nat> {
    set i: nat | i < |tenures| && Owing(attempts, tenures, i)
  }

  /** One more attempt at the end: a success settles everything, another outcome adds itself. */
  lemma OwingSnoc(attempts: map<Uuid, Attempt>, front: seq<Tenure>, t: Tenure, all: seq<Tenure>, i: nat)
    requires all == front + [t] && i < |all|
    ensures t.attempt in attempts && attempts[t.attempt].status == Succeeded ==> !Owing(attempts, all, i)
    ensures !(t.attempt in attempts && attempts[t.attempt].status == Succeeded) && i < |front| ==>
      (Owing(attempts, all, i) <==> Owing(attempts, front, i))
  {
    assert all[|front|] == t && forall k :: 0 <= k < |front| ==> all[k] == front[k];
  }

  lemma OwingPlacesSnoc(attempts: map<Uuid, Attempt>, front: seq<Tenure>, t: Tenure, all: seq<Tenure>)
    requires all == front + [t]
    ensures |OwingPlaces(attempts, all)| ==
      if t.attempt in attempts && attempts[t.attempt].status == Succeeded then 0
      else |OwingPlaces(attempts, front)| + (if Owing(attempts, all, |front|) then 1 else 0)
  {
    var before, after := OwingPlaces(attempts, front), OwingPlaces(attempts, all);
    forall i: nat | i < |all| {
      OwingSnoc(attempts, front, t, all, i);
    }
    if t.attempt in attempts && attempts[t.attempt].status == Succeeded {
      assert after == {};
    } else {
      assert after == before + (if Owing(attempts, all, |front|) then {|front|} else {});
    }
  }

  /** `Debt` counts exactly those places. */
  lemma {:induction false} DebtCountsOwing(attempts: map<Uuid, Attempt>, tenures: seq<Tenure>)
    ensures Debt(attempts, tenures) == |OwingPlaces(attempts, tenures)|
  {
    if tenures == [] {
      assert OwingPlaces(attempts, tenures) == {};
    } else {
      var n := |tenures| - 1;
      DebtCountsOwing(attempts, tenures[..n]);
      OwingPlacesSnoc(attempts, tenures[..n], tenures[n], tenures);
    }
  }

  // ---------- the attempt limit ----------

  /** A seed that is accepted and whose unique key is this row's. */
  predicate SeedsRow(job: Job, op: Op) {
    && op.Seed? && SeedAccepted(op.url, op.interval, op.maxAttempts)
    && SameSource(job, op.tenant, op.source, op.url.value)
  }

  predicate OverLimit(job: Job) {
    job.attemptCount > job.maxAttempts
  }

  /** The steps that push a row over its limit: a seed below what is used up, and a failure or
      an expiry of a lease whose limit was lowered to what was used up while it was out. */
  predicate PushesOverLimit(db: Db, now: Time, op: Op, j: Uuid)
    requires j in db.jobs
  {
    var job := db.jobs[j];
    || (SeedsRow(job, op) && op.maxAttempts < job.attemptCount)
    || (op.Fail? && Holds(db, op.held) && op.held.id == j && job.attemptCount == job.maxAttempts)
    || (op.Reap? && Expired(job, now) && job.attemptCount == job.maxAttempts)
  }

  /** A count within its limit passes it in exactly these steps. */
  lemma CountPassesLimitExactly(s: Sys, now: Time, op: Op, j: Uuid)
    requires Inv(s) && Legal(s, now, op) && j in s.db.jobs && !OverLimit(s.db.jobs[j])
    ensures j in Apply(s, now, op).db.jobs
    ensures OverLimit(Apply(s, now, op).db.jobs[j]) <==> PushesOverLimit(s.db, now, op, j)
  {
    assert JobOk(s, j);
  }

  /** A row within its limit even if the lease that may be out is lost. */
  predicate WithinLimit(job: Job) {
    if job.token.Some? then job.attemptCount < job.maxAttempts else job.attemptCount <= job.maxAttempts
  }

  /** A seed of this row that lowers its limit to what is, or may soon be, used up. */
  predicate LowersLimit(job: Job, op: Op) {
    SeedsRow(job, op) && !WithinLimit(job.(maxAttempts := op.maxAttempts))
  }

  /** Only such a seed makes it possible at all. */
  lemma LimitKeptUnlessLowered(s: Sys, now: Time, op: Op, j: Uuid)
    requires Inv(s) && Legal(s, now, op) && j in s.db.jobs && WithinLimit(s.db.jobs[j])
    ensures j in Apply(s, now, op).db.jobs
    ensures WithinLimit(Apply(s, now, op).db.jobs[j]) <==> !LowersLimit(s.db.jobs[j], op)
  {
    assert JobOk(s, j);
  }

  /** No attempts are left, and no lease is out. */
  predicate Exhausted(job: Job) {
    job.token.None? && job.attemptCount >= job.maxAttempts
  }

  /** A seed that gives the row attempts again. */
  predicate RaisesLimit(job: Job, op: Op) {
    SeedsRow(job, op) && op.maxAttempts > job.attemptCount
  }

  /** An exhausted row keeps its count and its history, and stays exhausted exactly until a
      seed raises its limit. */
  lemma ExhaustedUnlessRaised(s: Sys, now: Time, op: Op, j: Uuid)
    requires Inv(s) && Legal(s, now, op) && j in s.db.jobs && Exhausted(s.db.jobs[j])
    ensures var t := Apply(s, now, op);
      && j in t.db.jobs && j in s.history && j in t.history && t.history[j] == s.history[j]
      && t.db.jobs[j].token.None? && t.db.jobs[j].attemptCount == s.db.jobs[j].attemptCount
      && (Exhausted(t.db.jobs[j]) <==> !RaisesLimit(s.db.jobs[j], op))
  {
    assert JobOk(s, j);
  }

  /** A free row whose attempts are used up is untouched by everything but an accepted seed of it. */
  lemma ExhaustedStaysPut(s: Sys, now: Time, op: Op, j: Uuid)
    requires Inv(s) && Legal(s, now, op) && j in s.db.jobs
    requires Exhausted(s.db.jobs[j]) && !SeedsRow(s.db.jobs[j], op)
    ensures j in Apply(s, now, op).db.jobs && Apply(s, now, op).db.jobs[j] == s.db.jobs[j]
    ensures Apply(s, now, op).history[j] == s.history[j]
  {
    assert JobOk(s, j);
  }

  // ---------- fencing ----------

  /** The attempt is open but its job's token has moved on. */
  ghost predicate Superseded(s: Sys, a: Uuid) {
    && a in s.db.attempts
    && s.db.attempts[a].status == Leased
    && !(s.db.attempts[a].job in s.db.jobs
         && s.db.jobs[s.db.attempts[a].job].token == Some(s.db.attempts[a].token))
  }

  /** An attempt that has ended, or that was superseded, never changes again. */
  lemma FencedAttemptFrozen(s: Sys, now: Time, op: Op, a: Uuid)
    requires Inv(s) && Legal(s, now, op) && a in s.db.attempts
    requires s.db.attempts[a].status != Leased || Superseded(s, a)
    ensures a in Apply(s, now, op).db.attempts
    ensures Apply(s, now, op).db.attempts[a] == s.db.attempts[a]
    ensures Superseded(s, a) ==> Superseded(Apply(s, now, op), a)
  {
    assert AttemptOk(s, a);
    match op {
      case Complete(held, _, _) =>
        if Holds(s.db, held) { HolderIsLast(s, held.id, held.attempt); }
      case Fail(held, _, _) =>
        if Holds(s.db, held) { HolderIsLast(s, held.id, held.attempt); }
      case _ =>
    }
  }

  /** Whoever still holds a snapshot of such an attempt changes no row by completing or failing. */
  lemma FencedHolderChangesNothing(s: Sys, now: Time, held: CrawlJob, details: Payload, receipt: Payload, code: string)
    requires Inv(s) && held.attempt in s.db.attempts
    requires s.db.attempts[held.attempt].status != Leased || Superseded(s, held.attempt)
    ensures Apply(s, now, Complete(held, details, receipt)) == s
    ensures Apply(s, now, Fail(held, code, details)) == s
  {
    if Holds(s.db, held) {
      HolderIsLast(s, held.id, held.attempt);
    }
  }

  /** A committed completion or failure ends exactly the holder's attempt, and from then on
      that attempt is fenced. */
  lemma EndingIsFinal(s: Sys, now: Time, op: Op, a: Uuid)
    requires Inv(s) && Legal(s, now, op) && a in s.db.attempts
    requires s.db.attempts[a].status == Leased
    requires Apply(s, now, op).db.attempts[a] != s.db.attempts[a]
    ensures Apply(s, now, op).db.attempts[a].status != Leased
    ensures !Superseded(s, a)
    ensures (op.Complete? && op.held.attempt == a) || (op.Fail? && op.held.attempt == a) || op.Reap?
    ensures Apply(s, now, op).db.jobs[s.db.attempts[a].job].token.None?
  {
    if Superseded(s, a) {
      FencedAttemptFrozen(s, now, op, a);
    }
    match op {
      case Complete(held, _, _) => HolderIsLast(s, held.id, held.attempt);
      case Fail(held, _, _) => HolderIsLast(s, held.id, held.attempt);
      case _ =>
    }
  }

  // ---------- which row a lease takes ----------

  /** The row taken is unlocked, enabled and due, has attempts left, is free or past its
      lease's time, and no other such row is due earlier, or as early with a smaller id. */
  lemma LeaseTakesTheFirstReadyRow(s: Sys, now: Time, op: Op)
    requires Inv(s) && Legal(s, now, op) && op.Lease? && op.picked.Some?
    ensures var id := op.picked.value;
      && id in s.db.jobs && id !in op.locked
      && var row := s.db.jobs[id];
      && row.enabled && row.nextRunAt <= now && row.attemptCount < row.maxAttempts
      && (row.token.None? || (row.expiresAt.Some? && row.expiresAt.value < now))
      && forall k :: k in s.db.jobs && k !in op.locked && k != id ==>
           var other := s.db.jobs[k];
           || !other.enabled || now < other.nextRunAt || other.maxAttempts <= other.attemptCount
           || (other.token.Some? && other.expiresAt.Some? && now <= other.expiresAt.value)
           || row.nextRunAt < other.nextRunAt || (row.nextRunAt == other.nextRunAt && id < k)
  {
    forall k | k in s.db.jobs
      ensures LeaseShape(s.db.jobs[k])
    {
      assert JobOk(s, k);
    }
  }

  /** When a lease call finds nothing, every unlocked row is disabled, not due, used up or out. */
  lemma NoRowIsReady(s: Sys, now: Time, op: Op, k: Uuid)
    requires Inv(s) && Legal(s, now, op) && op.Lease? && op.picked.None?
    requires k in s.db.jobs && k !in op.locked
    ensures var row := s.db.jobs[k];
      || !row.enabled || now < row.nextRunAt || row.maxAttempts <= row.attemptCount
      || (row.token.Some? && row.expiresAt.Some? && now <= row.expiresAt.value)
  {
    assert JobOk(s, k);
  }

  // ---------- reaping ----------

  ghost function ExpiredJobs(db: Db, now: Time): set<Uuid> {
    set j | j in db.jobs && Expired(db.jobs[j], now)
  }

  /** After a reap no lease is past its time, each expired job had exactly its own open
      attempt abandoned, and nothing else moved. */
  lemma ReapIsComplete(s: Sys, now: Time)
    requires Inv(s)
    ensures var t := ApplyReap(s, now);
      && ExpiredJobs(t.db, now) == {}
      && (forall j :: j in s.db.jobs && j !in ExpiredJobs(s.db, now) ==> t.db.jobs[j] == s.db.jobs[j])
      && (forall j :: j in ExpiredJobs(s.db, now) ==>
            && t.db.jobs[j].token.None? && t.db.jobs[j].nextRunAt == now + 60 * SECOND
            && exists a :: a in s.db.attempts && s.db.attempts[a].job == j && Overdue(s.db, now, a)
                 && t.db.attempts[a] == AbandonedAt(s.db.attempts[a], now))
      && t.db.attempts.Keys == s.db.attempts.Keys
      && (forall a :: a in s.db.attempts && !Overdue(s.db, now, a) ==> t.db.attempts[a] == s.db.attempts[a])
  {
    var t := ApplyReap(s, now);
    forall j | j in ExpiredJobs(s.db, now)
      ensures exists a :: a in s.db.attempts && s.db.attempts[a].job == j && Overdue(s.db, now, a)
                && t.db.attempts[a] == AbandonedAt(s.db.attempts[a], now)
    {
      var h := s.history[j];
      assert JobOk(s, j);
      assert Recorded(h[|h| - 1], j, s.db.attempts);
      assert Overdue(s.db, now, h[|h| - 1].attempt);
    }
  }

  /** What a reap makes of every row: jobs whose lease has run out wait a minute and have one
      failure more, and of the attempts only their open ones end. */
  lemma ReapEffect(s: Sys, now: Time, j: Uuid, a: Uuid)
    requires Inv(s)
    ensures var t := Apply(s, now, Reap);
      && t.db.jobs.Keys == s.db.jobs.Keys && t.db.attempts.Keys == s.db.attempts.Keys
      && (j in s.db.jobs ==>
            var row := s.db.jobs[j];
            t.db.jobs[j] ==
              if row.token.Some? && row.expiresAt.Some? && row.expiresAt.value < now then
                row.(token := None, owner := None, expiresAt := None, nextRunAt := now + 60_000_000,
                     attemptCount := row.attemptCount + 1, lastError := Some("lease_expired"))
              else row)
      && (a in s.db.attempts ==>
            var row := s.db.attempts[a];
            t.db.attempts[a] ==
              if && row.status == Leased && row.job in s.db.jobs && s.db.jobs[row.job].token == Some(row.token)
                 && s.db.jobs[row.job].expiresAt.Some? && s.db.jobs[row.job].expiresAt.value < now then
                row.(status := Abandoned, finishedAt := Some(now), errorCode := Some("lease_expired"),
                     details := "{\"reason\": \"worker lease expired\"}")
              else row)
  {
  }

  /** A job's count moves only when an attempt of the job gets its outcome. */
  lemma CountMovesWithAnOutcome(s: Sys, now: Time, op: Op, j: Uuid)
    requires Inv(s) && Legal(s, now, op) && j in s.db.jobs
    ensures var t := Apply(s, now, op);
      && j in t.db.jobs
      && (t.db.jobs[j].attemptCount != s.db.jobs[j].attemptCount ==>
            exists a :: a in s.db.attempts && s.db.attempts[a].job == j && s.db.attempts[a].status == Leased
                        && a in t.db.attempts && t.db.attempts[a].status != Leased)
  {
    assert JobOk(s, j);
    match op {
      case Complete(held, _, _) =>
        if Holds(s.db, held) { HolderIsLast(s, held.id, held.attempt); }
      case Fail(held, _, _) =>
        if Holds(s.db, held) { HolderIsLast(s, held.id, held.attempt); }
      case Reap =>
        ReapIsComplete(s, now);
      case _ =>
    }
  }

  /** A lease taken at the same instant as the reap before it takes a free row that the reap
      did not touch, so it supersedes no open attempt. */
  lemma LeaseAfterReap(s: Sys, now: Time, op: Op)
    requires Inv(s) && op.Lease? && LeaseAccepted(op.owner, op.seconds) && op.picked.Some?
    requires Legal(ApplyReap(s, now), now, op)
    ensures s.db.jobs[op.picked.value].token.None?
    ensures op.picked.value !in ExpiredJobs(s.db, now)
    ensures forall a :: a in s.db.attempts && Superseded(Apply(ApplyReap(s, now), now, op), a)
              ==> Superseded(s, a)
  {
    var t := ApplyReap(s, now);
    ReapKeeps(s, now);
    ReapIsComplete(s, now);
    var u := Apply(t, now, op);
    forall a | a in s.db.attempts && Superseded(u, a)
      ensures Superseded(s, a)
    {
      assert AttemptOk(s, a);
    }
  }
}
