/** What a clock that never runs backwards adds: leases of one job do not overlap in time,
    and waiting jobs are overtaken at most once by each job ahead of them. */
module LeaseTimes {
  import opened Wrappers
  import opened LeaseRows
  import opened LeaseSteps
  import opened LeaseInvariant
  import opened Backoff

  /** When a lease stopped being in force: at its release or at its expiry, if earlier. */
  ghost function End(t: Tenure, attempts: map<Uuid, Attempt>): Time
    requires t.attempt in attempts
  {
    var attempt := attempts[t.attempt];
    if attempt.finishedAt.Some? then Min(t.until, attempt.finishedAt.value) else t.until
  }

  ghost predicate TenureTimes(t: Tenure, attempts: map<Uuid, Attempt>, clock: Time) {
    && t.attempt in attempts
    && t.from <= clock && t.from <= t.until
    && var attempt := attempts[t.attempt];
    && (attempt.finishedAt.Some? ==> attempt.finishedAt.value <= clock)
    && (attempt.status == Abandoned ==> attempt.finishedAt.Some? && t.until < attempt.finishedAt.value)
  }

  /** The earlier lease was over when the later one began; if its attempt is still open it
      had expired strictly before. */
  ghost predicate InOrder(earlier: Tenure, later: Tenure, attempts: map<Uuid, Attempt>) {
    && earlier.attempt in attempts
    && End(earlier, attempts) <= later.from
    && (attempts[earlier.attempt].status == Leased ==> earlier.until < later.from)
  }

  ghost predicate JobTimes(tenures: seq<Tenure>, attempts: map<Uuid, Attempt>, clock: Time) {
    && (forall i :: 0 <= i < |tenures| ==> TenureTimes(tenures[i], attempts, clock))
    && (forall i, k {:trigger InOrder(tenures[i], tenures[k], attempts)} ::
          0 <= i < k < |tenures| ==> InOrder(tenures[i], tenures[k], attempts))
  }

  ghost predicate TimesOk(s: Sys, j: Uuid, clock: Time) {
    j in s.history && JobTimes(s.history[j], s.db.attempts, clock)
  }

  ghost predicate TimeInv(s: Sys, clock: Time) {
    forall j {:trigger TimesOk(s, j, clock)} :: j in s.history ==> TimesOk(s, j, clock)
  }

  lemma TimeInvLater(s: Sys, clock: Time, later: Time)
    requires TimeInv(s, clock) && clock <= later
    ensures TimeInv(s, later)
  {
    forall j | j in s.history
      ensures TimesOk(s, j, later)
    {
      assert TimesOk(s, j, clock);
      forall i | 0 <= i < |s.history[j]|
        ensures TenureTimes(s.history[j][i], s.db.attempts, later)
      {
        assert TenureTimes(s.history[j][i], s.db.attempts, clock);
      }
    }
  }

  /** A job whose earlier attempts keep their rows, and whose last attempt keeps its row or
      ends now, keeps its times. */
  lemma EndedTimes(j: Uuid, tenures: seq<Tenure>, attempts: map<Uuid, Attempt>, after: map<Uuid, Attempt>, clock: Time)
    requires JobTimes(tenures, attempts, clock)
    requires forall i :: 0 <= i < |tenures| - 1 ==>
      tenures[i].attempt in after && after[tenures[i].attempt] == attempts[tenures[i].attempt]
    requires tenures != [] ==>
      var last := tenures[|tenures| - 1];
      && last.attempt in after
      && (after[last.attempt] == attempts[last.attempt]
          || (after[last.attempt].finishedAt == Some(clock)
              && (after[last.attempt].status == Abandoned ==> last.until < clock)))
    ensures JobTimes(tenures, after, clock)
  {
    forall i | 0 <= i < |tenures|
      ensures TenureTimes(tenures[i], after, clock)
    {
      assert TenureTimes(tenures[i], attempts, clock);
    }
    forall i, k | 0 <= i < k < |tenures|
      ensures InOrder(tenures[i], tenures[k], after)
    {
      assert InOrder(tenures[i], tenures[k], attempts);
    }
  }

  lemma SameTimes(s: Sys, j: Uuid, after: map<Uuid, Attempt>, clock: Time)
    requires Inv(s) && j in s.db.jobs && TimesOk(s, j, clock)
    requires forall a :: a in s.db.attempts && s.db.attempts[a].job == j ==> a in after && after[a] == s.db.attempts[a]
    ensures JobTimes(s.history[j], after, clock)
  {
    assert JobOk(s, j);
    forall i | 0 <= i < |s.history[j]|
      ensures s.history[j][i].attempt in after
      ensures after[s.history[j][i].attempt] == s.db.attempts[s.history[j][i].attempt]
    {
      assert Recorded(s.history[j][i], j, s.db.attempts);
    }
    EndedTimes(j, s.history[j], s.db.attempts, after, clock);
  }

  lemma AppendTimes(s: Sys, j: Uuid, now: Time, tenure: Tenure, after: map<Uuid, Attempt>)
    requires Inv(s) && j in s.db.jobs && TimesOk(s, j, now)
    requires s.db.jobs[j].token.None? || Expired(s.db.jobs[j], now)
    requires JobTimes(s.history[j], after, now)
    requires forall a :: a in s.db.attempts ==> a in after && after[a] == s.db.attempts[a]
    requires TenureTimes(tenure, after, now) && tenure.from == now
    ensures JobTimes(s.history[j] + [tenure], after, now)
  {
    var h := s.history[j];
    assert JobOk(s, j);
    forall i | 0 <= i < |h|
      ensures InOrder(h[i], tenure, after)
    {
      assert TenureTimes(h[i], after, now) && TenureTimes(h[|h| - 1], after, now);
      assert Recorded(h[i], j, s.db.attempts);
      assert AttemptOk(s, h[i].attempt);
      if i < |h| - 1 {
        assert InOrder(h[i], h[|h| - 1], after);
      }
    }
    forall i, k | 0 <= i < k < |h + [tenure]|
      ensures InOrder((h + [tenure])[i], (h + [tenure])[k], after)
    {
      if k < |h| {
        assert InOrder(h[i], h[k], after);
      }
    }
  }

  lemma LeaseTimesKept(s: Sys, now: Time, op: Op)
    requires Inv(s) && op.Lease? && Legal(s, now, op) && TimeInv(s, now)
    ensures TimeInv(ApplyLease(s, now, op), now)
  {
    if LeaseAccepted(op.owner, op.seconds) && op.picked.Some? {
      var t := ApplyLease(s, now, op);
      forall j | j in t.history
        ensures TimesOk(t, j, now)
      {
        assert TimesOk(s, j, now);
        SameTimes(s, j, t.db.attempts, now);
        if j == op.picked.value {
          AppendTimes(s, j, now, t.history[j][|s.history[j]|], t.db.attempts);
        }
      }
    }
  }

  lemma OnlyLast(s: Sys, j: Uuid, a: Uuid)
    requires Inv(s) && j in s.db.jobs && s.history[j] != [] && s.history[j][|s.history[j]| - 1].attempt == a
    ensures forall i :: 0 <= i < |s.history[j]| ==> Recorded(s.history[j][i], j, s.db.attempts)
    ensures forall i :: 0 <= i < |s.history[j]| - 1 ==> s.history[j][i].attempt != a
  {
    assert JobOk(s, j);
    forall i | 0 <= i < |s.history[j]| - 1
      ensures s.history[j][i].attempt != a
    {
      assert DifferentAttempts(s.history[j], i, |s.history[j]| - 1);
    }
  }

  lemma EndTimesKept(s: Sys, now: Time, j: Uuid, a: Uuid, ended: Attempt, jobs: map<Uuid, Job>)
    requires Inv(s) && TimeInv(s, now) && j in s.db.jobs && a in s.db.attempts
    requires s.db.jobs[j].token == Some(s.db.attempts[a].token)
    requires ended.finishedAt == Some(now) && ended.status != Abandoned
    ensures TimeInv(Sys(Db(jobs, s.db.attempts[a := ended]), s.history), now)
  {
    var t := Sys(Db(jobs, s.db.attempts[a := ended]), s.history);
    HolderIsLast(s, j, a);
    forall k | k in t.history
      ensures TimesOk(t, k, now)
    {
      assert TimesOk(s, k, now) && JobOk(s, k);
      if k == j {
        OnlyLast(s, j, a);
        EndedTimes(j, s.history[j], s.db.attempts, t.db.attempts, now);
      } else {
        SameTimes(s, k, t.db.attempts, now);
      }
    }
  }

  lemma ReapTimesKept(s: Sys, now: Time)
    requires Inv(s) && TimeInv(s, now)
    ensures TimeInv(ApplyReap(s, now), now)
  {
    var t := ApplyReap(s, now);
    forall j | j in t.history
      ensures TimesOk(t, j, now)
    {
      assert TimesOk(s, j, now) && JobOk(s, j);
      var h := s.history[j];
      if Expired(s.db.jobs[j], now) {
        var last := h[|h| - 1].attempt;
        OnlyLast(s, j, last);
        forall i | 0 <= i < |h| - 1
          ensures t.db.attempts[h[i].attempt] == s.db.attempts[h[i].attempt]
        {
          assert Recorded(h[i], j, s.db.attempts) && Recorded(h[|h| - 1], j, s.db.attempts);
          assert !SameToken(s.db.attempts, h[i].attempt, last);
        }
        EndedTimes(j, h, s.db.attempts, t.db.attempts, now);
      } else {
        SameTimes(s, j, t.db.attempts, now);
      }
    }
  }

  lemma SeedTimesKept(s: Sys, now: Time, op: Op)
    requires Inv(s) && op.Seed? && Legal(s, now, op) && TimeInv(s, now)
    ensures TimeInv(ApplySeed(s, now, op), now)
  {
    var t := ApplySeed(s, now, op);
    forall j | j in t.history
      ensures TimesOk(t, j, now)
    {
      if j in s.history {
        assert TimesOk(s, j, now);
      }
    }
  }

  lemma TimeInvKept(s: Sys, now: Time, op: Op)
    requires Inv(s) && Legal(s, now, op) && TimeInv(s, now)
    ensures TimeInv(Apply(s, now, op), now)
  {
    match op
    case Seed(_, _, _, _, _, _, _) => SeedTimesKept(s, now, op);
    case Lease(_, _, _, _, _, _) => LeaseTimesKept(s, now, op);
    case Complete(held, _, _) =>
      if Holds(s.db, held) {
        var t := ApplyComplete(s, now, op);
        EndTimesKept(s, now, held.id, held.attempt, t.db.attempts[held.attempt], t.db.jobs);
      }
    case Fail(held, _, _) =>
      if Holds(s.db, held) {
        var t := ApplyFail(s, now, op);
        EndTimesKept(s, now, held.id, held.attempt, t.db.attempts[held.attempt], t.db.jobs);
      }
    case Reap => ReapTimesKept(s, now);
  }

  /** The stretches of time during which a job's leases are in force are disjoint. */
  lemma LeasesDoNotOverlap(s: Sys, clock: Time, j: Uuid, i: nat, k: nat)
    requires Inv(s) && TimeInv(s, clock) && j in s.db.jobs && i < k < |s.history[j]|
    ensures s.history[j][i].attempt in s.db.attempts
    ensures End(s.history[j][i], s.db.attempts) <= s.history[j][k].from
  {
    assert TimesOk(s, j, clock);
    assert InOrder(s.history[j][i], s.history[j][k], s.db.attempts);
  }

  /** As long as a lease has not expired, nothing but its holder ends it. */
  lemma UnexpiredLeaseIsHeld(s: Sys, clock: Time, held: CrawlJob, i: nat)
    requires Inv(s) && TimeInv(s, clock)
    requires held.id in s.db.jobs && i < |s.history[held.id]|
    requires s.history[held.id][i].attempt == held.attempt && s.history[held.id][i].token == held.token
    requires held.attempt in s.db.attempts && s.db.attempts[held.attempt].status in {Leased, Abandoned}
    requires clock <= s.history[held.id][i].until
    ensures Holds(s.db, held)
  {
    var h := s.history[held.id];
    assert TimesOk(s, held.id, clock) && JobOk(s, held.id);
    assert TenureTimes(h[i], s.db.attempts, clock) && TenureTimes(h[|h| - 1], s.db.attempts, clock);
    assert Recorded(h[i], held.id, s.db.attempts);
    assert i < |h| - 1 ==> InOrder(h[i], h[|h| - 1], s.db.attempts);
  }

  // ---------- due times ----------

  ghost predicate LeasesRow(op: Op, k: Uuid) {
    op.Lease? && LeaseAccepted(op.owner, op.seconds) && op.picked == Some(k)
  }

  /** Only a seed moves the due time of a free row, and only a lease makes it other than free. */
  lemma FreeRowKeepsItsTime(s: Sys, now: Time, op: Op, j: Uuid)
    requires Inv(s) && Legal(s, now, op) && j in s.db.jobs && !SeedsRow(s.db.jobs[j], op)
    requires s.db.jobs[j].token.None?
    ensures var t := Apply(s, now, op);
      && j in t.db.jobs && t.db.jobs[j].nextRunAt == s.db.jobs[j].nextRunAt
      && (t.db.jobs[j].token.None? || s.db.jobs[j].nextRunAt <= now)
  {
    assert JobOk(s, j);
  }

  /** Only a seed changes whether a row is enabled. */
  lemma EnabledOnlyBySeed(s: Sys, now: Time, op: Op, j: Uuid)
    requires Inv(s) && Legal(s, now, op) && j in s.db.jobs
    ensures j in Apply(s, now, op).db.jobs
    ensures Apply(s, now, op).db.jobs[j].enabled ==
      if SeedsRow(s.db.jobs[j], op) then op.enabled else s.db.jobs[j].enabled
  {
    assert JobOk(s, j);
  }

  // ---------- bounded overtaking ----------

  /** Job `j` is ready and has been due for some time. */
  ghost predicate Waiting(s: Sys, now: Time, j: Uuid) {
    && j in s.db.jobs
    && s.db.jobs[j].token.None?
    && s.db.jobs[j].enabled
    && s.db.jobs[j].attemptCount < s.db.jobs[j].maxAttempts
    && s.db.jobs[j].nextRunAt < now
  }

  /** The free rows served before `j`. */
  ghost function Ahead(s: Sys, j: Uuid): set<Uuid>
    requires j in s.db.jobs
  {
    set k | k in s.db.jobs && k != j && s.db.jobs[k].token.None? && Before(s.db.jobs, k, j)
  }

  /** A seed of this row that disables it or leaves it no attempts. */
  predicate SwitchesOff(job: Job, op: Op) {
    SeedsRow(job, op) && !(op.enabled && op.maxAttempts > job.attemptCount)
  }

  /** An accepted lease call that found `j` locked and served no row before it. */
  ghost predicate PassesOver(db: Db, op: Op, j: Uuid)
    requires j in db.jobs
  {
    && op.Lease? && LeaseAccepted(op.owner, op.seconds) && j in op.locked
    && (op.picked.None? || (op.picked.value in db.jobs && Before(db.jobs, j, op.picked.value)))
  }

  /** A ready, overdue job keeps waiting exactly until it is leased or switched off. Calls that
      are refused do not end its wait, nor do seeds that leave it ready. */
  lemma WaitingKept(s: Sys, now: Time, op: Op, j: Uuid)
    requires Inv(s) && Legal(s, now, op) && Waiting(s, now, j)
    ensures j in Apply(s, now, op).db.jobs
    ensures Waiting(Apply(s, now, op), now, j) <==> !LeasesRow(op, j) && !SwitchesOff(s.db.jobs[j], op)
    ensures Apply(s, now, op).db.jobs[j].nextRunAt == s.db.jobs[j].nextRunAt
  {
    assert JobOk(s, j);
  }

  /** A lease goes to the waiting job or to one before it, unless it passes the job over. */
  lemma LeaseServesBefore(s: Sys, now: Time, op: Op, j: Uuid)
    requires Inv(s) && Legal(s, now, op) && Waiting(s, now, j)
    requires op.Lease? && LeaseAccepted(op.owner, op.seconds) && op.picked != Some(j)
    ensures !PassesOver(s.db, op, j) <==>
      op.picked.Some? && op.picked.value in s.db.jobs && Before(s.db.jobs, op.picked.value, j)
  {
  }

  /** A free row has its old place in the order, or a time that is not past. */
  lemma NoEarlierThanNow(s: Sys, now: Time, op: Op, k: Uuid)
    requires Inv(s) && Legal(s, now, op) && k in Apply(s, now, op).db.jobs
    requires Apply(s, now, op).db.jobs[k].token.None?
    ensures var row := Apply(s, now, op).db.jobs[k];
      || now <= row.nextRunAt
      || (k in s.db.jobs && s.db.jobs[k].token.None? && s.db.jobs[k].nextRunAt == row.nextRunAt)
  {
    if k in s.db.jobs {
      assert JobOk(s, k);
    }
    if op.Fail? {
      BackoffIsCappedDoubling(SaturatingInc32(op.held.attemptCount));
    }
  }

  /** No transaction brings a job back in front of a waiting one, and the row that a lease
      takes is ahead no longer. */
  lemma AheadShrinks(s: Sys, now: Time, op: Op, j: Uuid)
    requires Inv(s) && Legal(s, now, op) && Waiting(s, now, j)
    requires !LeasesRow(op, j) && !SwitchesOff(s.db.jobs[j], op)
    ensures j in Apply(s, now, op).db.jobs
    ensures Ahead(Apply(s, now, op), j) <= Ahead(s, j)
    ensures forall k :: LeasesRow(op, k) ==> k !in Ahead(Apply(s, now, op), j)
  {
    WaitingKept(s, now, op, j);
    var t := Apply(s, now, op);
    forall k | k in Ahead(t, j)
      ensures k in Ahead(s, j)
    {
      NoEarlierThanNow(s, now, op, k);
    }
  }
}
