/**
 The account-deletion ledger: its rows, the constraints the table puts on them, and the
 stored procedures that move a job. Times are seconds of the database clock.
 */
module DeletionLedger {
  import opened Options
  import opened TurnStore

  type JobId = string
  type WorkerId = string

  const MAX_ATTEMPTS := 100

  datatype JobStatus = Pending | Processing | Finished | Failed

  datatype Job = Job(
    user: Option<User>, reference: string, operation: string, fingerprint: string,
    status: JobStatus, attempts: nat, owner: Option<WorkerId>, leaseUntil: Option<int>,
    next: Option<int>, purgedAt: Option<int>, error: Option<string>, finishedAt: Option<int>)
  {
    /** The table's constraints, and one they leave open: a job in work has a place in the queue. */
    ghost predicate Ok() {
      && attempts <= MAX_ATTEMPTS
      && (status.Processing? <==> owner.Some?) && (owner.Some? <==> leaseUntil.Some?)
      && (status.Finished? <==> user.None?)
      && (status.Finished? <==> finishedAt.Some?)
      && (status.Finished? ==> purgedAt.Some?)
      && (status.Pending? || status.Processing? ==> next.Some?)
      && (status.Failed? ==> error.Some?)
    }

    /** Someone may act on the job: `account_deletion_assert_owner`. */
    predicate OwnedBy(w: WorkerId, now: int) {
      status.Processing? && owner == Some(w) && leaseUntil.Some? && leaseUntil.value > now
    }

    predicate LiveLease(now: int) {
      status.Processing? && leaseUntil.Some? && leaseUntil.value > now
    }

    /** Returned by the scan for work. */
    predicate Eligible(now: int) {
      || ((status.Pending? || status.Failed?) && next.Some? && next.value <= now && attempts < MAX_ATTEMPTS)
      || (status.Processing? && leaseUntil.Some? && leaseUntil.value < now)
    }

    /** Returned by the scan, but only to be given up. */
    predicate Spent(now: int) {
      Eligible(now) && status.Processing? && attempts >= MAX_ATTEMPTS
    }

    function GivenUp(): Job {
      this.(status := Failed, error := Some("attempts_exhausted"), owner := None, leaseUntil := None, next := None)
    }

    function ClaimedBy(w: WorkerId, now: int, seconds: nat): Job {
      this.(status := Processing, owner := Some(w), leaseUntil := Some(now + seconds),
            attempts := attempts + 1, error := None)
    }
  }

  type Jobs = map<JobId, Job>

  // ----- a request

  datatype RequestReply = Created(id: JobId) | Replayed(id: JobId) | OperationConflict | RequestFailed

  /** The rows and their unique index on (reference, operation). */
  datatype Ledger = Ledger(jobs: Jobs, index: map<(string, string), JobId>) {
    ghost predicate Ok() {
      && (forall id :: id in jobs ==> jobs[id].Ok())
      && (forall k :: k in index ==> index[k] in jobs && (jobs[index[k]].reference, jobs[index[k]].operation) == k)
      && (forall id :: id in jobs ==> Key(id) in index && index[Key(id)] == id)
    }

    ghost function Key(id: JobId): (string, string)
      requires id in jobs
    {
      (jobs[id].reference, jobs[id].operation)
    }

    function Put(id: JobId, j: Job): Ledger {
      this.(jobs := jobs[id := j])
    }
  }

  function Request(l: Ledger, u: User, reference: string, operation: string, fingerprint: string, id: JobId, now: int)
    : (Ledger, RequestReply)
  {
    var key := (reference, operation);
    if key in l.index && l.index[key] in l.jobs then
      var known := l.index[key];
      (l, if l.jobs[known].fingerprint == fingerprint then Replayed(known) else OperationConflict)
    else if id in l.jobs then (l, RequestFailed)
    else
      var job := Job(Some(u), reference, operation, fingerprint, JobStatus.Pending, 0, None, None, Some(now), None,
          None, None);
      (Ledger(l.jobs[id := job], l.index[key := id]), Created(id))
  }

  // ----- the steps of a worker

  datatype PurgeReply = PurgeLost | FingerprintConflict | AlreadyPurged | Purged

  function Purge(l: Ledger, id: JobId, w: WorkerId, fingerprint: string, now: int): (Ledger, PurgeReply) {
    if id !in l.jobs || !l.jobs[id].OwnedBy(w, now) then (l, PurgeLost)
    else if l.jobs[id].fingerprint != fingerprint then (l, FingerprintConflict)
    else if l.jobs[id].purgedAt.Some? then (l, AlreadyPurged)
    else (l.Put(id, l.jobs[id].(purgedAt := Some(now))), Purged)
  }

  /** The rows the purge deletes, table by table. */
  function Erase(s: Store, u: User): Store {
    Store(
      s.profiles - {u},
      (map k | k in s.requests && k.0 != u :: s.requests[k]),
      s.chat - {u},
      (set e | e in s.outbox && e.0 != u),
      (map k | k in s.operations && k.0 != u :: s.operations[k]))
  }

  function Backoff(attempts: nat): nat {
    if 30 * attempts < 3600 then 30 * attempts else 3600
  }

  function Released(j: Job, status: JobStatus, error: Option<string>, next: Option<int>): Job {
    j.(status := status, error := error, owner := None, leaseUntil := None, next := next)
  }

  datatype RecordReply = RecordLost | RetryScheduled | RecordedFailed(code: string)

  function RecordFailure(l: Ledger, id: JobId, w: WorkerId, code: string, now: int): (Ledger, RecordReply) {
    if id !in l.jobs || !l.jobs[id].OwnedBy(w, now) then (l, RecordLost)
    else
      var j := l.jobs[id];
      var next := if j.attempts >= MAX_ATTEMPTS then None else Some(now + Backoff(j.attempts));
      (l.Put(id, Released(j, Failed, Some(code), next)), RecordedFailed(code))
  }

  function RecordRetry(l: Ledger, id: JobId, w: WorkerId, now: int): (Ledger, RecordReply) {
    if id !in l.jobs || !l.jobs[id].OwnedBy(w, now) then (l, RecordLost)
    else
      var j := l.jobs[id];
      if j.attempts >= MAX_ATTEMPTS
      then (l.Put(id, j.GivenUp()), RecordedFailed("attempts_exhausted"))
      else (l.Put(id, Released(j, JobStatus.Pending, None, Some(now + Backoff(j.attempts)))), RetryScheduled)
  }

  datatype FinalizeReply = FinalizeLost | StateConflict | Finalized

  function Finalize(l: Ledger, id: JobId, w: WorkerId, now: int): (Ledger, FinalizeReply) {
    if id !in l.jobs || !l.jobs[id].OwnedBy(w, now) then (l, FinalizeLost)
    else if l.jobs[id].purgedAt.None? then (l, StateConflict)
    else
      var j := l.jobs[id];
      (l.Put(id, j.(status := Finished, user := None, owner := None, leaseUntil := None, finishedAt := Some(now))),
          Finalized)
  }

  /** Retention: drops finished jobs only. */
  function Retain(l: Ledger, dropped: set<JobId>): Ledger {
    Ledger(
      (map id | id in l.jobs && !(id in dropped && l.jobs[id].status.Finished?) :: l.jobs[id]),
      (map k | k in l.index && !(l.index[k] in dropped && l.index[k] in l.jobs
          && l.jobs[l.index[k]].status.Finished?) :: l.index[k]))
  }

  // ----- the scan for work

  /** `ORDER BY next_attempt_at`, missing values last, over the rows nobody has locked. */
  predicate ScanFirst(l: Ledger, id: JobId, locked: set<JobId>, now: int): (holds: bool)
    ensures holds ==> id in l.jobs && l.jobs[id].Eligible(now)
  {
    && id in l.jobs && id !in locked && l.jobs[id].Eligible(now)
    && forall k :: k in l.jobs && k !in locked && l.jobs[k].Eligible(now) ==> NotAfter(l.jobs[id].next, l.jobs[k].next)
  }

  predicate NotAfter(a: Option<int>, b: Option<int>) {
    b.None? || (a.Some? && a.value <= b.value)
  }

  lemma RequestKeepsOk(l: Ledger, u: User, reference: string, operation: string, fingerprint: string, id: JobId,
      now: int)
    requires l.Ok()
    ensures Request(l, u, reference, operation, fingerprint, id, now).0.Ok()
  {
  }

  lemma PutKeepsOk(l: Ledger, id: JobId, j: Job)
    requires l.Ok() && id in l.jobs && j.Ok()
    requires j.reference == l.jobs[id].reference && j.operation == l.jobs[id].operation
    ensures l.Put(id, j).Ok()
  {
    var l' := l.Put(id, j);
    forall k | k in l'.jobs ensures l'.Key(k) in l'.index && l'.index[l'.Key(k)] == k {
      assert l'.Key(k) == l.Key(k);
    }
  }

  lemma RetainKeepsOk(l: Ledger, dropped: set<JobId>)
    requires l.Ok()
    ensures Retain(l, dropped).Ok()
  {
    var l' := Retain(l, dropped);
    forall id | id in l'.jobs ensures l'.Key(id) in l'.index && l'.index[l'.Key(id)] == id {
      assert l'.Key(id) == l.Key(id);
    }
    forall k | k in l'.index
        ensures l'.index[k] in l'.jobs && (l'.jobs[l'.index[k]].reference, l'.jobs[l'.index[k]].operation) == k {
      assert l.index[k] in l.jobs;
    }
  }

  lemma RowOk(l: Ledger, id: JobId)
    requires l.Ok() && id in l.jobs
    ensures l.jobs[id].Ok()
  {
  }

  /** The purge removes everything of the user and nothing of anyone else. */
  lemma EraseIsExact(s: Store, u: User, v: User, r: RequestId, k: string)
    ensures var t := Erase(s, u);
            if v == u then v !in t.profiles && (v, r) !in t.requests && v !in t.chat && (v, k) !in t.outbox
                && (v, k) !in t.operations
            else
              && Lookup(t.profiles, v) == Lookup(s.profiles, v)
                  && Lookup(t.requests, (v, r)) == Lookup(s.requests, (v, r))
              && Lookup(t.chat, v) == Lookup(s.chat, v) && ((v, k) in t.outbox <==> (v, k) in s.outbox)
              && Lookup(t.operations, (v, k)) == Lookup(s.operations, (v, k))
  {
  }
}
