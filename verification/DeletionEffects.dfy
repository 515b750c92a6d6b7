/**
 What each call of the deletion pipeline does, field by field: the rows it changes, the
 other rows it leaves alone, and the answer it gives, from the rows and the clock alone.
 */
module DeletionEffects {
  import opened Options
  import opened TurnStore
  import opened DeletionLedger
  import opened DeletionProtocol

  /** The row is in work under this name and its lease has not run out. */
  predicate Owns(m: Machine, id: JobId, name: WorkerId) {
    && id in m.ledger.jobs && m.ledger.jobs[id].status == Processing && m.ledger.jobs[id].owner == Some(name)
    && m.ledger.jobs[id].leaseUntil.Some? && m.now < m.ledger.jobs[id].leaseUntil.value
  }

  /** No row but `id` differs. */
  ghost predicate OtherRowsSame(a: Jobs, b: Jobs, id: JobId) {
    a.Keys == b.Keys && forall k :: k in a && k != id ==> b[k] == a[k]
  }

  /** What never changes in a row that is in work, whatever is recorded of it. */
  ghost predicate SameTask(a: Job, b: Job) {
    && b.reference == a.reference && b.operation == a.operation && b.fingerprint == a.fingerprint
    && b.attempts == a.attempts
  }

  /**
   Recording how the Auth call failed: an unavailable service puts the job back into the queue
   30 seconds an attempt later, unless that was the last attempt; a refusal fails it with its
   code, to be tried again as much later. Without a live lease nothing is recorded.
   */
  ghost predicate Recorded(m: Machine, n: Machine, id: JobId, name: WorkerId, outcome: AuthOutcome) {
    && OtherRowsSame(m.ledger.jobs, n.ledger.jobs, id)
    && (!Owns(m, id, name) ==> n.ledger.jobs == m.ledger.jobs)
    && (Owns(m, id, name) ==>
          var was, row := m.ledger.jobs[id], n.ledger.jobs[id];
          && SameTask(was, row) && row.user == was.user && row.purgedAt == was.purgedAt
          && row.finishedAt == was.finishedAt && row.owner == None && row.leaseUntil == None
          && row.next == (if was.attempts < 100 then Some(m.now + 30 * was.attempts) else None)
          && (if outcome == Unavailable && was.attempts < 100 then row.status == JobStatus.Pending && row.error == None
              else
                && row.status == Failed
                && (outcome == Unavailable ==> row.error == Some("attempts_exhausted"))
                && (outcome.Refused? ==> row.error == Some(outcome.code))))
  }

  lemma RecordExactly(m: Machine, id: JobId, name: WorkerId, outcome: AuthOutcome)
    requires outcome == Unavailable || outcome.Refused?
    ensures var (n, reply) := DoRecord(m, id, name, outcome);
            && Recorded(m, n, id, name, outcome) && n == m.(ledger := n.ledger)
            && (reply == RecordLost <==> !Owns(m, id, name))
            && (reply == RetryScheduled <==>
                Owns(m, id, name) && outcome == Unavailable && m.ledger.jobs[id].attempts < 100)
  {
  }

  /** Finalizing: an owned and purged row is finished and forgets its user; any other stays as it is. */
  ghost predicate EndRecorded(m: Machine, n: Machine, id: JobId, name: WorkerId) {
    && OtherRowsSame(m.ledger.jobs, n.ledger.jobs, id)
    && (if Owns(m, id, name) && m.ledger.jobs[id].purgedAt.Some? then
          var was, row := m.ledger.jobs[id], n.ledger.jobs[id];
          && SameTask(was, row) && row.user == None && row.status == Finished && row.owner == None
          && row.leaseUntil == None && row.finishedAt == Some(m.now) && row.purgedAt == was.purgedAt
          && row.next == was.next && row.error == was.error
        else n.ledger.jobs == m.ledger.jobs)
  }

  lemma FinalizeExactly(m: Machine, id: JobId, name: WorkerId)
    ensures var (n, reply) := DoFinalize(m, id, name);
            && EndRecorded(m, n, id, name) && n == m.(ledger := n.ledger, events := n.events)
            && (reply == Finalized <==> Owns(m, id, name) && m.ledger.jobs[id].purgedAt.Some?)
            && (reply == FinalizeLost <==> !Owns(m, id, name))
            && n.events == m.events + if reply == Finalized then [JobCompleted(id)] else []
  {
  }

  /**
   The purge: with a live lease and the fingerprint of the row, once. It erases every table's
   rows of the job's user, and marks the job; otherwise nothing changes.
   */
  lemma PurgeExactly(m: Machine, id: JobId, name: WorkerId, fingerprint: string)
    ensures var (n, reply) := DoPurge(m, id, name, fingerprint);
            && (reply == PurgeLost <==> !Owns(m, id, name))
            && (reply == FingerprintConflict <==> Owns(m, id, name) && m.ledger.jobs[id].fingerprint != fingerprint)
            && (reply == AlreadyPurged <==>
                && Owns(m, id, name) && m.ledger.jobs[id].fingerprint == fingerprint
                && m.ledger.jobs[id].purgedAt.Some?)
            && (reply != Purged ==> n == m)
            && (reply == Purged ==>
                  && OtherRowsSame(m.ledger.jobs, n.ledger.jobs, id)
                  && n.ledger.jobs[id] == m.ledger.jobs[id].(purgedAt := Some(m.now))
                  && (m.ledger.jobs[id].user.Some? ==>
                        && n.store == Erase(m.store, m.ledger.jobs[id].user.value)
                        && n.events == m.events + [PurgeCommitted(id)]))
  {
  }

  /** The Auth call: logged; the user is gone if the service says so, or by the error's side effect; no row changes. */
  lemma AuthExactly(m: Machine, id: JobId, user: User, outcome: AuthOutcome, removed: bool)
    ensures var n := DoAuth(m, id, user, outcome, removed);
            && n.ledger == m.ledger && n.store == m.store && n.now == m.now
            && (outcome == Deleted || (removed && outcome != AlreadyAbsent) ==>
                  n.auth == m.auth - {user} && n.events == m.events + [AuthCalled(id, user), AuthRemoved(user)])
            && (outcome == AlreadyAbsent || (!removed && outcome != Deleted) ==>
                  n.auth == m.auth && n.events == m.events + [AuthCalled(id, user)])
            && n.orphans == m.orphans +
               if outcome == Deleted || outcome == AlreadyAbsent then {} else {OrphanAuth(id, user)}
  {
  }

  // ----- waiting and being handed out

  /** Waiting for a worker: due and with attempts left, or in work under a lease that has run out. */
  predicate Waits(j: Job, now: int) {
    match j.status
    case Pending => j.next.Some? && j.next.value <= now && j.attempts < 100
    case Failed => j.next.Some? && j.next.value <= now && j.attempts < 100
    case Processing => j.leaseUntil.Some? && j.leaseUntil.value < now
    case Finished => false
  }

  /** Waiting, but its attempts are used up: a job that the scan gives up. */
  predicate IsSpent(j: Job, now: int) {
    Waits(j, now) && j.attempts >= 100
  }

  ghost predicate GaveUp(a: Job, b: Job) {
    && SameTask(a, b) && b.user == a.user && b.purgedAt == a.purgedAt && b.finishedAt == a.finishedAt
    && b.status == Failed && b.error == Some("attempts_exhausted")
    && b.owner == None && b.leaseUntil == None && b.next == None
  }

  ghost predicate TakenBy(a: Job, b: Job, name: WorkerId, now: int, seconds: nat) {
    && b.reference == a.reference && b.operation == a.operation && b.fingerprint == a.fingerprint
    && b.user == a.user && b.purgedAt == a.purgedAt && b.finishedAt == a.finishedAt && b.next == a.next
    && b.status == Processing && b.owner == Some(name) && b.leaseUntil == Some(now + seconds)
    && b.attempts == a.attempts + 1 && b.error == None
  }

  lemma WaitsExactly(j: Job, now: int, name: WorkerId, seconds: nat)
    ensures j.Eligible(now) <==> Waits(j, now)
    ensures j.Spent(now) <==> IsSpent(j, now)
    ensures forall b :: b == j.GivenUp() <==> GaveUp(j, b)
    ensures forall b :: b == j.ClaimedBy(name, now, seconds) <==> TakenBy(j, b, name, now, seconds)
  {
  }

  // ----- filing and retention

  /** A request: one job for each reference and operation; the same again is replayed, another intent refused. */
  lemma RequestExactly(l: Ledger, u: User, reference: string, operation: string, fingerprint: string, id: JobId,
      now: int)
    requires l.Ok()
    ensures var (n, reply) := Request(l, u, reference, operation, fingerprint, id, now);
            if exists k :: k in l.jobs && l.jobs[k].reference == reference && l.jobs[k].operation == operation then
              && n == l
              && exists k :: k in l.jobs && l.jobs[k].reference == reference && l.jobs[k].operation == operation
                   && reply == if l.jobs[k].fingerprint == fingerprint then Replayed(k) else OperationConflict
            else if id in l.jobs then n == l && reply == RequestFailed
            else
              && reply == Created(id)
              && n.jobs == l.jobs[id :=
                   Job(Some(u), reference, operation, fingerprint, JobStatus.Pending, 0, None, None, Some(now), None,
                       None, None)]
              && n.index == l.index[(reference, operation) := id]
  {
    var key := (reference, operation);
    if k :| k in l.jobs && l.jobs[k].reference == reference && l.jobs[k].operation == operation {
      assert l.Key(k) == key;
    }
  }

  /** Retention drops what it is told to of the finished jobs, and nothing else. */
  lemma RetainExactly(l: Ledger, dropped: set<JobId>)
    ensures var n := Retain(l, dropped);
            && (forall k :: k in n.jobs <==> k in l.jobs && !(k in dropped && l.jobs[k].status == Finished))
            && forall k :: k in n.jobs ==> n.jobs[k] == l.jobs[k]
  {
  }
}
