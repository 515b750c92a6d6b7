/** What the deletion protocol guarantees over whole runs, and when a job can still be completed. */
module DeletionTheorems {
  import opened Options
  import opened TurnStore
  import opened DeletionLedger
  import opened DeletionProtocol
  import opened DeletionSafety

  // ----- order of effects

  /** In every run, a call to Auth names the subject of its job and comes after that job's purge. */
  lemma AuthOnlyAfterPurge(now: int, store: Store, auth: set<User>, actions: seq<Action>, i: nat) returns (j: nat)
    requires var events := Run(Begin(now, store, auth), actions).events; i < |events| && events[i].AuthCalled?
    ensures var events := Run(Begin(now, store, auth), actions).events;
            var subjects := Run(Begin(now, store, auth), actions).subjects;
            && j < i && events[j] == PurgeCommitted(events[i].id)
            && events[i].id in subjects && subjects[events[i].id] == events[i].user
  {
    hide Run;
    RunsAreSound(now, store, auth, actions);
    var events := Run(Begin(now, store, auth), actions).events;
    assert events[i] == AuthCalled(events[i].id, events[i].user);
    assert Justified(events[..i], events[i]);
    j :| 0 <= j < |events[..i]| && events[..i][j] == PurgeCommitted(events[i].id);
  }

  /** A user leaves Auth only after the purge of, and then the call for, a job about that user. */
  lemma RemovalIsOrdered(now: int, store: Store, auth: set<User>, actions: seq<Action>, i: nat) returns (j: nat, k: nat)
    requires var events := Run(Begin(now, store, auth), actions).events; i < |events| && events[i].AuthRemoved?
    ensures var events := Run(Begin(now, store, auth), actions).events;
            var subjects := Run(Begin(now, store, auth), actions).subjects;
            && j < k < i && events[k].AuthCalled? && events[k].user == events[i].user
            && events[j] == PurgeCommitted(events[k].id)
            && events[k].id in subjects && subjects[events[k].id] == events[i].user
  {
    hide Run;
    RunsAreSound(now, store, auth, actions);
    var events := Run(Begin(now, store, auth), actions).events;
    assert Justified(events[..i], events[i]);
    var id :| AuthCalled(id, events[i].user) in events[..i];
    k :| 0 <= k < |events[..i]| && events[..i][k] == AuthCalled(id, events[i].user);
    j := AuthOnlyAfterPurge(now, store, auth, actions, k);
  }

  /** A completed job: its purge was committed, its user is gone from Auth, its row names nobody. */
  lemma CompletedMeansGone(now: int, store: Store, auth: set<User>, actions: seq<Action>, id: JobId)
    requires var m := Run(Begin(now, store, auth), actions); id in m.ledger.jobs && m.ledger.jobs[id].status.Finished?
    ensures var m := Run(Begin(now, store, auth), actions);
            && id in m.subjects && m.subjects[id] !in m.auth && PurgeCommitted(id) in m.events
            && m.ledger.jobs[id].user.None? && m.ledger.jobs[id].purgedAt.Some?
  {
    hide Run;
    RunsAreSound(now, store, auth, actions);
    var m := Run(Begin(now, store, auth), actions);
    assert JobSound(m, id);
    RowOk(m.ledger, id);
  }

  /** A job is handed out as often as its row says, at most a hundred times. */
  lemma ClaimsAreBounded(now: int, store: Store, auth: set<User>, actions: seq<Action>, id: JobId)
    requires id in Run(Begin(now, store, auth), actions).ledger.jobs
    ensures var m := Run(Begin(now, store, auth), actions);
            Claims(m.events, id) == m.ledger.jobs[id].attempts <= MAX_ATTEMPTS
  {
    hide Run;
    RunsAreSound(now, store, auth, actions);
    var m := Run(Begin(now, store, auth), actions);
    assert JobSound(m, id);
    RowOk(m.ledger, id);
  }

  /** The purge of a job leaves nothing of its subject in the tables and nothing else changed. */
  lemma PurgeErasesTheSubject(m: Machine, id: JobId, name: WorkerId, fingerprint: string, v: User, r: RequestId,
      k: string)
    requires Sound(m) && DoPurge(m, id, name, fingerprint).1.Purged?
    ensures var s, t := m.store, DoPurge(m, id, name, fingerprint).0.store;
            && id in m.subjects
            && if v == m.subjects[id]
               then v !in t.profiles && (v, r) !in t.requests && v !in t.chat && (v, k) !in t.outbox
                   && (v, k) !in t.operations
               else
                 && Lookup(t.profiles, v) == Lookup(s.profiles, v)
                     && Lookup(t.requests, (v, r)) == Lookup(s.requests, (v, r))
                 && Lookup(t.chat, v) == Lookup(s.chat, v) && ((v, k) in t.outbox <==> (v, k) in s.outbox)
                 && Lookup(t.operations, (v, k)) == Lookup(s.operations, (v, k))
  {
    hide RestSound, Erase, Ledger.Ok;
    RowOk(m.ledger, id);
    assert JobSound(m, id);
    EraseIsExact(m.store, m.subjects[id], v, r, k);
  }

  // ----- exclusiveness of a lease

  /** In whose name an action touches the ledger. */
  function Actor(m: Machine, a: Action): Option<WorkerId> {
    match a
    case Late(o) => if o.OrphanAuth? then None else Some(o.name)
    case PurgeStep(p, _) => if p in m.workers then Some(m.workers[p].name) else None
    case RecordStep(p, _) => if p in m.workers then Some(m.workers[p].name) else None
    case FinalizeStep(p, _) => if p in m.workers then Some(m.workers[p].name) else None
    case _ => None
  }

  ghost predicate SameRow(m: Machine, n: Machine, id: JobId) {
    id in m.ledger.jobs && id in n.ledger.jobs && n.ledger.jobs[id] == m.ledger.jobs[id]
  }

  /** A call in the name of the job's current owner. */
  ghost predicate OwnersCall(j: Job, j': Job, name: Option<WorkerId>, now: int) {
    && name.Some? && j.OwnedBy(name.value, now) && j'.attempts == j.attempts
    && (j'.status.Failed? && j'.attempts < MAX_ATTEMPTS ==> j'.next.Some?)
  }

  /** All that one step can do to a job's row. */
  ghost predicate RowStep(m: Machine, n: Machine, id: JobId, name: Option<WorkerId>)
    requires id in m.ledger.jobs
  {
    var j := m.ledger.jobs[id];
    if id !in n.ledger.jobs then j.status.Finished?
    else
      var j' := n.ledger.jobs[id];
      || j' == j
      || (j.Eligible(m.now) && !j.Spent(m.now) && j'.status.Processing? && j'.attempts == j.attempts + 1)
      || (j.Spent(m.now) && j' == j.GivenUp())
      || OwnersCall(j, j', name, m.now)
  }

  lemma CallsRow(m: Machine, job: JobId, name: WorkerId, fingerprint: string, outcome: AuthOutcome, id: JobId)
    requires id in m.ledger.jobs
    ensures RowStep(m, DoPurge(m, job, name, fingerprint).0, id, Some(name))
    ensures RowStep(m, DoRecord(m, job, name, outcome).0, id, Some(name))
    ensures RowStep(m, DoFinalize(m, job, name).0, id, Some(name))
  {
    hide Erase;
  }

  lemma LateRow(m: Machine, o: Orphan, id: JobId)
    requires id in m.ledger.jobs
    ensures RowStep(m, RunOrphan(m, o), id, if o.OrphanAuth? then None else Some(o.name))
  {
    hide DoPurge, DoRecord, DoFinalize;
    if !o.OrphanAuth? {
      var fingerprint := if o.OrphanPurge? then o.fingerprint else "";
      CallsRow(m, o.id, o.name, fingerprint, if o.OrphanFailure? then Refused(o.code) else Unavailable, id);
    }
  }

  lemma WorkerRow(m: Machine, p: nat, a: Action, id: JobId)
    requires id in m.ledger.jobs && p in m.workers && (a.PurgeStep? || a.RecordStep? || a.FinalizeStep?)
    ensures RowStep(m, Step(m, p, m.workers[p], a), id, Some(m.workers[p].name))
  {
    hide DoPurge, DoRecord, DoFinalize;
    var w := m.workers[p];
    if !w.phase.Idle? {
      CallsRow(m, w.phase.claim.id, w.name, w.phase.claim.fingerprint,
               if w.phase.AuthFailing? then w.phase.outcome else Unavailable, id);
    }
  }

  lemma OtherRow(m: Machine, p: nat, a: Action, id: JobId)
    requires id in m.ledger.jobs && p in m.workers && (a.Crash? || a.Acquire? || a.AuthStep? || a.Abandon?)
    ensures RowStep(m, Step(m, p, m.workers[p], a), id, None)
  {
    hide ScanFirst;
  }

  lemma StepRow(m: Machine, a: Action, id: JobId)
    requires id in m.ledger.jobs
    ensures RowStep(m, Act(m, a), id, Actor(m, a)) && Act(m, a).now >= m.now
  {
    hide RowStep, Step, RunOrphan;
    match a {
      case Late(o) =>
        LateRow(m, o, id);
        NowLater(m, o);
        Untouched(m, m, id, Actor(m, a));
      case Crash(p) => WorkersRow(m, p, a, id);
      case Acquire(p, _, _, _, _) => WorkersRow(m, p, a, id);
      case PurgeStep(p, _) => WorkersRow(m, p, a, id);
      case AuthStep(p, _, _) => WorkersRow(m, p, a, id);
      case RecordStep(p, _) => WorkersRow(m, p, a, id);
      case FinalizeStep(p, _) => WorkersRow(m, p, a, id);
      case Abandon(p) => WorkersRow(m, p, a, id);
      case _ => EnvironmentRow(m, a, id);
    }
  }

  lemma Untouched(m: Machine, n: Machine, id: JobId, name: Option<WorkerId>)
    requires id in m.ledger.jobs && n.ledger == m.ledger
    ensures RowStep(m, n, id, name)
  {
  }

  lemma NowLater(m: Machine, o: Orphan)
    ensures RunOrphan(m, o).now == m.now
  {
    hide Erase;
  }

  lemma StepNow(m: Machine, p: nat, w: Worker, a: Action)
    ensures Step(m, p, w, a).now == m.now
  {
    hide Erase, CanClaim;
  }

  lemma WorkersRow(m: Machine, p: nat, a: Action, id: JobId)
    requires id in m.ledger.jobs && !a.Tick? && !a.Outside? && !a.File? && !a.Drop? && !a.GiveUp? && !a.Spawn?
               && !a.Late? && a.p == p
    ensures RowStep(m, Act(m, a), id, Actor(m, a)) && Act(m, a).now >= m.now
  {
    hide RowStep, Step;
    Untouched(m, m, id, Actor(m, a));
    if p in m.workers {
      StepNow(m, p, m.workers[p], a);
      if a.PurgeStep? || a.RecordStep? || a.FinalizeStep? {
        WorkerRow(m, p, a, id);
      } else {
        OtherRow(m, p, a, id);
      }
    }
  }

  lemma EnvironmentRow(m: Machine, a: Action, id: JobId)
    requires id in m.ledger.jobs && (a.Tick? || a.Outside? || a.File? || a.Drop? || a.GiveUp? || a.Spawn?)
    ensures RowStep(m, Act(m, a), id, None) && Act(m, a).now >= m.now
  {
    hide ScanFirst, Step, RunOrphan;
  }

  /** While a lease is live, only calls in its owner's name change the job. */
  lemma OnlyTheOwnerActs(m: Machine, a: Action, id: JobId)
    requires id in m.ledger.jobs && m.ledger.jobs[id].LiveLease(m.now)
    requires Actor(m, a).None? || Actor(m, a) != m.ledger.jobs[id].owner
    ensures SameRow(m, Act(m, a), id)
  {
    hide Act, Actor;
    StepRow(m, a, id);
  }

  // ----- waiting

  /** Not in work, and due at a set time. */
  ghost predicate WaitsUntil(m: Machine, id: JobId, j: Job, due: int) {
    id in m.ledger.jobs && m.ledger.jobs[id] == j && (j.status.Pending? || j.status.Failed?) && j.next == Some(due)
  }

  /** A waiting job is left alone until it is due, whatever else happens. */
  lemma {:induction false} NothingBeforeItsTime(m: Machine, actions: seq<Action>, id: JobId, j: Job, due: int)
    requires WaitsUntil(m, id, j, due) && Run(m, actions).now < due
    ensures WaitsUntil(Run(m, actions), id, j, due)
    decreases |actions|
  {
    hide Act, Actor;
    if actions != [] {
      var before := Run(m, actions[..|actions| - 1]);
      TimeGoesOn(before, actions[|actions| - 1]);
      NothingBeforeItsTime(m, actions[..|actions| - 1], id, j, due);
      StepRow(before, actions[|actions| - 1], id);
    }
  }

  lemma TimeGoesOn(m: Machine, a: Action)
    ensures Act(m, a).now >= m.now
  {
    hide Step, RunOrphan, ScanFirst;
    if a.Late? {
      NowLater(m, a.orphan);
    } else if !(a.Tick? || a.Outside? || a.File? || a.Drop? || a.GiveUp? || a.Spawn?) && a.p in m.workers {
      StepNow(m, a.p, m.workers[a.p], a);
    }
  }

  /**
   After a recorded retry or failure a job with attempts left is not touched again for 30
   seconds an attempt, in any continuation; below the ceiling the cap of an hour never binds.
   */
  lemma BackoffIsKept(m: Machine, id: JobId, name: WorkerId, outcome: AuthOutcome, actions: seq<Action>)
    requires id in m.ledger.jobs && m.ledger.jobs[id].OwnedBy(name, m.now) && m.ledger.jobs[id].attempts < MAX_ATTEMPTS
    requires Run(DoRecord(m, id, name, outcome).0, actions).now < m.now + 30 * m.ledger.jobs[id].attempts
    ensures var n := DoRecord(m, id, name, outcome).0;
            && 30 * m.ledger.jobs[id].attempts <= 2970
            && SameRow(n, Run(n, actions), id) && n.ledger.jobs[id].purgedAt == m.ledger.jobs[id].purgedAt
            && n.ledger.jobs[id].attempts == m.ledger.jobs[id].attempts
  {
    hide Run;
    var n := DoRecord(m, id, name, outcome).0;
    NothingBeforeItsTime(n, actions, id, n.ledger.jobs[id], m.now + 30 * m.ledger.jobs[id].attempts);
  }

  // ----- jobs beyond recovery

  /** Out of attempts and nobody at work on it. */
  ghost predicate Dead(m: Machine, id: JobId) {
    id in m.ledger.jobs && m.ledger.jobs[id].attempts >= MAX_ATTEMPTS
    && !m.ledger.jobs[id].status.Finished? && !m.ledger.jobs[id].LiveLease(m.now)
  }

  lemma DeadStaysDead(m: Machine, a: Action, id: JobId)
    requires Dead(m, id)
    ensures Dead(Act(m, a), id)
  {
    hide Act, Actor;
    StepRow(m, a, id);
  }

  lemma {:induction false} DeadForever(m: Machine, actions: seq<Action>, id: JobId)
    requires Dead(m, id)
    ensures Dead(Run(m, actions), id)
    decreases |actions|
  {
    if actions != [] {
      DeadForever(m, actions[..|actions| - 1], id);
      DeadStaysDead(Run(m, actions[..|actions| - 1]), actions[|actions| - 1], id);
    }
  }

  // ----- recovery

  lemma {:induction false} RunConcat(m: Machine, a: seq<Action>, b: seq<Action>)
    ensures Run(m, a + b) == Run(Run(m, a), b)
    decreases |b|
  {
    if b == [] {
      assert a + b == a;
    } else {
      var init := b[..|b| - 1];
      RunConcat(m, a, init);
      assert (a + b)[..|a + b| - 1] == a + init;
    }
  }

  lemma RunOne(m: Machine, a: Action)
    ensures Run(m, [a]) == Act(m, a)
  {
    assert [a][..0] == [];
    assert Run(m, []) == m;
  }

  function Waiting(m: Machine): set<JobId> {
    set k | k in m.ledger.jobs && m.ledger.jobs[k].Eligible(m.now)
  }

  /** A scan of waiting rows has a first one. */
  lemma {:induction false} FirstOf(m: Machine, among: set<JobId>) returns (first: JobId)
    requires among != {} && forall k :: k in among ==> k in m.ledger.jobs
    ensures first in among && forall k :: k in among ==> NotAfter(m.ledger.jobs[first].next, m.ledger.jobs[k].next)
    decreases |among|
  {
    var k :| k in among;
    if among == {k} {
      first := k;
    } else {
      var f := FirstOf(m, among - {k});
      first := if NotAfter(m.ledger.jobs[k].next, m.ledger.jobs[f].next) then k else f;
    }
  }

  /** A worker that is free to work, and a job that waits. */
  ghost predicate Ready(m: Machine, p: nat, id: JobId) {
    && m.ledger.Ok() && p in m.workers && m.workers[p].phase.Idle?
    && id in m.ledger.jobs && m.ledger.jobs[id].Eligible(m.now) && m.ledger.jobs[id].attempts < MAX_ATTEMPTS
  }

  /** One more row leaves the queue: a job out of attempts is given up, any other is handed out. */
  lemma ServeOther(m: Machine, p: nat, id: JobId, other: JobId) returns (a: Action)
    requires Ready(m, p, id) && ScanFirst(m.ledger, other, {}, m.now) && other != id
    ensures Ready(Act(m, a), p, id) && Waiting(Act(m, a)) == Waiting(m) - {other}
  {
    hide Ledger.Ok, ScanFirst, Step, RunOrphan;
    RowOk(m.ledger, other);
    var j;
    if m.ledger.jobs[other].Spent(m.now) {
      a := GiveUp(other, {});
      j := m.ledger.jobs[other].GivenUp();
    } else {
      a := Acquire(p, other, 3600, {}, true);
      j := m.ledger.jobs[other].ClaimedBy(m.workers[p].name, m.now, 3600);
      AcquireRow(m, p, other);
    }
    PutKeepsOk(m.ledger, other, j);
    assert Act(m, a).ledger == m.ledger.Put(other, j);
  }

  lemma AcquireRow(m: Machine, p: nat, other: JobId)
    requires p in m.workers && m.workers[p].phase.Idle? && CanClaim(m, other, 3600, {})
    ensures var n := Step(m, p, m.workers[p], Acquire(p, other, 3600, {}, true));
            n == m.(ledger := m.ledger.Put(other, m.ledger.jobs[other].ClaimedBy(m.workers[p].name, m.now, 3600)),
                events := n.events)
  {
    hide CanClaim;
  }

  /** The queue ahead of a waiting job can be served until the job comes first. */
  lemma {:induction false} ServeQueue(m: Machine, p: nat, id: JobId) returns (actions: seq<Action>)
    requires Ready(m, p, id)
    ensures Ready(Run(m, actions), p, id) && ScanFirst(Run(m, actions).ledger, id, {}, Run(m, actions).now)
    decreases |Waiting(m)|
  {
    hide Ready, Ledger.Ok, Act;
    ReadyWaits(m, p, id);
    if ScanFirst(m.ledger, id, {}, m.now) {
      actions := [];
      assert Run(m, []) == m;
    } else {
      var first := FirstOf(m, Waiting(m));
      assert ScanFirst(m.ledger, first, {}, m.now);
      var a := ServeOther(m, p, id, first);
      var rest := ServeQueue(Act(m, a), p, id);
      actions := [a] + rest;
      RunOne(m, a);
      RunConcat(m, [a], rest);
    }
  }

  lemma ReadyWaits(m: Machine, p: nat, id: JobId)
    requires Ready(m, p, id)
    ensures id in Waiting(m)
  {
  }

  /** A worker that reached a phase in which the lease is its own. */
  ghost predicate AtWork(m: Machine, p: nat, id: JobId) {
    && p in m.workers && !m.workers[p].phase.Idle? && m.workers[p].phase.claim.id == id
    && id in m.ledger.jobs && m.ledger.jobs[id].OwnedBy(m.workers[p].name, m.now)
    && m.ledger.jobs[id].fingerprint == m.workers[p].phase.claim.fingerprint
    && (m.workers[p].phase.Holding? <==> m.ledger.jobs[id].purgedAt.None?)
    && (m.workers[p].phase.Holding? ==> m.ledger.jobs[id].user.Some?)
  }

  lemma Take(m: Machine, p: nat, id: JobId)
    requires Ready(m, p, id) && ScanFirst(m.ledger, id, {}, m.now)
    ensures var n := Act(m, Acquire(p, id, 3600, {}, false));
            AtWork(n, p, id) && (n.workers[p].phase.Holding? || n.workers[p].phase.DatabaseGone?)
  {
    RowOk(m.ledger, id);
  }

  lemma PurgeNow(m: Machine, p: nat, id: JobId)
    requires AtWork(m, p, id) && m.workers[p].phase.Holding?
    ensures var n := Act(m, PurgeStep(p, false)); AtWork(n, p, id) && n.workers[p].phase.DatabaseGone?
  {
    hide Erase;
  }

  lemma DeleteNow(m: Machine, p: nat, id: JobId) returns (a: Action)
    requires AtWork(m, p, id) && m.workers[p].phase.DatabaseGone?
    ensures AtWork(Act(m, a), p, id) && Act(m, a).workers[p].phase.AuthGone?
  {
    a := AuthStep(p, if m.workers[p].phase.claim.user in m.auth then Deleted else AlreadyAbsent, false);
  }

  lemma FinishNow(m: Machine, p: nat, id: JobId)
    requires AtWork(m, p, id) && m.workers[p].phase.AuthGone?
    ensures var n := Act(m, FinalizeStep(p, false)); id in n.ledger.jobs && n.ledger.jobs[id].status.Finished?
  {
  }

  /** From the claim on, a worker that is not disturbed completes the job. */
  lemma Complete(m: Machine, p: nat, id: JobId) returns (actions: seq<Action>)
    requires p in m.workers && AtWork(m, p, id) && (m.workers[p].phase.Holding? || m.workers[p].phase.DatabaseGone?)
    ensures id in Run(m, actions).ledger.jobs && Run(m, actions).ledger.jobs[id].status.Finished?
  {
    hide AtWork, Act;
    actions := [];
    assert Run(m, []) == m;
    if m.workers[p].phase.Holding? {
      PurgeNow(m, p, id);
      RunOne(m, PurgeStep(p, false));
      actions := [PurgeStep(p, false)];
    }
    var n := Run(m, actions);
    var a := DeleteNow(n, p, id);
    FinishNow(Act(n, a), p, id);
    RunOne(n, a);
    RunOne(Act(n, a), FinalizeStep(p, false));
    RunConcat(n, [a], [FinalizeStep(p, false)]);
    RunConcat(m, actions, [a] + [FinalizeStep(p, false)]);
    actions := actions + ([a] + [FinalizeStep(p, false)]);
  }

  /** Time passes until the job waits, and a new worker appears. */
  lemma Prepare(m: Machine, p: nat, name: WorkerId, id: JobId) returns (actions: seq<Action>)
    requires m.ledger.Ok() && p !in m.workers && id in m.ledger.jobs
    requires Recoverable(m.ledger.jobs[id])
    ensures Ready(Run(m, actions), p, id) && Run(m, actions).workers[p].name == name
  {
    hide Ledger.Ok;
    var j := m.ledger.jobs[id];
    RowOk(m.ledger, id);
    var due := if j.status.Processing? then j.leaseUntil.value + 1 else j.next.value;
    var to := if due > m.now then due else m.now;
    RunOne(m, Tick(to));
    RunOne(Act(m, Tick(to)), Spawn(p, name));
    RunConcat(m, [Tick(to)], [Spawn(p, name)]);
    actions := [Tick(to)] + [Spawn(p, name)];
  }

  /** Not finished and not out of attempts; a failed job must have kept its place in the queue. */
  predicate Recoverable(j: Job) {
    !j.status.Finished? && j.attempts < MAX_ATTEMPTS && (j.status.Failed? ==> j.next.Some?)
  }

  /** Whatever happened so far, a new worker can drive the job to its end. */
  lemma CanBeCompleted(m: Machine, p: nat, name: WorkerId, id: JobId) returns (actions: seq<Action>)
    requires m.ledger.Ok() && p !in m.workers && id in m.ledger.jobs && Recoverable(m.ledger.jobs[id])
    ensures id in Run(m, actions).ledger.jobs && Run(m, actions).ledger.jobs[id].status.Finished?
  {
    hide Ledger.Ok, Ready, AtWork, Act, ScanFirst, Run;
    var a := Prepare(m, p, name, id);
    var m1 := Run(m, a);
    var b := ServeQueue(m1, p, id);
    var m2 := Run(m1, b);
    Take(m2, p, id);
    var claim := Acquire(p, id, 3600, {}, false);
    RunOne(m2, claim);
    var c := Complete(Act(m2, claim), p, id);
    RunConcat(m2, [claim], c);
    RunConcat(m1, b, [claim] + c);
    RunConcat(m, a, b + ([claim] + c));
    actions := a + (b + ([claim] + c));
  }

  /** Below the ceiling a failed job always has a place in the queue. */
  ghost predicate Queued(m: Machine) {
    forall id :: id in m.ledger.jobs && m.ledger.jobs[id].status.Failed? && m.ledger.jobs[id].attempts < MAX_ATTEMPTS
                 ==> m.ledger.jobs[id].next.Some?
  }

  lemma ActKeepsQueued(m: Machine, a: Action)
    requires Queued(m)
    ensures Queued(Act(m, a))
  {
    hide Act, Actor;
    var n := Act(m, a);
    forall id | id in n.ledger.jobs && n.ledger.jobs[id].status.Failed? && n.ledger.jobs[id].attempts < MAX_ATTEMPTS
      ensures n.ledger.jobs[id].next.Some?
    {
      if id in m.ledger.jobs {
        StepRow(m, a, id);
      } else {
        NewRow(m, a, id);
      }
    }
  }

  lemma NewRow(m: Machine, a: Action, id: JobId)
    requires id !in m.ledger.jobs && id in Act(m, a).ledger.jobs
    ensures Act(m, a).ledger.jobs[id].status.Pending?
  {
    hide ScanFirst, Step, RunOrphan;
    if !(a.Tick? || a.Outside? || a.File? || a.Drop? || a.GiveUp? || a.Spawn?) {
      RowsOnlyFiled(m, a);
    }
  }

  lemma RowsOnlyFiled(m: Machine, a: Action)
    requires !(a.Tick? || a.Outside? || a.File? || a.Drop? || a.GiveUp? || a.Spawn?)
    ensures Act(m, a).ledger.jobs.Keys == m.ledger.jobs.Keys
  {
    hide Erase, DoAuth, DoPurge, DoRecord, DoFinalize;
    if a.Late? {
      OrphanKeys(m, a.orphan);
    } else if a.p in m.workers {
      var w := m.workers[a.p];
      if !w.phase.Idle? {
        CallKeys(m, w.phase.claim.id, w.name, w.phase.claim.fingerprint,
                 if w.phase.AuthFailing? then w.phase.outcome else Unavailable);
        if a.AuthStep? {
          AuthElsewhere(m, w.phase.claim.id, w.phase.claim.user, a.outcome, a.removed);
        }
      }
    }
  }

  lemma OrphanKeys(m: Machine, o: Orphan)
    ensures RunOrphan(m, o).ledger.jobs.Keys == m.ledger.jobs.Keys
  {
    hide DoPurge, DoRecord, DoFinalize;
    if !o.OrphanAuth? {
      var fingerprint := if o.OrphanPurge? then o.fingerprint else "";
      CallKeys(m, o.id, o.name, fingerprint, if o.OrphanFailure? then Refused(o.code) else Unavailable);
    }
  }

  lemma CallKeys(m: Machine, job: JobId, name: WorkerId, fingerprint: string, outcome: AuthOutcome)
    ensures DoPurge(m, job, name, fingerprint).0.ledger.jobs.Keys == m.ledger.jobs.Keys
    ensures DoRecord(m, job, name, outcome).0.ledger.jobs.Keys == m.ledger.jobs.Keys
    ensures DoFinalize(m, job, name).0.ledger.jobs.Keys == m.ledger.jobs.Keys
  {
    hide Erase;
  }

  lemma AuthElsewhere(m: Machine, job: JobId, user: User, outcome: AuthOutcome, removed: bool)
    ensures DoAuth(m, job, user, outcome, removed).ledger == m.ledger
  {
  }

  lemma {:induction false} RunsAreQueued(now: int, store: Store, auth: set<User>, actions: seq<Action>)
    ensures Queued(Run(Begin(now, store, auth), actions))
    decreases |actions|
  {
    if actions != [] {
      RunsAreQueued(now, store, auth, actions[..|actions| - 1]);
      ActKeepsQueued(Run(Begin(now, store, auth), actions[..|actions| - 1]), actions[|actions| - 1]);
    }
  }

  ghost predicate Completable(m: Machine, id: JobId) {
    exists actions :: id in Run(m, actions).ledger.jobs && Run(m, actions).ledger.jobs[id].status.Finished?
  }

  /**
   However a run was interrupted, an unfinished job with attempts left can still be
   completed, whoever holds it; without attempts left it can not, unless its last holder's
   lease is still live.
   */
  lemma RecoverableExactly(now: int, store: Store, auth: set<User>, actions: seq<Action>, id: JobId)
    requires id in Run(Begin(now, store, auth), actions).ledger.jobs
    requires !Run(Begin(now, store, auth), actions).ledger.jobs[id].status.Finished?
    ensures var m := Run(Begin(now, store, auth), actions);
            && (m.ledger.jobs[id].attempts < MAX_ATTEMPTS ==> Completable(m, id))
            && (!m.ledger.jobs[id].LiveLease(m.now) ==>
                (Completable(m, id) <==> m.ledger.jobs[id].attempts < MAX_ATTEMPTS))
  {
    hide Run;
    var m := Run(Begin(now, store, auth), actions);
    RunsAreSound(now, store, auth, actions);
    RunsAreQueued(now, store, auth, actions);
    if m.ledger.jobs[id].attempts < MAX_ATTEMPTS {
      var p := FreshWorker(m);
      var more := CanBeCompleted(m, p, "worker", id);
    } else if !m.ledger.jobs[id].LiveLease(m.now) {
      forall more ensures !(id in Run(m, more).ledger.jobs && Run(m, more).ledger.jobs[id].status.Finished?) {
        DeadForever(m, more, id);
      }
    }
  }

  lemma FreshWorker(m: Machine) returns (p: nat)
    ensures p !in m.workers
  {
    p := AboveAll(m.workers.Keys);
  }

  lemma {:induction false} AboveAll(s: set<nat>) returns (p: nat)
    ensures forall q :: q in s ==> q < p
    decreases |s|
  {
    if s == {} {
      p := 0;
    } else {
      var q :| q in s;
      var r := AboveAll(s - {q});
      p := if q < r then r else q + 1;
      forall k | k in s ensures k < p {
        assert k == q || k in s - {q};
      }
    }
  }
}
