/** What holds in every state of every run of the deletion protocol. */
module DeletionSafety {
  import opened Options
  import opened TurnStore
  import opened DeletionLedger
  import opened DeletionProtocol

  function Claims(events: seq<Event>, id: JobId): nat {
    if events == [] then 0
    else Claims(events[..|events| - 1], id) + if events[|events| - 1] == Claimed(id) then 1 else 0
  }

  lemma ClaimsStep(events: seq<Event>, e: Event, id: JobId)
    ensures Claims(events + [e], id) == Claims(events, id) + if e == Claimed(id) then 1 else 0
  {
    assert (events + [e])[..|events|] == events;
  }

  /** Every call to Auth follows its job's purge; every removal follows a call; every completion follows a purge. */
  ghost predicate Ordered(events: seq<Event>) {
    forall i :: 0 <= i < |events| ==> Justified(events[..i], events[i])
  }

  ghost predicate Justified(before: seq<Event>, e: Event) {
    match e
    case Claimed(id) => JobCompleted(id) !in before
    case PurgeCommitted(id) => PurgeCommitted(id) !in before && Claimed(id) in before
    case AuthCalled(id, user) => PurgeCommitted(id) in before
    case AuthRemoved(user) => exists id :: AuthCalled(id, user) in before
    case JobCompleted(id) => PurgeCommitted(id) in before && JobCompleted(id) !in before
  }

  lemma OrderedStep(events: seq<Event>, e: Event)
    requires Ordered(events) && Justified(events, e)
    ensures Ordered(events + [e])
  {
    hide Justified;
    var all := events + [e];
    forall i | 0 <= i < |all| ensures Justified(all[..i], all[i]) {
      if i < |events| {
        assert all[..i] == events[..i];
      } else {
        assert all[..i] == events;
      }
    }
  }

  // ----- the invariant

  ghost predicate JobSound(m: Machine, id: JobId)
    requires id in m.ledger.jobs
  {
    var j := m.ledger.jobs[id];
    && id in m.subjects
    && (j.user.Some? ==> j.user.value == m.subjects[id])
    && (j.purgedAt.Some? <==> PurgeCommitted(id) in m.events)
    && (j.status.Finished? <==> JobCompleted(id) in m.events)
    && (j.status.Finished? ==> m.subjects[id] !in m.auth)
    && j.attempts == Claims(m.events, id)
    && (j.status.Processing? ==> Claimed(id) in m.events)
  }

  ghost predicate ClaimSound(m: Machine, c: Claim) {
    c.id in m.subjects && m.subjects[c.id] == c.user
  }

  ghost predicate PhaseSound(m: Machine, phase: Phase) {
    match phase
    case Idle => true
    case Holding(c) => ClaimSound(m, c)
    case DatabaseGone(c) => ClaimSound(m, c) && PurgeCommitted(c.id) in m.events
    case AuthGone(c) => ClaimSound(m, c) && PurgeCommitted(c.id) in m.events && c.user !in m.auth
    case AuthFailing(c, _) => ClaimSound(m, c) && PurgeCommitted(c.id) in m.events
  }

  ghost predicate OrphanSound(m: Machine, o: Orphan) {
    match o
    case OrphanFinalize(id, _) => id in m.subjects && m.subjects[id] !in m.auth
    case OrphanAuth(id, user) => AuthCalled(id, user) in m.events
    case _ => true
  }

  ghost predicate JobsSound(m: Machine) {
    m.ledger.Ok() && (forall id :: id in m.ledger.jobs ==> JobSound(m, id))
  }

  ghost predicate RestSound(m: Machine) {
    && (forall p :: p in m.workers ==> PhaseSound(m, m.workers[p].phase))
    && (forall o :: o in m.orphans ==> OrphanSound(m, o))
    && Ordered(m.events)
    && (forall id :: JobCompleted(id) in m.events || PurgeCommitted(id) in m.events || Claimed(id) in m.events ==>
        id in m.subjects)
    && (forall id :: JobCompleted(id) in m.events ==> m.subjects[id] !in m.auth)
    && (forall id, user :: AuthCalled(id, user) in m.events ==> id in m.subjects && m.subjects[id] == user)
  }

  ghost predicate Sound(m: Machine) {
    JobsSound(m) && RestSound(m)
  }

  /** History grows, the Auth service only loses users, jobs keep their subjects. */
  ghost predicate Later(m: Machine, n: Machine) {
    && |m.events| <= |n.events| && n.events[..|m.events|] == m.events
    && n.auth <= m.auth
    && (forall id :: id in m.subjects ==> id in n.subjects && n.subjects[id] == m.subjects[id])
  }

  lemma PhaseLater(m: Machine, n: Machine, phase: Phase)
    requires Later(m, n) && PhaseSound(m, phase)
    ensures PhaseSound(n, phase)
  {
    if !phase.Idle? {
      if PurgeCommitted(phase.claim.id) in m.events {
        EventLater(m, n, PurgeCommitted(phase.claim.id));
      }
    }
  }

  lemma EventLater(m: Machine, n: Machine, e: Event)
    requires Later(m, n) && e in m.events
    ensures e in n.events
  {
    var i :| 0 <= i < |m.events| && m.events[i] == e;
    assert n.events[..|m.events|][i] == e;
  }

  lemma OrphanLater(m: Machine, n: Machine, o: Orphan)
    requires Later(m, n) && OrphanSound(m, o)
    ensures OrphanSound(n, o)
  {
    if o.OrphanAuth? {
      EventLater(m, n, AuthCalled(o.id, o.user));
    }
  }

  lemma AllLater(m: Machine, n: Machine)
    requires Later(m, n) && RestSound(m) && n.workers == m.workers && n.orphans == m.orphans
    ensures forall p :: p in n.workers ==> PhaseSound(n, n.workers[p].phase)
    ensures forall o :: o in n.orphans ==> OrphanSound(n, o)
  {
    hide PhaseSound, OrphanSound, Later;
    forall p | p in n.workers ensures PhaseSound(n, n.workers[p].phase) {
      PhaseLater(m, n, m.workers[p].phase);
    }
    forall o | o in n.orphans ensures OrphanSound(n, o) {
      OrphanLater(m, n, o);
    }
  }

  // ----- steps on one job

  /** A step that rewrites one job's row and logs at most one event about that job. */
  ghost predicate Rewrites(m: Machine, n: Machine, id: JobId, logged: seq<Event>) {
    && id in m.ledger.jobs && id in n.ledger.jobs && n.ledger == m.ledger.Put(id, n.ledger.jobs[id])
    && n.events == m.events + logged && |logged| <= 1
    && (logged != [] ==> logged[0] in {Claimed(id), PurgeCommitted(id), JobCompleted(id)})
    && n.auth == m.auth && n.subjects == m.subjects && n.workers == m.workers && n.orphans == m.orphans
  }

  lemma RewriteKeepsJobs(m: Machine, n: Machine, id: JobId, logged: seq<Event>)
    requires JobsSound(m) && Rewrites(m, n, id, logged) && n.ledger.Ok() && JobSound(n, id)
    ensures JobsSound(n)
  {
    hide Ledger.Ok;
    forall k | k in n.ledger.jobs ensures JobSound(n, k) {
      if k != id {
        assert JobSound(m, k);
        if logged != [] {
          ClaimsStep(m.events, logged[0], k);
        } else {
          assert n.events == m.events;
        }
      }
    }
  }

  lemma RewriteKeepsRest(m: Machine, n: Machine, id: JobId, logged: seq<Event>)
    requires RestSound(m) && Rewrites(m, n, id, logged) && id in m.subjects
    requires logged != [] ==> Justified(m.events, logged[0])
    requires logged == [JobCompleted(id)] ==> m.subjects[id] !in m.auth
    ensures RestSound(n) && Later(m, n)
  {
    hide PhaseSound, OrphanSound, Justified;
    AllLater(m, n);
    if logged == [] {
      assert n.events == m.events;
    } else {
      OrderedStep(m.events, logged[0]);
      assert n.events == m.events + [logged[0]];
      forall k | JobCompleted(k) in n.events ensures k in n.subjects && n.subjects[k] !in n.auth {
        assert JobCompleted(k) in m.events || logged[0] == JobCompleted(k);
      }
    }
  }

  lemma RewriteKeepsSound(m: Machine, n: Machine, id: JobId, logged: seq<Event>)
    requires Sound(m) && Rewrites(m, n, id, logged) && n.ledger.jobs[id].Ok() && JobSound(n, id)
    requires n.ledger.jobs[id].reference == m.ledger.jobs[id].reference
               && n.ledger.jobs[id].operation == m.ledger.jobs[id].operation
    requires logged != [] ==> Justified(m.events, logged[0])
    requires logged == [JobCompleted(id)] ==> m.subjects[id] !in m.auth
    ensures Sound(n) && Later(m, n)
  {
    hide RestSound, Later, Justified, Ledger.Ok;
    PutKeepsOk(m.ledger, id, n.ledger.jobs[id]);
    RewriteKeepsJobs(m, n, id, logged);
    RewriteKeepsRest(m, n, id, logged);
  }

  lemma LaterRefl(m: Machine)
    ensures Later(m, m)
  {
  }

  lemma PurgeKeepsSound(m: Machine, id: JobId, name: WorkerId, fingerprint: string)
    requires Sound(m)
    ensures var (n, reply) := DoPurge(m, id, name, fingerprint);
            && Sound(n) && Later(m, n) && n.workers == m.workers && n.orphans == m.orphans
            && (reply.Purged? || reply.AlreadyPurged? ==> PurgeCommitted(id) in n.events)
  {
    hide RestSound, Later, Ledger.Ok, Erase;
    var (n, reply) := DoPurge(m, id, name, fingerprint);
    LaterRefl(m);
    if id in m.ledger.jobs {
      RowOk(m.ledger, id);
      assert JobSound(m, id);
      if reply.Purged? {
        ClaimsStep(m.events, PurgeCommitted(id), id);
        RewriteKeepsSound(m, n, id, [PurgeCommitted(id)]);
      }
    }
  }

  lemma FinalizeKeepsSound(m: Machine, id: JobId, name: WorkerId)
    requires Sound(m) && id in m.subjects && m.subjects[id] !in m.auth
    ensures var (n, reply) := DoFinalize(m, id, name);
            Sound(n) && Later(m, n) && n.workers == m.workers && n.orphans == m.orphans
  {
    hide RestSound, Later, Ledger.Ok;
    var (n, reply) := DoFinalize(m, id, name);
    LaterRefl(m);
    if id in m.ledger.jobs {
      RowOk(m.ledger, id);
      assert JobSound(m, id);
      if reply.Finalized? {
        ClaimsStep(m.events, JobCompleted(id), id);
        RewriteKeepsSound(m, n, id, [JobCompleted(id)]);
      }
    }
  }

  lemma RecordKeepsSound(m: Machine, id: JobId, name: WorkerId, outcome: AuthOutcome)
    requires Sound(m)
    ensures var (n, reply) := DoRecord(m, id, name, outcome);
            Sound(n) && Later(m, n) && n.workers == m.workers && n.orphans == m.orphans
  {
    hide RestSound, Later, Ledger.Ok;
    var (n, reply) := DoRecord(m, id, name, outcome);
    LaterRefl(m);
    if id in m.ledger.jobs && m.ledger.jobs[id].OwnedBy(name, m.now) {
      RowOk(m.ledger, id);
      assert JobSound(m, id);
      assert n.events == m.events + [];
      RewriteKeepsSound(m, n, id, []);
    }
  }

  lemma GiveUpKeepsSound(m: Machine, id: JobId)
    requires Sound(m) && id in m.ledger.jobs && m.ledger.jobs[id].Spent(m.now)
    ensures Sound(m.(ledger := m.ledger.Put(id, m.ledger.jobs[id].GivenUp())))
  {
    hide RestSound, Later, Ledger.Ok;
    var n := m.(ledger := m.ledger.Put(id, m.ledger.jobs[id].GivenUp()));
    RowOk(m.ledger, id);
    assert JobSound(m, id);
    assert n.events == m.events + [];
    RewriteKeepsSound(m, n, id, []);
  }

  /** A worker's phase may become any that is sound. */
  lemma MoveKeepsSound(m: Machine, p: nat, w: Worker, phase: Phase)
    requires Sound(m) && PhaseSound(m, phase)
    ensures Sound(m.At(p, w, phase))
  {
    hide Ledger.Ok, Ordered;
    var n := m.At(p, w, phase);
    forall id | id in n.ledger.jobs ensures JobSound(n, id) {
      assert JobSound(m, id);
    }
    LaterRefl(m);
    forall q | q in n.workers ensures PhaseSound(n, n.workers[q].phase) {
      PhaseLater(m, n, if q == p then phase else m.workers[q].phase);
    }
    forall o | o in n.orphans ensures OrphanSound(n, o) {
      assert OrphanSound(m, o);
    }
  }

  lemma ClaimKeepsSound(m: Machine, p: nat, w: Worker, job: JobId, seconds: nat, locked: set<JobId>, lost: bool)
    requires Sound(m) && CanClaim(m, job, seconds, locked)
    ensures Sound(DoAcquire(m, p, w, job, seconds, lost))
  {
    hide RestSound, Later, Ledger.Ok, ScanFirst, PhaseSound;
    RowOk(m.ledger, job);
    assert JobSound(m, job);
    var j := m.ledger.jobs[job].ClaimedBy(w.name, m.now, seconds);
    var n := m.(ledger := m.ledger.Put(job, j)).Log(Claimed(job));
    ClaimsStep(m.events, Claimed(job), job);
    RewriteKeepsSound(m, n, job, [Claimed(job)]);
    var c := ClaimOf(job, j);
    ClaimPhase(n, c);
    if !lost {
      MoveKeepsSound(n, p, w, if c.purged then DatabaseGone(c) else Holding(c));
    }
  }

  lemma ClaimPhase(m: Machine, c: Claim)
    requires ClaimSound(m, c) && (c.purged ==> PurgeCommitted(c.id) in m.events)
    ensures PhaseSound(m, if c.purged then DatabaseGone(c) else Holding(c))
  {
  }

  // ----- Auth

  /** A step that logs a call or a removal and leaves the ledger alone. */
  lemma AuthEventKeepsSound(m: Machine, n: Machine, e: Event)
    requires Sound(m) && (e.AuthCalled? || e.AuthRemoved?) && Justified(m.events, e)
    requires e.AuthCalled? ==> e.id in m.subjects && m.subjects[e.id] == e.user
    requires n.ledger == m.ledger && n.events == m.events + [e] && n.auth <= m.auth && n.subjects == m.subjects
    requires n.workers == m.workers && n.orphans == m.orphans
    ensures Sound(n) && Later(m, n)
  {
    hide Ledger.Ok, PhaseSound, OrphanSound, Justified;
    assert Later(m, n);
    AllLater(m, n);
    OrderedStep(m.events, e);
    forall id | id in n.ledger.jobs ensures JobSound(n, id) {
      assert JobSound(m, id);
      ClaimsStep(m.events, e, id);
    }
  }

  lemma OrphanKeepsSound(m: Machine, o: Orphan)
    requires Sound(m) && OrphanSound(m, o)
    ensures Sound(m.(orphans := m.orphans + {o})) && Later(m, m.(orphans := m.orphans + {o}))
  {
    hide Ledger.Ok, Ordered;
    var n := m.(orphans := m.orphans + {o});
    forall id | id in n.ledger.jobs ensures JobSound(n, id) {
      assert JobSound(m, id);
    }
    LaterRefl(m);
    forall q | q in n.orphans ensures OrphanSound(n, q) {
      assert OrphanSound(m, q);
    }
    forall p | p in n.workers ensures PhaseSound(n, n.workers[p].phase) {
      PhaseLater(m, n, m.workers[p].phase);
    }
  }

  lemma LaterTrans(m: Machine, n: Machine, k: Machine)
    requires Later(m, n) && Later(n, k)
    ensures Later(m, k)
  {
    assert k.events[..|m.events|] == k.events[..|n.events|][..|m.events|];
  }

  lemma AuthKeepsSound(m: Machine, id: JobId, user: User, outcome: AuthOutcome, removed: bool)
    requires Sound(m) && PurgeCommitted(id) in m.events && id in m.subjects && m.subjects[id] == user
    ensures var n := DoAuth(m, id, user, outcome, removed);
            Sound(n) && Later(m, n) && n.workers == m.workers && (outcome.Deleted? ==> user !in n.auth)
            && (outcome.AlreadyAbsent? ==> n.auth == m.auth)
  {
    hide Sound, Later;
    var logged := m.Log(AuthCalled(id, user));
    AuthEventKeepsSound(m, logged, AuthCalled(id, user));
    var called := logged;
    if !outcome.Deleted? && !outcome.AlreadyAbsent? {
      OrphanKeepsSound(logged, OrphanAuth(id, user));
      called := logged.(orphans := m.orphans + {OrphanAuth(id, user)});
      LaterTrans(m, logged, called);
    }
    if outcome.Deleted? || (removed && !outcome.AlreadyAbsent?) {
      assert AuthCalled(id, user) in called.events;
      var n := called.(auth := called.auth - {user}).Log(AuthRemoved(user));
      AuthEventKeepsSound(called, n, AuthRemoved(user));
      LaterTrans(m, called, n);
    }
  }

  lemma RunOrphanKeepsSound(m: Machine, o: Orphan)
    requires Sound(m) && o in m.orphans
    ensures Sound(RunOrphan(m, o))
  {
    hide Ledger.Ok, DoPurge, DoRecord, DoFinalize, JobsSound;
    assert OrphanSound(m, o);
    match o {
      case OrphanPurge(id, name, fingerprint) => PurgeKeepsSound(m, id, name, fingerprint);
      case OrphanRetry(id, name) => RecordKeepsSound(m, id, name, Unavailable);
      case OrphanFailure(id, name, code) => RecordKeepsSound(m, id, name, Refused(code));
      case OrphanFinalize(id, name) => FinalizeKeepsSound(m, id, name);
      case OrphanAuth(id, user) => AuthEventKeepsSound(m, RunOrphan(m, o), AuthRemoved(user));
    }
  }

  // ----- every action

  lemma AbandonKeepsSound(m: Machine, p: nat, w: Worker)
    requires Sound(m) && PhaseSound(m, w.phase) && !w.phase.Idle?
    ensures Sound(Step(m, p, w, Abandon(p)))
  {
    hide Sound, Later;
    var m' := m;
    if w.phase.DatabaseGone? {
      m' := m.Log(AuthCalled(w.phase.claim.id, w.phase.claim.user));
      AuthEventKeepsSound(m, m', AuthCalled(w.phase.claim.id, w.phase.claim.user));
    }
    OrphanKeepsSound(m', OrphanOf(w.name, w.phase));
    MoveKeepsSound(m'.(orphans := m.orphans + {OrphanOf(w.name, w.phase)}), p, w, Idle);
  }

  lemma PurgeStepKeepsSound(m: Machine, p: nat, w: Worker, lost: bool)
    requires Sound(m) && PhaseSound(m, w.phase) && w.phase.Holding?
    ensures Sound(Step(m, p, w, PurgeStep(p, lost)))
  {
    hide Sound, Later, DoPurge;
    var c := w.phase.claim;
    var (m', reply) := DoPurge(m, c.id, w.name, c.fingerprint);
    PurgeKeepsSound(m, c.id, w.name, c.fingerprint);
    PhaseLater(m, m', w.phase);
    MoveKeepsSound(m', p, w, if !lost && (reply.Purged? || reply.AlreadyPurged?) then DatabaseGone(c) else Idle);
  }

  lemma AuthStepKeepsSound(m: Machine, p: nat, w: Worker, outcome: AuthOutcome, removed: bool)
    requires Sound(m) && PhaseSound(m, w.phase) && w.phase.DatabaseGone?
    ensures Sound(Step(m, p, w, AuthStep(p, outcome, removed)))
  {
    hide Sound, Later, DoAuth;
    var c := w.phase.claim;
    if !(outcome.AlreadyAbsent? && c.user in m.auth) {
      var after := if outcome.Deleted? || outcome.AlreadyAbsent? then AuthGone(c) else AuthFailing(c, outcome);
      var m' := DoAuth(m, c.id, c.user, outcome, removed);
      AuthKeepsSound(m, c.id, c.user, outcome, removed);
      PhaseLater(m, m', w.phase);
      MoveKeepsSound(m', p, w, after);
    }
  }

  lemma StepKeepsSound(m: Machine, p: nat, a: Action)
    requires Sound(m) && p in m.workers
    ensures Sound(Step(m, p, m.workers[p], a))
  {
    hide JobsSound, Later, DoPurge, DoAuth, DoRecord, DoFinalize, DoAcquire, CanClaim, Ordered;
    var w := m.workers[p];
    assert PhaseSound(m, w.phase);
    match a {
      case Crash(_) => CrashKeepsSound(m, p);
      case Acquire(_, job, seconds, locked, lost) =>
        if w.phase.Idle? && CanClaim(m, job, seconds, locked) {
          ClaimKeepsSound(m, p, w, job, seconds, locked, lost);
        }
      case PurgeStep(_, lost) =>
        if w.phase.Holding? {
          PurgeStepKeepsSound(m, p, w, lost);
        }
      case AuthStep(_, outcome, removed) =>
        if w.phase.DatabaseGone? {
          AuthStepKeepsSound(m, p, w, outcome, removed);
        }
      case RecordStep(_, _) =>
        if w.phase.AuthFailing? {
          RecordKeepsSound(m, w.phase.claim.id, w.name, w.phase.outcome);
          MoveKeepsSound(DoRecord(m, w.phase.claim.id, w.name, w.phase.outcome).0, p, w, Idle);
        }
      case FinalizeStep(_, _) =>
        if w.phase.AuthGone? {
          FinalizeKeepsSound(m, w.phase.claim.id, w.name);
          MoveKeepsSound(DoFinalize(m, w.phase.claim.id, w.name).0, p, w, Idle);
        }
      case Abandon(_) =>
        if !w.phase.Idle? {
          AbandonKeepsSound(m, p, w);
        }
      case _ =>
    }
  }

  lemma CrashKeepsSound(m: Machine, p: nat)
    requires Sound(m)
    ensures Sound(m.(workers := m.workers - {p}))
  {
    hide Ledger.Ok, Ordered;
    var n := m.(workers := m.workers - {p});
    forall id | id in n.ledger.jobs ensures JobSound(n, id) {
      assert JobSound(m, id);
    }
    forall q | q in n.workers ensures PhaseSound(n, n.workers[q].phase) {
      assert PhaseSound(m, m.workers[q].phase);
    }
    forall o | o in n.orphans ensures OrphanSound(n, o) {
      assert OrphanSound(m, o);
    }
  }

  lemma {:induction false} NoClaims(events: seq<Event>, id: JobId)
    requires Claimed(id) !in events
    ensures Claims(events, id) == 0
  {
    if events != [] {
      NoClaims(events[..|events| - 1], id);
    }
  }

  lemma FileKeepsSound(m: Machine, u: User, reference: string, operation: string, fingerprint: string, job: JobId)
    requires Sound(m)
    ensures Sound(DoFile(m, u, reference, operation, fingerprint, job))
  {
    hide Ledger.Ok, Ordered, PhaseSound, OrphanSound, JobSound;
    var n := DoFile(m, u, reference, operation, fingerprint, job);
    RequestKeepsOk(m.ledger, u, reference, operation, fingerprint, job, m.now);
    assert Later(m, n);
    forall id | id in n.ledger.jobs ensures JobSound(n, id) {
      FiledJobSound(m, u, reference, operation, fingerprint, job, id);
    }
    AllLater(m, n);
  }

  lemma FiledJobSound(m: Machine, u: User, reference: string, operation: string, fingerprint: string, job: JobId,
      id: JobId)
    requires Sound(m) && id in DoFile(m, u, reference, operation, fingerprint, job).ledger.jobs
    ensures JobSound(DoFile(m, u, reference, operation, fingerprint, job), id)
  {
    hide Ledger.Ok, Ordered, PhaseSound, OrphanSound;
    if id in m.ledger.jobs {
      assert JobSound(m, id);
    } else {
      NoClaims(m.events, id);
    }
  }

  lemma DropKeepsSound(m: Machine, jobs: set<JobId>)
    requires Sound(m)
    ensures Sound(m.(ledger := Retain(m.ledger, jobs)))
  {
    hide Ledger.Ok, Ordered, PhaseSound, OrphanSound;
    var n := m.(ledger := Retain(m.ledger, jobs));
    RetainKeepsOk(m.ledger, jobs);
    LaterRefl(m);
    assert Later(m, n);
    AllLater(m, n);
    forall id | id in n.ledger.jobs ensures JobSound(n, id) {
      assert JobSound(m, id);
    }
  }

  /** The clock, the user tables and the set of workers do not matter to the invariant. */
  lemma ElsewhereKeepsSound(m: Machine, n: Machine)
    requires Sound(m) && n == m.(now := n.now, store := n.store)
    ensures Sound(n)
  {
    hide Ledger.Ok, Ordered, PhaseSound, OrphanSound;
    LaterRefl(m);
    assert Later(m, n);
    AllLater(m, n);
    forall id | id in n.ledger.jobs ensures JobSound(n, id) {
      assert JobSound(m, id);
    }
  }

  lemma ActKeepsSound(m: Machine, a: Action)
    requires Sound(m)
    ensures Sound(Act(m, a))
  {
    hide JobsSound, Step, RunOrphan, DoFile, Retain, ScanFirst, Ordered, Later;
    match a {
      case Tick(_) => ElsewhereKeepsSound(m, Act(m, a));
      case Outside(_) => ElsewhereKeepsSound(m, Act(m, a));
      case File(u, reference, operation, fingerprint, job) => FileKeepsSound(m, u, reference, operation, fingerprint,
          job);
      case Drop(jobs) => DropKeepsSound(m, jobs);
      case GiveUp(job, locked) =>
        if ScanFirst(m.ledger, job, locked, m.now) && m.ledger.jobs[job].Spent(m.now) {
          GiveUpKeepsSound(m, job);
        }
      case Spawn(p, name) =>
        if p !in m.workers {
          MoveKeepsSound(m, p, Worker(name, Idle), Idle);
        }
      case Late(o) =>
        if o in m.orphans {
          RunOrphanKeepsSound(m, o);
        }
      case _ =>
        if a.p in m.workers {
          StepKeepsSound(m, a.p, a);
        }
    }
  }

  /** The invariant holds at the end of every run that starts from an empty ledger. */
  lemma {:induction false} RunsAreSound(now: int, store: Store, auth: set<User>, actions: seq<Action>)
    ensures Sound(Run(Begin(now, store, auth), actions))
    decreases |actions|
  {
    if actions != [] {
      RunsAreSound(now, store, auth, actions[..|actions| - 1]);
      ActKeepsSound(Run(Begin(now, store, auth), actions[..|actions| - 1]), actions[|actions| - 1]);
    }
  }
}
