/**
 Any number of deletion workers over the ledger, the user tables and the Auth service.
 Every call may lose its reply, every worker may die between any two steps, a call given
 up by its client may still take place (and even more than once), worker ids may be
 shared, and the clock moves on its own. An action that does not apply changes nothing,
 so every sequence of actions is a run.
 */
module DeletionProtocol {
  import opened Options
  import opened TurnStore
  import opened DeletionLedger

  /** What a worker remembers of the job it claimed. */
  datatype Claim = Claim(id: JobId, user: User, fingerprint: string, purged: bool, attempts: nat)

  datatype AuthOutcome = Deleted | AlreadyAbsent | Unavailable | Refused(code: string)

  datatype Phase =
    | Idle
    | Holding(claim: Claim)
    | DatabaseGone(claim: Claim)
    | AuthGone(claim: Claim)
    | AuthFailing(claim: Claim, outcome: AuthOutcome)

  datatype Worker = Worker(name: WorkerId, phase: Phase)

  /** A call whose client no longer waits for it. */
  datatype Orphan =
    | OrphanPurge(id: JobId, name: WorkerId, fingerprint: string)
    | OrphanRetry(id: JobId, name: WorkerId)
    | OrphanFailure(id: JobId, name: WorkerId, code: string)
    | OrphanFinalize(id: JobId, name: WorkerId)
    | OrphanAuth(id: JobId, user: User)

  datatype Event =
    | Claimed(id: JobId)
    | PurgeCommitted(id: JobId)
    | AuthCalled(id: JobId, user: User)
    | AuthRemoved(user: User)
    | JobCompleted(id: JobId)

  /** `subjects` remembers whose account each job was created for. */
  datatype Machine = Machine(
    now: int, ledger: Ledger, store: Store, auth: set<User>, workers: map<nat, Worker>,
    orphans: set<Orphan>, subjects: map<JobId, User>, events: seq<Event>)
  {
    function Log(e: Event): Machine {
      this.(events := events + [e])
    }

    function At(p: nat, w: Worker, phase: Phase): Machine {
      this.(workers := workers[p := w.(phase := phase)])
    }
  }

  datatype Action =
    | Tick(to: int)
    | Outside(store: Store)
    | File(user: User, reference: string, operation: string, fingerprint: string, job: JobId)
    | Drop(jobs: set<JobId>)
    | GiveUp(job: JobId, locked: set<JobId>)
    | Spawn(p: nat, name: WorkerId)
    | Crash(p: nat)
    | Acquire(p: nat, job: JobId, seconds: nat, locked: set<JobId>, lost: bool)
    | PurgeStep(p: nat, lost: bool)
    | AuthStep(p: nat, outcome: AuthOutcome, removed: bool)
    | RecordStep(p: nat, lost: bool)
    | FinalizeStep(p: nat, lost: bool)
    | Abandon(p: nat)
    | Late(orphan: Orphan)

  // ----- calls

  function DoPurge(m: Machine, id: JobId, name: WorkerId, fingerprint: string): (Machine, PurgeReply) {
    var (l, reply) := Purge(m.ledger, id, name, fingerprint, m.now);
    if reply.Purged? && id in m.ledger.jobs && m.ledger.jobs[id].user.Some?
    then (m.(ledger := l, store := Erase(m.store, m.ledger.jobs[id].user.value)).Log(PurgeCommitted(id)), reply)
    else (m.(ledger := l), reply)
  }

  function DoFinalize(m: Machine, id: JobId, name: WorkerId): (Machine, FinalizeReply) {
    var (l, reply) := Finalize(m.ledger, id, name, m.now);
    if reply.Finalized? then (m.(ledger := l).Log(JobCompleted(id)), reply) else (m.(ledger := l), reply)
  }

  function DoRecord(m: Machine, id: JobId, name: WorkerId, outcome: AuthOutcome): (Machine, RecordReply) {
    var (l, reply) := if outcome.Unavailable? then RecordRetry(m.ledger, id, name, m.now)
      else RecordFailure(m.ledger, id, name, if outcome.Refused? then outcome.code else "auth_failed", m.now);
    (m.(ledger := l), reply)
  }

  /** The hard delete is called; after an error it may have removed the user, or may yet do so. */
  function DoAuth(m: Machine, id: JobId, user: User, outcome: AuthOutcome, removed: bool): Machine {
    var logged := m.Log(AuthCalled(id, user));
    var called := if outcome.Deleted? || outcome.AlreadyAbsent? then logged
        else logged.(orphans := m.orphans + {OrphanAuth(id, user)});
    if outcome.Deleted? || (removed && !outcome.AlreadyAbsent?)
    then called.(auth := called.auth - {user}).Log(AuthRemoved(user))
    else called
  }

  function RunOrphan(m: Machine, o: Orphan): Machine {
    match o
    case OrphanPurge(id, name, fingerprint) => DoPurge(m, id, name, fingerprint).0
    case OrphanRetry(id, name) => DoRecord(m, id, name, Unavailable).0
    case OrphanFailure(id, name, code) => DoRecord(m, id, name, Refused(code)).0
    case OrphanFinalize(id, name) => DoFinalize(m, id, name).0
    case OrphanAuth(id, user) => m.(auth := m.auth - {user}).Log(AuthRemoved(user))
  }

  function OrphanOf(name: WorkerId, phase: Phase): Orphan
    requires !phase.Idle?
  {
    match phase
    case Holding(c) => OrphanPurge(c.id, name, c.fingerprint)
    case DatabaseGone(c) => OrphanAuth(c.id, c.user)
    case AuthGone(c) => OrphanFinalize(c.id, name)
    case AuthFailing(c, outcome) =>
      if outcome.Unavailable? then OrphanRetry(c.id, name)
      else OrphanFailure(c.id, name, if outcome.Refused? then outcome.code else "auth_failed")
  }

  // ----- a worker's step

  /** The claim that the scan hands out: the first eligible row, unless it is to be given up. */
  predicate CanClaim(m: Machine, job: JobId, seconds: nat, locked: set<JobId>) {
    && ScanFirst(m.ledger, job, locked, m.now) && !m.ledger.jobs[job].Spent(m.now)
    && m.ledger.jobs[job].user.Some? && 1 <= seconds <= 3600
  }

  function ClaimOf(id: JobId, j: Job): Claim
    requires j.user.Some?
  {
    Claim(id, j.user.value, j.fingerprint, j.purgedAt.Some?, j.attempts)
  }

  function DoAcquire(m: Machine, p: nat, w: Worker, job: JobId, seconds: nat, lost: bool): Machine
    requires job in m.ledger.jobs && m.ledger.jobs[job].user.Some?
  {
    var j := m.ledger.jobs[job].ClaimedBy(w.name, m.now, seconds);
    var claimed := m.(ledger := m.ledger.Put(job, j)).Log(Claimed(job));
    var c := ClaimOf(job, j);
    if lost then claimed
    else claimed.At(p, w, if c.purged then DatabaseGone(c) else Holding(c))
  }

  function Step(m: Machine, p: nat, w: Worker, a: Action): Machine {
    match a
    case Crash(_) => m.(workers := m.workers - {p})
    case Acquire(_, job, seconds, locked, lost) =>
      if w.phase.Idle? && CanClaim(m, job, seconds, locked) then DoAcquire(m, p, w, job, seconds, lost) else m
    case PurgeStep(_, lost) =>
      if !w.phase.Holding? then m
      else
        var c := w.phase.claim;
        var (m', reply) := DoPurge(m, c.id, w.name, c.fingerprint);
        m'.At(p, w, if !lost && (reply.Purged? || reply.AlreadyPurged?) then DatabaseGone(c) else Idle)
    case AuthStep(_, outcome, removed) =>
      if !w.phase.DatabaseGone? then m
      else
        var c := w.phase.claim;
        if outcome.AlreadyAbsent? && c.user in m.auth then m
        else
          var after := if outcome.Deleted? || outcome.AlreadyAbsent? then AuthGone(c) else AuthFailing(c, outcome);
          DoAuth(m, c.id, c.user, outcome, removed).At(p, w, after)
    case RecordStep(_, _) =>
      if !w.phase.AuthFailing? then m else DoRecord(m, w.phase.claim.id, w.name, w.phase.outcome).0.At(p, w, Idle)
    case FinalizeStep(_, _) =>
      if !w.phase.AuthGone? then m else DoFinalize(m, w.phase.claim.id, w.name).0.At(p, w, Idle)
    case Abandon(_) =>
      if w.phase.Idle? then m
      else
        var m' := if w.phase.DatabaseGone? then m.Log(AuthCalled(w.phase.claim.id, w.phase.claim.user)) else m;
        m'.(orphans := m.orphans + {OrphanOf(w.name, w.phase)}).At(p, w, Idle)
    case _ => m
  }

  function DoFile(m: Machine, u: User, reference: string, operation: string, fingerprint: string, job: JobId): Machine {
    if job in m.subjects then m
    else
      var (l, reply) := Request(m.ledger, u, reference, operation, fingerprint, job, m.now);
      m.(ledger := l, subjects := if reply.Created? then m.subjects[job := u] else m.subjects)
  }

  function Act(m: Machine, a: Action): Machine {
    match a
    case Tick(to) => if to > m.now then m.(now := to) else m
    case Outside(store) => m.(store := store)
    case File(u, reference, operation, fingerprint, job) => DoFile(m, u, reference, operation, fingerprint, job)
    case Drop(jobs) => m.(ledger := Retain(m.ledger, jobs))
    case GiveUp(job, locked) =>
      if ScanFirst(m.ledger, job, locked, m.now) && m.ledger.jobs[job].Spent(m.now)
      then m.(ledger := m.ledger.Put(job, m.ledger.jobs[job].GivenUp())) else m
    case Spawn(p, name) => if p in m.workers then m else m.(workers := m.workers[p := Worker(name, Idle)])
    case Late(o) => if o in m.orphans then RunOrphan(m, o) else m
    case _ => if a.p in m.workers then Step(m, a.p, m.workers[a.p], a) else m
  }

  function Run(m: Machine, actions: seq<Action>): Machine
    decreases |actions|
  {
    if actions == [] then m else Act(Run(m, actions[..|actions| - 1]), actions[|actions| - 1])
  }

  function Begin(now: int, store: Store, auth: set<User>): Machine {
    Machine(now, Ledger(map[], map[]), store, auth, map[], {}, map[], [])
  }
}
