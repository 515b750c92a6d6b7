/**
 `AccountDeletionWorker.run_once` as code over the shared system. Between any two of its
 steps the rest of the system may do anything; a plan says what it does and how the
 worker's own calls turn out.
 */
module DeletionWorker {
  import opened Options
  import opened TurnStore
  import opened DeletionLedger
  import opened DeletionReplies
  import opened DeletionProtocol
  import opened DeletionSafety
  import opened DeletionTheorems
  import opened DeletionEffects

  /**
   What happens around one job: the others' actions, the replies that are lost, an error of
   Auth as the adapter classifies it, and the reply to finalizing if it is not the ledger's own.
   */
  datatype Plan = Plan(
    beforeAcquire: seq<Action>, beforePurge: seq<Action>, beforeAuth: seq<Action>, beforeLast: seq<Action>,
    acquireLost: bool, purgeLost: bool, recordLost: bool,
    authError: Option<AuthOutcome>, removed: bool, answer: Option<Response>, completedAt: string, purgedAt: string)

  predicate Touches(a: Action, p: nat) {
    match a
    case Spawn(q, _) => q == p
    case Crash(q) => q == p
    case Acquire(q, _, _, _, _) => q == p
    case PurgeStep(q, _) => q == p
    case AuthStep(q, _, _) => q == p
    case RecordStep(q, _) => q == p
    case FinalizeStep(q, _) => q == p
    case Abandon(q) => q == p
    case _ => false
  }

  predicate OthersOnly(actions: seq<Action>, p: nat) {
    forall i :: 0 <= i < |actions| ==> !Touches(actions[i], p)
  }

  predicate Honours(plan: Plan, p: nat) {
    && OthersOnly(plan.beforeAcquire, p) && OthersOnly(plan.beforePurge, p)
    && OthersOnly(plan.beforeAuth, p) && OthersOnly(plan.beforeLast, p)
    && (plan.authError.Some? ==> plan.authError.value.Unavailable? || plan.authError.value.Refused?)
  }

  lemma OthersStep(m: Machine, a: Action, p: nat)
    requires p in m.workers && !Touches(a, p)
    ensures p in Act(m, a).workers && Act(m, a).workers[p] == m.workers[p]
  {
    hide Erase, CanClaim, ScanFirst, Purge, Finalize, RecordRetry, RecordFailure;
  }

  lemma {:induction false} OthersKeep(m: Machine, actions: seq<Action>, p: nat)
    requires p in m.workers && OthersOnly(actions, p)
    ensures p in Run(m, actions).workers && Run(m, actions).workers[p] == m.workers[p]
    decreases |actions|
  {
    hide Act;
    if actions != [] {
      OthersKeep(m, actions[..|actions| - 1], p);
      OthersStep(Run(m, actions[..|actions| - 1]), actions[|actions| - 1], p);
    }
  }

  /** `b` goes on from `a`. */
  ghost predicate Extends(a: seq<Action>, b: seq<Action>) {
    |a| <= |b| && b[..|a|] == a
  }

  lemma ExtendsIsTransitive()
    ensures forall a: seq<Action> :: Extends(a, a)
    ensures forall a: seq<Action>, b, c :: Extends(a, b) && Extends(b, c) ==> Extends(a, c)
  {
    forall a: seq<Action>, b: seq<Action>, c: seq<Action> | Extends(a, b) && Extends(b, c) ensures Extends(a, c) {
      assert c[..|a|] == c[..|b|][..|a|];
    }
  }

  class System {
    var m: Machine
    /** Where the system started, from an empty ledger, and everything done since. */
    ghost const first: Machine
    ghost var done: seq<Action>

    ghost predicate Valid()
      reads this
    {
      first == Begin(first.now, first.store, first.auth) && m == Run(first, done)
    }

    constructor (now: int, store: Store, auth: set<User>)
      ensures m == Begin(now, store, auth) && Valid()
    {
      m, done, first := Begin(now, store, auth), [], Begin(now, store, auth);
    }

    /** In particular no constraint of the ledger's table is ever violated. */
    lemma LedgerOk()
      requires Valid()
      ensures m.ledger.Ok()
    {
      RunsAreSound(first.now, first.store, first.auth, done);
    }

    lemma IsRun()
      requires Valid()
      ensures m == Run(first, done)
    {
    }

    method Others(actions: seq<Action>, p: nat)
      requires Valid() && p in m.workers && OthersOnly(actions, p)
      modifies this
      ensures Valid() && m == Run(old(m), actions) && Extends(old(done), done)
      ensures p in m.workers && m.workers[p] == old(m).workers[p]
    {
      hide Run;
      OthersKeep(m, actions, p);
      RunConcat(first, done, actions);
      m := Run(m, actions);
      done := done + actions;
    }

    method Do(a: Action)
      requires Valid()
      modifies this
      ensures Valid() && m == Act(old(m), a) && Extends(old(done), done)
    {
      hide Act;
      assert (done + [a])[..|done|] == done;
      m := Act(m, a);
      done := done + [a];
    }
  }

  /** `WorkerRunResult`: the counters of one round. */
  class RunResult {
    var noWork: bool
    var completed: nat
    var retryScheduled: nat
    var failed: nat
    var leaseLost: nat

    constructor ()
      ensures !noWork && Total() == 0
    {
      noWork, completed, retryScheduled, failed, leaseLost := false, 0, 0, 0, 0;
    }

    function Total(): nat
      reads this
    {
      completed + retryScheduled + failed + leaseLost
    }

    function Counts(): Tally
      reads this
    {
      Tally(completed, retryScheduled, failed, leaseLost)
    }
  }

  datatype Tally = Tally(completed: nat, retryScheduled: nat, failed: nat, leaseLost: nat)

  // ----- acquiring a job

  /** The first row of the scan, if there is any. */
  method FirstWaiting(l: Ledger, locked: set<JobId>, now: int) returns (first: Option<JobId>)
    ensures first.Some? ==> ScanFirst(l, first.value, locked, now)
    ensures first.None? ==> forall k :: k in l.jobs && k !in locked ==> !Waits(l.jobs[k], now)
  {
    first := None;
    var left := l.jobs.Keys - locked;
    while left != {}
      invariant left <= l.jobs.Keys - locked
      invariant first.Some? ==> first.value in l.jobs && first.value !in locked && l.jobs[first.value].Eligible(now)
      invariant forall k :: k in l.jobs && k !in locked && k !in left && l.jobs[k].Eligible(now) ==>
                  first.Some? && NotAfter(l.jobs[first.value].next, l.jobs[k].next)
      decreases |left|
    {
      var k :| k in left;
      left := left - {k};
      if l.jobs[k].Eligible(now) && (first.None? || !NotAfter(l.jobs[first.value].next, l.jobs[k].next)) {
        first := Some(k);
      }
    }
  }

  /** Rows of jobs that are out of attempts but still in work: each is given up at most once per scan. */
  function SpentJobs(m: Machine): set<JobId> {
    set k | k in m.ledger.jobs && m.ledger.jobs[k].Spent(m.now)
  }

  /** A scan so far: some spent jobs were given up, and that is all. */
  ghost predicate OnlyGivenUp(l: Ledger, l': Ledger, now: int) {
    && l'.jobs.Keys == l.jobs.Keys
    && forall k :: k in l.jobs ==>
        l'.jobs[k] == l.jobs[k] || (IsSpent(l.jobs[k], now) && GaveUp(l.jobs[k], l'.jobs[k]))
  }

  /** The job that is handed out: waiting, not spent, and first among those. */
  ghost predicate FirstToServe(l: Ledger, id: JobId, locked: set<JobId>, now: int) {
    && id in l.jobs && id !in locked && Waits(l.jobs[id], now) && l.jobs[id].attempts < 100
    && forall k :: k in l.jobs && k !in locked && Waits(l.jobs[k], now) && l.jobs[k].attempts < 100 ==>
        l.jobs[k].next.None? || (l.jobs[id].next.Some? && l.jobs[id].next.value <= l.jobs[k].next.value)
  }

  /** One job was handed out; of the other rows, some spent ones were given up, and that is all. */
  ghost predicate HandedOut(m: Machine, n: Machine, id: JobId, name: WorkerId, seconds: nat) {
    && n.now == m.now && id in m.ledger.jobs && id in n.ledger.jobs
    && TakenBy(m.ledger.jobs[id], n.ledger.jobs[id], name, m.now, seconds)
    && OnlyGivenUp(m.ledger, n.ledger.Put(id, m.ledger.jobs[id]), m.now)
  }

  lemma FirstInScan(l: Ledger, l': Ledger, id: JobId, locked: set<JobId>, now: int)
    requires OnlyGivenUp(l, l', now) && ScanFirst(l', id, locked, now) && !l'.jobs[id].Spent(now)
    ensures FirstToServe(l, id, locked, now) && l'.jobs[id] == l.jobs[id]
  {
    assert !l.jobs[id].GivenUp().Eligible(now);
    forall k | k in l.jobs && k !in locked && Waits(l.jobs[k], now) && l.jobs[k].attempts < 100
      ensures NotAfter(l.jobs[id].next, l.jobs[k].next)
    {
      assert l'.jobs[k] == l.jobs[k];
    }
  }

  lemma GiveUpServes(m: Machine, job: JobId, locked: set<JobId>)
    requires ScanFirst(m.ledger, job, locked, m.now) && m.ledger.jobs[job].Spent(m.now)
    ensures SpentJobs(Act(m, GiveUp(job, locked))) == SpentJobs(m) - {job}
    ensures Act(m, GiveUp(job, locked)).workers == m.workers && Act(m, GiveUp(job, locked)).now == m.now
    ensures Act(m, GiveUp(job, locked)).ledger.jobs == m.ledger.jobs[job := m.ledger.jobs[job].GivenUp()]
  {
  }

  lemma StillOnlyGivenUp(l: Ledger, l': Ledger, job: JobId, jobs: Jobs, now: int)
    requires OnlyGivenUp(l, l', now) && job in l'.jobs && l'.jobs[job].Spent(now)
    requires jobs == l'.jobs[job := l'.jobs[job].GivenUp()]
    ensures OnlyGivenUp(l, l'.(jobs := jobs), now)
  {
  }

  lemma ClaimedRow(l: Ledger, l': Ledger, id: JobId, now: int, row: Job)
    requires OnlyGivenUp(l, l', now) && id in l.jobs && id in l'.jobs && l'.jobs[id] == l.jobs[id]
    ensures OnlyGivenUp(l, l'.Put(id, row).Put(id, l.jobs[id]), now)
  {
  }

  lemma NothingGivenUp(l: Ledger, now: int)
    ensures OnlyGivenUp(l, l, now)
  {
  }

  lemma AcquireWorks(m: Machine, p: nat, job: JobId, seconds: nat, locked: set<JobId>, lost: bool)
    requires p in m.workers && m.workers[p].phase.Idle? && CanClaim(m, job, seconds, locked)
    ensures var n := Act(m, Acquire(p, job, seconds, locked, lost));
            && p in n.workers && n.workers[p].name == m.workers[p].name
            && n.now == m.now && n.ledger == m.ledger.Put(job,
                m.ledger.jobs[job].ClaimedBy(m.workers[p].name, m.now, seconds))
            && (lost ==> n.workers[p].phase.Idle?)
            && (!lost ==> (n.workers[p].phase.Holding? || n.workers[p].phase.DatabaseGone?) && AtWork(n, p, job))
  {
    hide ScanFirst, RunOrphan;
  }

  /**
   `account_deletion_acquire_lease`: jobs out of attempts are given up on the way, and the
   first of the others in the order of the queue is handed to the worker. Nothing is handed
   out only if nothing waits.
   */
  method AcquireLease(sys: System, p: nat, seconds: nat, locked: set<JobId>, lost: bool) returns (job: Option<JobId>)
    requires sys.Valid() && p in sys.m.workers && sys.m.workers[p].phase.Idle? && 1 <= seconds <= 3600
    modifies sys
    ensures Extends(old(sys.done), sys.done)
    ensures sys.Valid() && p in sys.m.workers && sys.m.workers[p].name == old(sys.m).workers[p].name
    ensures job.None? ==> sys.m.workers[p].phase.Idle?
    ensures job.None? ==> forall k :: k in sys.m.ledger.jobs && k !in locked ==>
              !Waits(sys.m.ledger.jobs[k], sys.m.now)
    ensures job.Some? && !lost ==> var phase := sys.m.workers[p].phase;
              (phase.Holding? || phase.DatabaseGone?) && phase.claim.id == job.value && AtWork(sys.m, p, job.value)
    ensures lost ==> sys.m.workers[p].phase.Idle?
    ensures job.Some? ==> FirstToServe(old(sys.m).ledger, job.value, locked, old(sys.m).now)
    ensures job.Some? ==> HandedOut(old(sys.m), sys.m, job.value, old(sys.m).workers[p].name, seconds)
    ensures job.None? ==> sys.m.now == old(sys.m).now && OnlyGivenUp(old(sys.m).ledger, sys.m.ledger, sys.m.now)
  {
    hide Run, System.Valid, Ledger.Ok, ScanFirst, RunOrphan, Step, OnlyGivenUp, FirstToServe, Extends;
    ExtendsIsTransitive();
    NothingGivenUp(sys.m.ledger, sys.m.now);
    while true
      invariant sys.Valid() && sys.m.workers == old(sys.m).workers && sys.m.now == old(sys.m).now
      invariant Extends(old(sys.done), sys.done)
      invariant OnlyGivenUp(old(sys.m).ledger, sys.m.ledger, sys.m.now)
      decreases |SpentJobs(sys.m)|
    {
      job := FirstWaiting(sys.m.ledger, locked, sys.m.now);
      if job.None? {
        return;
      }
      sys.LedgerOk();
      RowOk(sys.m.ledger, job.value);
      if sys.m.ledger.jobs[job.value].Spent(sys.m.now) {
        GiveUpServes(sys.m, job.value, locked);
        ghost var before, ledger := SpentJobs(sys.m), sys.m.ledger;
        assert job.value in before;
        sys.Do(GiveUp(job.value, locked));
        assert SpentJobs(sys.m) == before - {job.value};
        StillOnlyGivenUp(old(sys.m).ledger, ledger, job.value, sys.m.ledger.jobs, sys.m.now);
      } else {
        FirstInScan(old(sys.m).ledger, sys.m.ledger, job.value, locked, sys.m.now);
        AcquireWorks(sys.m, p, job.value, seconds, locked, lost);
        ClaimedRow(old(sys.m).ledger, sys.m.ledger, job.value, sys.m.now,
                   sys.m.ledger.jobs[job.value].ClaimedBy(sys.m.workers[p].name, sys.m.now, seconds));
        sys.Do(Acquire(p, job.value, seconds, locked, lost));
        return;
      }
    }
  }

  // ----- what the code does to the system, as a function

  /** What the Auth service answers when the call itself does not fail. */
  function AuthAnswer(m: Machine, c: Claim, error: Option<AuthOutcome>): AuthOutcome {
    if error.Some? then error.value else if c.user in m.auth then Deleted else AlreadyAbsent
  }

  /** When the last call of a job is made: after the Auth call and what the others do then. */
  function LastCall(m: Machine, p: nat, c: Claim, plan: Plan): Machine {
    Run(Act(m, AuthStep(p, AuthAnswer(m, c, plan.authError), plan.removed)), plan.beforeLast)
  }

  /** The part of a job after its purge. */
  function SettleSteps(m: Machine, p: nat, c: Claim, plan: Plan): Machine {
    Act(LastCall(m, p, c, plan),
        if plan.authError.Some? then RecordStep(p, plan.recordLost) else FinalizeStep(p, plan.answer.Some?))
  }

  /** When the Auth call of a job is made, if it is. */
  function AuthCall(m: Machine, p: nat, plan: Plan): Machine {
    if p in m.workers && m.workers[p].phase.Holding?
    then Run(Act(Run(m, plan.beforePurge), PurgeStep(p, plan.purgeLost)), plan.beforeAuth)
    else Run(m, plan.beforeAuth)
  }

  function FinalizeResponse(m: Machine, p: nat, c: Claim, plan: Plan): Response
    requires p in m.workers
  {
    if plan.answer.Some? then plan.answer.value
    else MigrationReply(DoFinalize(m, c.id, m.workers[p].name).1, c.id, plan.completedAt, plan.purgedAt)
  }

  /** A job with all that happens around it, from its claim on. */
  function JobSteps(m: Machine, p: nat, plan: Plan): Machine {
    if p !in m.workers || m.workers[p].phase.Idle? then m
    else
      var c := m.workers[p].phase.claim;
      var purged := Act(Run(m, plan.beforePurge), PurgeStep(p, plan.purgeLost));
      if m.workers[p].phase.Holding? && (p !in purged.workers || !purged.workers[p].phase.DatabaseGone?) then purged
      else SettleSteps(AuthCall(m, p, plan), p, c, plan)
  }

  // ----- the steps of a job

  /** The worker's purge goes through: its reply arrives, the lease is its own, the job is the one it claimed. */
  predicate PurgeGoesThrough(m: Machine, p: nat, lost: bool)
    requires p in m.workers && m.workers[p].phase.Holding?
  {
    var w := m.workers[p];
    var c := w.phase.claim;
    !lost && Owns(m, c.id, w.name) && m.ledger.jobs[c.id].fingerprint == c.fingerprint
  }

  /** The purge; `gone` says that the worker may go on to Auth. */
  method PurgeJob(sys: System, p: nat, lost: bool) returns (gone: bool)
    requires sys.Valid() && p in sys.m.workers && sys.m.workers[p].phase.Holding?
    modifies sys
    ensures sys.m == Act(old(sys.m), PurgeStep(p, lost))
    ensures Extends(old(sys.done), sys.done)
    ensures sys.Valid() && p in sys.m.workers && sys.m.workers[p].name == old(sys.m).workers[p].name
    ensures gone ==> sys.m.workers[p].phase == DatabaseGone(old(sys.m).workers[p].phase.claim)
    ensures !gone ==> sys.m.workers[p].phase == Idle
    ensures gone <==> PurgeGoesThrough(old(sys.m), p, lost)
  {
    hide Run, System.Valid, Erase, Extends;
    ExtendsIsTransitive();
    sys.Do(PurgeStep(p, lost));
    gone := sys.m.workers[p].phase.DatabaseGone?;
  }

  /** The hard delete: the service answers by whether it has the user, unless the call fails. */
  method DeleteFromAuth(sys: System, p: nat, error: Option<AuthOutcome>, removed: bool) returns (outcome: AuthOutcome)
    requires sys.Valid() && p in sys.m.workers && sys.m.workers[p].phase.DatabaseGone?
    requires error.Some? ==> error.value.Unavailable? || error.value.Refused?
    modifies sys
    ensures sys.m == Act(old(sys.m),
              AuthStep(p, AuthAnswer(old(sys.m), old(sys.m).workers[p].phase.claim, error), removed))
    ensures Extends(old(sys.done), sys.done)
    ensures sys.Valid() && p in sys.m.workers && sys.m.workers[p].name == old(sys.m).workers[p].name
    ensures error.Some? ==> outcome == error.value
    ensures error.None? ==>
              outcome == if old(sys.m).workers[p].phase.claim.user in old(sys.m).auth then Deleted else AlreadyAbsent
    ensures var c := old(sys.m).workers[p].phase.claim;
            sys.m.workers[p].phase == if error.Some? then AuthFailing(c, outcome) else AuthGone(c)
  {
    hide Run, System.Valid, Extends;
    ExtendsIsTransitive();
    if error.Some? {
      outcome := error.value;
    } else if sys.m.workers[p].phase.claim.user in sys.m.auth {
      outcome := Deleted;
    } else {
      outcome := AlreadyAbsent;
    }
    sys.Do(AuthStep(p, outcome, removed));
  }

  method Record(sys: System, p: nat, lost: bool) returns (reply: RecordReply)
    requires sys.Valid() && p in sys.m.workers && sys.m.workers[p].phase.AuthFailing?
    requires sys.m.workers[p].phase.outcome == Unavailable || sys.m.workers[p].phase.outcome.Refused?
    modifies sys
    ensures sys.m == Act(old(sys.m), RecordStep(p, lost))
    ensures Extends(old(sys.done), sys.done)
    ensures sys.Valid() && p in sys.m.workers && sys.m.workers[p] == Worker(old(sys.m).workers[p].name, Idle)
    ensures var m, w := old(sys.m), old(sys.m).workers[p];
            var id, outcome := w.phase.claim.id, w.phase.outcome;
            && Recorded(m, sys.m, id, w.name, outcome)
            && (reply == RecordLost <==> lost || !Owns(m, id, w.name))
            && (reply == RetryScheduled <==>
                !lost && Owns(m, id, w.name) && outcome == Unavailable && m.ledger.jobs[id].attempts < 100)
  {
    hide Run, System.Valid, Extends, DoRecord;
    ExtendsIsTransitive();
    var w := sys.m.workers[p];
    RecordExactly(sys.m, w.phase.claim.id, w.name, w.phase.outcome);
    reply := DoRecord(sys.m, w.phase.claim.id, w.name, w.phase.outcome).1;
    sys.Do(RecordStep(p, lost));
    if lost {
      reply := RecordLost;
    }
  }

  /** Finalizing, as the parser understands the reply. */
  method FinalizeJob(sys: System, p: nat, plan: Plan) returns (result: FinalizeResult)
    requires sys.Valid() && p in sys.m.workers && sys.m.workers[p].phase.AuthGone?
    modifies sys
    ensures sys.m == Act(old(sys.m), FinalizeStep(p, plan.answer.Some?))
    ensures Extends(old(sys.done), sys.done)
    ensures sys.Valid() && p in sys.m.workers && sys.m.workers[p] == Worker(old(sys.m).workers[p].name, Idle)
    ensures result == ParseFinalize(FinalizeResponse(old(sys.m), p, old(sys.m).workers[p].phase.claim, plan))
    ensures plan.answer.Some? ==> result == ParseFinalize(plan.answer.value)
    ensures plan.answer.None? ==> result != ValidationError
    ensures var w := old(sys.m).workers[p];
            && EndRecorded(old(sys.m), sys.m, w.phase.claim.id, w.name)
            && (plan.answer.None? ==>
                  (result.Completed? <==>
                   && Owns(old(sys.m), w.phase.claim.id, w.name) && IsUuid(w.phase.claim.id)
                   && old(sys.m).ledger.jobs[w.phase.claim.id].purgedAt.Some?))
  {
    hide Run, System.Valid, ParseFinalize, Extends;
    ExtendsIsTransitive();
    var w := sys.m.workers[p];
    var outcome := DoFinalize(sys.m, w.phase.claim.id, w.name).1;
    sys.Do(FinalizeStep(p, plan.answer.Some?));
    var response := if plan.answer.Some? then plan.answer.value
      else MigrationReply(outcome, w.phase.claim.id, plan.completedAt, plan.purgedAt);
    MigrationRepliesAreForeseen(outcome, w.phase.claim.id, plan.completedAt, plan.purgedAt);
    result := ParseFinalize(response);
  }

  /** The worker gets as far as Auth: the purge is done or goes through. */
  ghost predicate GetsToAuth(m: Machine, p: nat, plan: Plan)
    requires p in m.workers && (m.workers[p].phase.Holding? || m.workers[p].phase.DatabaseGone?)
    requires OthersOnly(plan.beforePurge, p)
  {
    OthersKeep(m, plan.beforePurge, p);
    m.workers[p].phase.DatabaseGone? || PurgeGoesThrough(Run(m, plan.beforePurge), p, plan.purgeLost)
  }

  /** The worker gets as far as finalizing. */
  ghost predicate Confirmed(m: Machine, p: nat, plan: Plan)
    requires p in m.workers && (m.workers[p].phase.Holding? || m.workers[p].phase.DatabaseGone?)
    requires OthersOnly(plan.beforePurge, p)
  {
    plan.authError.None? && GetsToAuth(m, p, plan)
  }

  /** The reply to finalizing is an error envelope with a code other than a state conflict. */
  ghost predicate Escapes(plan: Plan) {
    plan.answer.Some? && Unforeseen(plan.answer.value)
  }

  /** A worker that has just claimed a job will not count it. */
  ghost predicate JobEscapes(m: Machine, p: nat, plan: Plan) {
    && p in m.workers && (m.workers[p].phase.Holding? || m.workers[p].phase.DatabaseGone?)
    && OthersOnly(plan.beforePurge, p) && Confirmed(m, p, plan) && Escapes(plan)
  }

  /**
   How the last call of a job leaves row and counters, from the state in which it is made.
   With an error from Auth: a retry below the ceiling of attempts is counted as one, a refusal or
   the ceiling as a failure, a lost lease or reply as such. Without: a finished job is counted
   as completed, any other as a lost lease, unless an unforeseen error answers.
   */
  ghost predicate Settled(at: Machine, end: Machine, id: JobId, name: WorkerId, plan: Plan, was: Tally, now: Tally) {
    var owns := Owns(at, id, name);
    if plan.authError.Some? then
      var again := plan.authError.value == Unavailable && owns && at.ledger.jobs[id].attempts < 100;
      && Recorded(at, end, id, name, plan.authError.value)
      && (if plan.recordLost || !owns then now == was.(leaseLost := was.leaseLost + 1)
          else if again then now == was.(retryScheduled := was.retryScheduled + 1)
          else now == was.(failed := was.failed + 1))
    else
      var done := if plan.answer.Some? then IsCompleted(plan.answer.value)
                  else owns && at.ledger.jobs[id].purgedAt.Some? && IsUuid(id);
      && EndRecorded(at, end, id, name)
      && (if done then now == was.(completed := was.completed + 1)
          else if Escapes(plan) then now == was
          else now == was.(leaseLost := was.leaseLost + 1))
  }

  /**
   `_process_job`: a purge that does not go through is counted as a failure; otherwise row and
   counters are those of the last call. So exactly one counter moves by one, unless an error
   envelope with an unforeseen code answers the finalizing of a confirmed deletion: exactly then
   the error escapes. A malformed reply, like a lost lease or a state conflict, is counted.
   */
  method ProcessJob(sys: System, p: nat, plan: Plan, result: RunResult) returns (escaped: bool)
    requires sys.Valid() && p in sys.m.workers && Honours(plan, p)
    requires sys.m.workers[p].phase.Holding? || sys.m.workers[p].phase.DatabaseGone?
    modifies sys, result
    ensures sys.m == JobSteps(old(sys.m), p, plan)
    ensures Extends(old(sys.done), sys.done)
    ensures sys.Valid() && p in sys.m.workers && sys.m.workers[p] == Worker(old(sys.m).workers[p].name, Idle)
    ensures result.noWork == old(result.noWork)
    ensures var was, w := old(result.Counts()), old(sys.m).workers[p];
            if !GetsToAuth(old(sys.m), p, plan) then result.Counts() == was.(failed := was.failed + 1)
            else
              var at := LastCall(AuthCall(old(sys.m), p, plan), p, w.phase.claim, plan);
              Settled(at, sys.m, w.phase.claim.id, w.name, plan, was, result.Counts())
    ensures result.Total() == old(result.Total()) + if escaped then 0 else 1
    ensures escaped <==> Confirmed(old(sys.m), p, plan) && Escapes(plan)
  {
    hide Run, Act, SettleSteps, LastCall, System.Valid, OthersOnly, PurgeGoesThrough, Settled, Escapes, Extends;
    ExtendsIsTransitive();
    OthersKeep(sys.m, plan.beforePurge, p);
    if sys.m.workers[p].phase.Holding? {
      sys.Others(plan.beforePurge, p);
      var gone := PurgeJob(sys, p, plan.purgeLost);
      if !gone {
        result.failed := result.failed + 1;
        return false;
      }
    }
    sys.Others(plan.beforeAuth, p);
    escaped := DeleteAndSettle(sys, p, plan, result);
  }

  /** The part after the purge: Auth, and then a deferral, a failure or the end of the job. */
  method DeleteAndSettle(sys: System, p: nat, plan: Plan, result: RunResult) returns (escaped: bool)
    requires sys.Valid() && p in sys.m.workers && Honours(plan, p) && sys.m.workers[p].phase.DatabaseGone?
    modifies sys, result
    ensures sys.m == SettleSteps(old(sys.m), p, old(sys.m).workers[p].phase.claim, plan)
    ensures Extends(old(sys.done), sys.done)
    ensures sys.Valid() && p in sys.m.workers && sys.m.workers[p] == Worker(old(sys.m).workers[p].name, Idle)
    ensures result.noWork == old(result.noWork)
    ensures var w := old(sys.m).workers[p];
            Settled(LastCall(old(sys.m), p, w.phase.claim, plan), sys.m, w.phase.claim.id, w.name, plan,
                    old(result.Counts()), result.Counts())
    ensures result.Total() == old(result.Total()) + if escaped then 0 else 1
    ensures escaped <==> plan.authError.None? && Escapes(plan)
  {
    hide Run, Act, System.Valid, OthersOnly, Settled, Escapes, Extends;
    ExtendsIsTransitive();
    var outcome := DeleteFromAuth(sys, p, plan.authError, plan.removed);
    sys.Others(plan.beforeLast, p);
    if plan.authError.Some? {
      RecordAndCount(sys, p, plan, result);
      escaped := false;
    } else {
      escaped := FinalizeAndCount(sys, p, plan, result);
    }
  }

  /** `_record_retry` and `_record_failure`. */
  method RecordAndCount(sys: System, p: nat, plan: Plan, result: RunResult)
    requires sys.Valid() && p in sys.m.workers && sys.m.workers[p].phase.AuthFailing?
    requires plan.authError == Some(sys.m.workers[p].phase.outcome)
    requires plan.authError.value == Unavailable || plan.authError.value.Refused?
    modifies sys, result
    ensures sys.m == Act(old(sys.m), RecordStep(p, plan.recordLost)) && Extends(old(sys.done), sys.done)
    ensures sys.Valid() && p in sys.m.workers && sys.m.workers[p] == Worker(old(sys.m).workers[p].name, Idle)
    ensures result.noWork == old(result.noWork) && result.Total() == old(result.Total()) + 1
    ensures var w := old(sys.m).workers[p];
            Settled(old(sys.m), sys.m, w.phase.claim.id, w.name, plan, old(result.Counts()), result.Counts())
  {
    hide Run, Act, System.Valid, Extends, Recorded;
    var reply := Record(sys, p, plan.recordLost);
    match reply {
      case RecordLost => result.leaseLost := result.leaseLost + 1;
      case RetryScheduled => result.retryScheduled := result.retryScheduled + 1;
      case RecordedFailed(_) => result.failed := result.failed + 1;
    }
  }

  /** The end of `_process_job`. */
  method FinalizeAndCount(sys: System, p: nat, plan: Plan, result: RunResult) returns (escaped: bool)
    requires sys.Valid() && p in sys.m.workers && sys.m.workers[p].phase.AuthGone? && plan.authError.None?
    modifies sys, result
    ensures sys.m == Act(old(sys.m), FinalizeStep(p, plan.answer.Some?)) && Extends(old(sys.done), sys.done)
    ensures sys.Valid() && p in sys.m.workers && sys.m.workers[p] == Worker(old(sys.m).workers[p].name, Idle)
    ensures result.noWork == old(result.noWork)
    ensures result.Total() == old(result.Total()) + if escaped then 0 else 1
    ensures escaped <==> Escapes(plan)
    ensures var w := old(sys.m).workers[p];
            Settled(old(sys.m), sys.m, w.phase.claim.id, w.name, plan, old(result.Counts()), result.Counts())
  {
    hide Run, Act, System.Valid, Extends, EndRecorded, ParseFinalize, FinalizeResponse, Unforeseen, IsCompleted,
         IsError;
    escaped := false;
    var reply := FinalizeJob(sys, p, plan);
    if plan.answer.Some? {
      ParserIsExact(plan.answer.value);
    }
    match reply {
      case ValidationError => escaped := true;
      case Completed(_) => result.completed := result.completed + 1;
      case _ => result.leaseLost := result.leaseLost + 1;
    }
  }

  /**
   A job whose error escapes: one request, one worker, a purge that goes through, a user
   absent from Auth, and a validation error in reply to finalizing. No counter moves.
   */
  method OneEscape() returns (escaped: bool, total: nat)
    ensures escaped && total == 0
  {
    hide Run, Erase, IsError, IsCompleted, JobSteps, Settled, HandedOut, FirstToServe, LastCall, AuthCall;
    var sys := new System(0, Store(map[], map[], map[], {}, map[]), {});
    sys.Do(File("user", "reference", "operation", "fingerprint", "job"));
    sys.Do(Spawn(0, "worker"));
    assert Waits(sys.m.ledger.jobs["job"], sys.m.now);
    var job := AcquireLease(sys, 0, 300, {}, false);
    var answer := ErrorReply("validation_failed", "worker_id is invalid");
    AnEscapingReply();
    var plan := Plan([], [], [], [], false, false, false, None, false, Some(answer), "", "");
    NobodyElse(sys.m);
    var result := new RunResult();
    escaped := ProcessJob(sys, 0, plan, result);
    total := result.Total();
  }

  lemma NobodyElse(m: Machine)
    ensures Run(m, []) == m
  {
  }

  datatype RoundEnd = Normal | AcquireFailed | Escaped

  /**
   `run_once`: at most `maxBatch` jobs; every job claimed is counted once, and a round
   without work found nothing waiting. A job's failure ends the round exactly through an error
   envelope with an unforeseen code in reply to finalizing; `starts` are the runs up to each claim.
   */
  method RunOnce(sys: System, p: nat, seconds: nat, maxBatch: nat, plan: nat -> Plan, locked: nat -> set<JobId>)
    returns (result: RunResult, end: RoundEnd, claimed: nat, ghost starts: seq<seq<Action>>)
    requires sys.Valid() && p in sys.m.workers && sys.m.workers[p].phase.Idle?
    requires 1 <= seconds <= 3600 && 1 <= maxBatch <= 1000
    requires forall n :: Honours(plan(n), p)
    modifies sys
    ensures fresh(result) && sys.Valid() && p in sys.m.workers && sys.m.workers[p].phase.Idle?
    ensures claimed <= maxBatch
    ensures result.Total() == if end.Escaped? then claimed - 1 else claimed
    ensures |starts| == claimed && forall n :: 0 <= n < claimed ==>
              Extends(old(sys.done), starts[n]) && Extends(starts[n], sys.done)
    ensures end.Escaped? <==> exists n :: 0 <= n < claimed && JobEscapes(Run(sys.first, starts[n]), p, plan(n))
    ensures end.Escaped? ==> claimed > 0 && Escapes(plan(claimed - 1))
    ensures end.AcquireFailed? <==> !end.Escaped? && claimed < maxBatch && plan(claimed).acquireLost
    ensures end.Normal? && claimed < maxBatch ==>
              forall k :: k in sys.m.ledger.jobs && k !in locked(claimed) ==> !Waits(sys.m.ledger.jobs[k], sys.m.now)
    ensures result.noWork ==> forall k :: k in sys.m.ledger.jobs && k !in locked(0) ==>
              !Waits(sys.m.ledger.jobs[k], sys.m.now)
    ensures end.Normal? ==> (result.noWork <==> claimed == 0)
    ensures !end.Normal? ==> !result.noWork
  {
    hide Run, System.Valid, RunResult.Counts, Honours, Ledger.Ok, AtWork, FirstToServe, OnlyGivenUp, HandedOut,
         JobSteps, Settled, Confirmed, GetsToAuth, LastCall, AuthCall, Waits, Escapes, IsError, IsCompleted, JobEscapes,
         Extends;
    ExtendsIsTransitive();
    result := new RunResult();
    claimed, starts := 0, [];
    end := Normal;
    while claimed < maxBatch
      invariant fresh(result) && sys.Valid() && p in sys.m.workers && sys.m.workers[p].phase.Idle?
      invariant claimed <= maxBatch && result.Total() == claimed && !result.noWork
      invariant Extends(old(sys.done), sys.done) && |starts| == claimed
      invariant forall n :: 0 <= n < claimed ==> Extends(old(sys.done), starts[n]) && Extends(starts[n], sys.done)
      invariant forall n :: 0 <= n < claimed ==> !JobEscapes(Run(sys.first, starts[n]), p, plan(n))
    {
      var step := plan(claimed);
      OthersOf(step, p);
      sys.Others(step.beforeAcquire, p);
      var job := AcquireLease(sys, p, seconds, locked(claimed), step.acquireLost);
      if step.acquireLost {
        end := AcquireFailed;
        return;
      }
      if job.None? {
        break;
      }
      claimed, starts := claimed + 1, starts + [sys.done];
      sys.IsRun();
      EscapesMeans(sys.m, p, step);
      var escaped := ProcessJob(sys, p, step, result);
      if escaped {
        assert JobEscapes(Run(sys.first, starts[claimed - 1]), p, plan(claimed - 1));
        end := Escaped;
        return;
      }
    }
    if claimed == 0 {
      result.noWork := true;
    }
  }

  lemma EscapesMeans(m: Machine, p: nat, plan: Plan)
    requires p in m.workers && (m.workers[p].phase.Holding? || m.workers[p].phase.DatabaseGone?) && Honours(plan, p)
    ensures OthersOnly(plan.beforePurge, p)
    ensures JobEscapes(m, p, plan) <==> Confirmed(m, p, plan) && Escapes(plan)
  {
    hide Confirmed, Escapes;
  }

  lemma OthersOf(plan: Plan, p: nat)
    requires Honours(plan, p)
    ensures OthersOnly(plan.beforeAcquire, p)
  {
  }
}
