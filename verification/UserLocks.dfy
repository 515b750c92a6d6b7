/**
 The per-user lock with its reference count. The two sections that touch the dictionary
 are methods of a class; around them, tasks are a state machine in which every await may
 be cancelled, the one inside the cleanup included. An action that does not apply
 changes nothing, so every sequence of actions is a run.
 */
module UserLocks {
  type User = string
  type LockId = nat

  datatype Entry = Entry(lock: LockId, count: int)

  datatype Table = Table(locks: map<User, Entry>, next: LockId) {
    /** Step 1: find or create the user's lock, and count the caller in. */
    function Registered(u: User): (Table, LockId) {
      var t := if u in locks then this else Table(locks[u := Entry(next, 0)], next + 1);
      var e := t.locks[u];
      (t.(locks := t.locks[u := e.(count := e.count + 1)]), e.lock)
    }

    /** Step 3: count the caller out, and drop the entry once nobody is left. */
    function Cleaned(u: User): Table {
      if u !in locks then this
      else if locks[u].count - 1 <= 0 then this.(locks := locks - {u})
      else this.(locks := locks[u := locks[u].(count := locks[u].count - 1)])
    }
  }

  /** The dictionary as it is updated in place. */
  class UserLockManager {
    var locks: map<User, Entry>
    var next: LockId

    function Contents(): Table
      reads this
    {
      Table(locks, next)
    }

    constructor ()
      ensures Contents() == Table(map[], 0)
    {
      locks, next := map[], 0;
    }

    method Register(u: User) returns (lock: LockId)
      modifies this
      ensures (Contents(), lock) == old(Contents()).Registered(u)
      ensures u in locks && locks[u].lock == lock
      ensures u in old(locks) ==> locks[u] == Entry(old(locks)[u].lock, old(locks)[u].count + 1) && next == old(next)
      ensures u !in old(locks) ==> locks[u] == Entry(old(next), 1) && next == old(next) + 1
      ensures locks - {u} == old(locks) - {u}
    {
      if u !in locks {
        locks := locks[u := Entry(next, 0)];
        next := next + 1;
      }
      locks := locks[u := locks[u].(count := locks[u].count + 1)];
      lock := locks[u].lock;
    }

    method Cleanup(u: User)
      modifies this
      ensures Contents() == old(Contents()).Cleaned(u)
      ensures u in locks <==> u in old(locks) && old(locks)[u].count > 1
      ensures u in locks ==> locks[u] == Entry(old(locks)[u].lock, old(locks)[u].count - 1)
      ensures locks - {u} == old(locks) - {u} && next == old(next)
    {
      if u in locks {
        locks := locks[u := locks[u].(count := locks[u].count - 1)];
        if locks[u].count <= 0 {
          locks := locks - {u};
        }
      }
      assert u in old(locks) && old(locks)[u].count - 1 <= 0 ==> locks == old(locks) - {u};
    }
  }

  // ----- tasks

  datatype Phase =
    | Entering
    | Waiting(lock: LockId)
    | Holding(lock: LockId)
    | Leaving(lock: LockId)
    | Leaked(lock: LockId)
    | Done

  datatype Task = Task(user: User, phase: Phase)

  /** `held` says which task has each lock that is taken. */
  datatype Machine = Machine(table: Table, held: map<LockId, nat>, tasks: map<nat, Task>)

  datatype Action =
    | Start(t: nat, user: User)
    | Register(t: nat)
    | Grant(t: nat)
    | Release(t: nat)
    | CleanUp(t: nat)
    | Cancel(t: nat)

  function Move(m: Machine, t: nat, phase: Phase): Machine
    requires t in m.tasks
  {
    m.(tasks := m.tasks[t := m.tasks[t].(phase := phase)])
  }

  /** A task leaves the critical section, by returning or by an exception. */
  function Leave(m: Machine, t: nat): Machine
    requires t in m.tasks && m.tasks[t].phase.Holding?
  {
    var lock := m.tasks[t].phase.lock;
    Move(m.(held := m.held - {lock}), t, Leaving(lock))
  }

  function Cancelled(m: Machine, t: nat): Machine
    requires t in m.tasks
  {
    match m.tasks[t].phase
    case Entering => Move(m, t, Done)
    case Waiting(lock) => Move(m, t, Leaving(lock))
    case Holding(_) => Leave(m, t)
    case Leaving(lock) => Move(m, t, Leaked(lock))
    case _ => m
  }

  function Advance(m: Machine, t: nat, a: Action): Machine
    requires t in m.tasks
  {
    var task := m.tasks[t];
    match a
    case Register(_) =>
      if task.phase.Entering? then
        var (table, lock) := m.table.Registered(task.user);
        Move(m.(table := table), t, Waiting(lock))
      else m
    case Grant(_) =>
      if task.phase.Waiting? && task.phase.lock !in m.held
      then Move(m.(held := m.held[task.phase.lock := t]), t, Holding(task.phase.lock)) else m
    case Release(_) => if task.phase.Holding? then Leave(m, t) else m
    case CleanUp(_) =>
      if task.phase.Leaving? then Move(m.(table := m.table.Cleaned(task.user)), t, Done) else m
    case Cancel(_) => Cancelled(m, t)
    case _ => m
  }

  function Act(m: Machine, a: Action): Machine {
    if a.Start? then
      if a.t in m.tasks then m else m.(tasks := m.tasks[a.t := Task(a.user, Entering)])
    else if a.t in m.tasks then Advance(m, a.t, a)
    else m
  }

  function Run(actions: seq<Action>): Machine {
    if actions == [] then Machine(Table(map[], 0), map[], map[])
    else Act(Run(actions[..|actions| - 1]), actions[|actions| - 1])
  }

  // ----- the invariant

  /** A task that has been counted in and not yet counted out. */
  predicate Counted(p: Phase) {
    p.Waiting? || p.Holding? || p.Leaving? || p.Leaked?
  }

  function Participants(tasks: map<nat, Task>, u: User): set<nat> {
    set t | t in tasks && tasks[t].user == u && Counted(tasks[t].phase)
  }

  /** The count is exact, and an entry exists exactly while someone is counted in. */
  ghost predicate CountExact(m: Machine, u: User) {
    && (u in m.table.locks <==> Participants(m.tasks, u) != {})
    && (u in m.table.locks ==> m.table.locks[u].count == |Participants(m.tasks, u)|)
  }

  ghost predicate AllExact(m: Machine) {
    forall u :: CountExact(m, u)
  }

  /** A counted task refers to the lock object in its user's entry. */
  ghost predicate AllTied(m: Machine) {
    forall t :: t in m.tasks && Counted(m.tasks[t].phase) ==>
      m.tasks[t].user in m.table.locks && m.table.locks[m.tasks[t].user].lock == m.tasks[t].phase.lock
  }

  /** Who holds a lock and which locks are taken is the same information. */
  ghost predicate Owned(held: map<LockId, nat>, tasks: map<nat, Task>) {
    && (forall t :: t in tasks && tasks[t].phase.Holding? ==>
        tasks[t].phase.lock in held && held[tasks[t].phase.lock] == t)
    && (forall l :: l in held ==> held[l] in tasks && tasks[held[l]].phase == Holding(l))
  }

  ghost predicate Sound(m: Machine) {
    AllExact(m) && AllTied(m) && Owned(m.held, m.tasks)
  }

  /** A task that stays counted, or stays uncounted, leaves every count as it is. */
  lemma SameParticipants(m: Machine, t: nat, phase: Phase, u: User)
    requires t in m.tasks && (Counted(m.tasks[t].phase) <==> Counted(phase))
    ensures Participants(Move(m, t, phase).tasks, u) == Participants(m.tasks, u)
  {
  }

  lemma MovePhase(m: Machine, held: map<LockId, nat>, t: nat, phase: Phase)
    requires Sound(m) && t in m.tasks && (Counted(m.tasks[t].phase) <==> Counted(phase))
    requires Counted(phase) ==> phase.lock == m.tasks[t].phase.lock
    requires Owned(held, Move(m, t, phase).tasks)
    ensures Sound(Move(m.(held := held), t, phase))
  {
    hide Owned, Participants;
    var n := Move(m.(held := held), t, phase);
    forall u ensures CountExact(n, u) {
      assert CountExact(m, u);
      SameParticipants(m, t, phase, u);
    }
  }

  lemma RegisterKeepsSound(m: Machine, t: nat)
    requires Sound(m) && t in m.tasks && m.tasks[t].phase.Entering?
    ensures Sound(Advance(m, t, Register(t)))
  {
    hide AllExact, AllTied;
    RegisterKeepsCounts(m, t);
    RegisterKeepsTies(m, t);
  }

  lemma RegisterKeepsTies(m: Machine, t: nat)
    requires AllTied(m) && t in m.tasks && m.tasks[t].phase.Entering?
    ensures AllTied(Advance(m, t, Register(t)))
  {
  }

  lemma RegisterKeepsCounts(m: Machine, t: nat)
    requires AllExact(m) && t in m.tasks && m.tasks[t].phase.Entering?
    ensures AllExact(Advance(m, t, Register(t)))
  {
    hide Participants;
    var n, u := Advance(m, t, Register(t)), m.tasks[t].user;
    forall v ensures CountExact(n, v) {
      assert CountExact(m, v);
      JoinParticipants(m.tasks, t, n.tasks[t].phase, v);
    }
  }

  lemma JoinParticipants(tasks: map<nat, Task>, t: nat, phase: Phase, u: User)
    requires t in tasks && !Counted(tasks[t].phase) && Counted(phase)
    ensures Participants(tasks[t := tasks[t].(phase := phase)], u) ==
              Participants(tasks, u) + if tasks[t].user == u then {t} else {}
    ensures t !in Participants(tasks, u)
  {
  }

  lemma LeaveParticipants(tasks: map<nat, Task>, t: nat, phase: Phase, u: User)
    requires t in tasks && Counted(tasks[t].phase) && !Counted(phase)
    ensures Participants(tasks[t := tasks[t].(phase := phase)], u) == Participants(tasks, u) - {t}
    ensures t in Participants(tasks, u) <==> tasks[t].user == u
  {
  }

  lemma CleanUpKeepsSound(m: Machine, t: nat)
    requires Sound(m) && t in m.tasks && m.tasks[t].phase.Leaving?
    ensures Sound(Advance(m, t, CleanUp(t)))
  {
    hide AllExact, AllTied;
    CleanUpKeepsCounts(m, t);
    CleanUpKeepsTies(m, t);
  }

  lemma CleanUpKeepsCounts(m: Machine, t: nat)
    requires AllExact(m) && t in m.tasks && m.tasks[t].phase.Leaving?
    ensures AllExact(Advance(m, t, CleanUp(t)))
  {
    hide Participants;
    var n, u := Advance(m, t, CleanUp(t)), m.tasks[t].user;
    forall v ensures CountExact(n, v) {
      assert CountExact(m, v);
      LeaveParticipants(m.tasks, t, Done, v);
      if v == u {
        assert |Participants(n.tasks, u)| == |Participants(m.tasks, u)| - 1;
      } else {
        assert Participants(n.tasks, v) == Participants(m.tasks, v);
      }
    }
  }

  lemma CleanUpKeepsTies(m: Machine, t: nat)
    requires AllTied(m) && AllExact(m) && t in m.tasks && m.tasks[t].phase.Leaving?
    ensures AllTied(Advance(m, t, CleanUp(t)))
  {
    hide AllExact;
    CleanUpKeepsCounts(m, t);
    var n := Advance(m, t, CleanUp(t));
    forall s | s in n.tasks && Counted(n.tasks[s].phase)
      ensures n.tasks[s].user in n.table.locks && n.table.locks[n.tasks[s].user].lock == n.tasks[s].phase.lock
    {
      EntryOfParticipant(n, s);
    }
  }

  lemma EntryOfParticipant(m: Machine, t: nat)
    requires AllExact(m) && t in m.tasks && Counted(m.tasks[t].phase)
    ensures m.tasks[t].user in m.table.locks
  {
    assert t in Participants(m.tasks, m.tasks[t].user);
    assert CountExact(m, m.tasks[t].user);
  }

  lemma LeaveKeepsSound(m: Machine, t: nat)
    requires Sound(m) && t in m.tasks && m.tasks[t].phase.Holding?
    ensures Sound(Leave(m, t))
  {
    var lock := m.tasks[t].phase.lock;
    MovePhase(m, m.held - {lock}, t, Leaving(lock));
  }

  lemma StartKeepsSound(m: Machine, t: nat, u: User)
    requires Sound(m) && t !in m.tasks
    ensures Sound(m.(tasks := m.tasks[t := Task(u, Entering)]))
  {
    var n := m.(tasks := m.tasks[t := Task(u, Entering)]);
    forall v ensures CountExact(n, v) {
      assert CountExact(m, v);
      assert Participants(n.tasks, v) == Participants(m.tasks, v);
    }
  }

  lemma ActKeepsSound(m: Machine, a: Action)
    requires Sound(m)
    ensures Sound(Act(m, a))
  {
    hide Sound, Table.Registered, Table.Cleaned;
    if a.Start? {
      if a.t !in m.tasks {
        StartKeepsSound(m, a.t, a.user);
      }
    } else if a.t in m.tasks {
      AdvanceKeepsSound(m, a.t, a);
    }
  }

  lemma AdvanceKeepsSound(m: Machine, t: nat, a: Action)
    requires Sound(m) && t in m.tasks
    ensures Sound(Advance(m, t, a))
  {
    hide AllExact, AllTied, Table.Registered, Table.Cleaned;
    var phase := m.tasks[t].phase;
    if a.Register? && phase.Entering? {
      RegisterKeepsSound(m, t);
    } else if a.CleanUp? && phase.Leaving? {
      CleanUpKeepsSound(m, t);
    } else if (a.Release? || a.Cancel?) && phase.Holding? {
      LeaveKeepsSound(m, t);
    } else if a.Grant? && phase.Waiting? && phase.lock !in m.held {
      MovePhase(m, m.held[phase.lock := t], t, Holding(phase.lock));
    } else if a.Cancel? && !phase.Done? && !phase.Leaked? {
      MovePhase(m, m.held, t, Cancelled(m, t).tasks[t].phase);
    }
  }

  lemma {:induction false} RunsAreSound(actions: seq<Action>)
    ensures Sound(Run(actions))
  {
    hide Act;
    if actions != [] {
      RunsAreSound(actions[..|actions| - 1]);
      ActKeepsSound(Run(actions[..|actions| - 1]), actions[|actions| - 1]);
    }
  }

  // ----- what follows

  /** In every run at most one task per user is in the critical section. */
  lemma MutualExclusion(actions: seq<Action>, s: nat, t: nat)
    requires var m := Run(actions);
             && s in m.tasks && m.tasks[s].phase.Holding? && t in m.tasks && m.tasks[t].phase.Holding?
             && m.tasks[s].user == m.tasks[t].user
    ensures s == t
  {
    hide Run;
    RunsAreSound(actions);
  }

  /** Whoever holds or waits for a user's lock does so on the lock object that newcomers are given. */
  lemma EntryStays(actions: seq<Action>, t: nat)
    requires var m := Run(actions); t in m.tasks && (m.tasks[t].phase.Waiting? || m.tasks[t].phase.Holding?)
    ensures var m := Run(actions); var u := m.tasks[t].user;
            && u in m.table.locks && m.table.locks[u].lock == m.tasks[t].phase.lock
            && m.table.Registered(u).1 == m.tasks[t].phase.lock
  {
    hide Run;
    RunsAreSound(actions);
  }

  function LeakedBy(tasks: map<nat, Task>, u: User): set<nat> {
    set t | t in tasks && tasks[t].user == u && tasks[t].phase.Leaked?
  }

  function LiveOf(tasks: map<nat, Task>, u: User): set<nat> {
    set t | t in tasks && tasks[t].user == u && Counted(tasks[t].phase) && !tasks[t].phase.Leaked?
  }

  /** The count is the live participants plus the cleanups that were cancelled. */
  lemma CountIsLivePlusLeaked(actions: seq<Action>, u: User)
    ensures var m := Run(actions);
            (if u in m.table.locks then m.table.locks[u].count else 0) == |LiveOf(m.tasks, u)| + |LeakedBy(m.tasks, u)|
  {
    hide Run;
    RunsAreSound(actions);
    var m := Run(actions);
    assert CountExact(m, u);
    assert Participants(m.tasks, u) == LiveOf(m.tasks, u) + LeakedBy(m.tasks, u);
    assert LiveOf(m.tasks, u) !! LeakedBy(m.tasks, u);
  }

  /** Once every task is over, the dictionary is empty exactly when no cleanup was cancelled. */
  lemma EmptyAtQuiescence(actions: seq<Action>)
    requires var m := Run(actions);
             forall t :: t in m.tasks ==>
                 m.tasks[t].phase.Entering? || m.tasks[t].phase.Done? || m.tasks[t].phase.Leaked?
    ensures var m := Run(actions); m.table.locks == map[] <==> forall t :: t in m.tasks ==> !m.tasks[t].phase.Leaked?
  {
    hide Run;
    RunsAreSound(actions);
    var m := Run(actions);
    if t :| t in m.tasks && m.tasks[t].phase.Leaked? {
      assert m.tasks[t].user in m.table.locks;
    } else {
      forall u ensures u !in m.table.locks {
        assert CountExact(m, u);
        assert Participants(m.tasks, u) == {};
      }
    }
  }

  /** Every entry has a lock object of its own. */
  ghost predicate Separate(table: Table) {
    && (forall u :: u in table.locks ==> table.locks[u].lock < table.next)
    && (forall u, v :: u in table.locks && v in table.locks && u != v ==> table.locks[u].lock != table.locks[v].lock)
  }

  lemma ActKeepsSeparate(m: Machine, a: Action)
    requires Separate(m.table)
    ensures Separate(Act(m, a).table)
  {
  }

  lemma {:induction false} RunsAreSeparate(actions: seq<Action>)
    ensures Separate(Run(actions).table)
  {
    hide Act;
    if actions != [] {
      RunsAreSeparate(actions[..|actions| - 1]);
      ActKeepsSeparate(Run(actions[..|actions| - 1]), actions[|actions| - 1]);
    }
  }

  /** A task is only ever kept waiting by a task of the same user. */
  lemma UsersDoNotBlockEachOther(actions: seq<Action>, t: nat)
    requires var m := Run(actions); t in m.tasks && m.tasks[t].phase.Waiting?
    requires Act(Run(actions), Grant(t)) == Run(actions)
    ensures var m := Run(actions); var l := m.tasks[t].phase.lock;
            && l in m.held && m.held[l] in m.tasks && m.tasks[m.held[l]].phase.Holding?
            && m.tasks[m.held[l]].user == m.tasks[t].user
  {
    hide Run;
    RunsAreSound(actions);
    RunsAreSeparate(actions);
    var m := Run(actions);
    if m.tasks[t].phase.lock !in m.held {
      assert false;
    }
  }

  /**
   The life of a task in every run: it is registered with its user's lock, gets it once it is free,
   frees it by leaving, and is counted out; cancelled before it was counted in it is gone at once,
   later it still has to leave, and in its cleanup it leaks.
   */
  lemma LifeOfATask(actions: seq<Action>, t: nat)
    requires t in Run(actions).tasks
    ensures var m := Run(actions);
            var task := m.tasks[t];
            var cancelled := Act(m, Cancel(t));
            match task.phase
            case Entering =>
              && Act(m, Register(t)).tasks[t] == Task(task.user, Waiting(m.table.Registered(task.user).1))
              && cancelled == Move(m, t, Done)
            case Waiting(lock) =>
              && (lock !in m.held ==>
                    && Act(m, Grant(t)).tasks[t] == Task(task.user, Holding(lock))
                    && Act(m, Grant(t)).held == m.held[lock := t])
              && cancelled == Move(m, t, Leaving(lock))
            case Holding(lock) =>
              && lock in m.held && m.held[lock] == t && cancelled == Act(m, Release(t))
              && cancelled.tasks[t] == Task(task.user, Leaving(lock)) && cancelled.held == m.held - {lock}
            case Leaving(lock) =>
              && Act(m, CleanUp(t)).tasks[t] == Task(task.user, Done) && task.user in m.table.locks
              && (task.user in Act(m, CleanUp(t)).table.locks <==> m.table.locks[task.user].count > 1)
              && cancelled == Move(m, t, Leaked(lock))
            case Leaked(_) => cancelled == m
            case Done => cancelled == m
  {
    hide AllExact, Run;
    RunsAreSound(actions);
    var m := Run(actions);
    if m.tasks[t].phase.Leaving? {
      assert m.tasks[t].user in m.table.locks;
    }
  }
}
