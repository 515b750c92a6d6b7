/**
 `ProcessTurn.execute` as code over the shared system: the bounded retry loop around one
 load, compute and commit. At every await the rest of the system may do anything; the
 schedule of an attempt says what it does and how the attempt's own effects turn out.
 */
module ProcessTurn {
  import opened Options
  import opened TurnStore
  import opened TurnProtocol

  datatype Fate = Delivered | Lost | Abandoned

  /** What happens around one attempt: the others' actions before each step, and the outcomes. */
  datatype Schedule = Schedule(
    beforeLoad: seq<Action>, beforeCompute: seq<Action>, beforeCommit: seq<Action>,
    beforeReply: seq<Action>, failure: Option<Error>, draw: Draw, now: int, fate: Fate, late: bool)

  predicate Touches(a: Action, id: nat) {
    !a.Operate? && a.id == id
  }

  predicate OthersOnly(actions: seq<Action>, id: nat) {
    forall i :: 0 <= i < |actions| ==> !Touches(actions[i], id)
  }

  predicate Honours(p: Schedule, id: nat) {
    && OthersOnly(p.beforeLoad, id) && OthersOnly(p.beforeCompute, id)
    && OthersOnly(p.beforeCommit, id) && OthersOnly(p.beforeReply, id)
    && (p.failure.Some? ==> !p.failure.value.Conflict?)
  }

  lemma {:induction false} RunConcat(d: Domain, m: Machine, a: seq<Action>, b: seq<Action>)
    ensures Run(d, m, a + b) == Run(d, Run(d, m, a), b)
    decreases |b|
  {
    if b == [] {
      assert a + b == a;
    } else {
      var init := b[..|b| - 1];
      RunConcat(d, m, a, init);
      assert (a + b)[..|a + b| - 1] == a + init;
    }
  }

  /** The others cannot touch an execution's own record. */
  lemma {:induction false} OthersKeep(d: Domain, m: Machine, actions: seq<Action>, id: nat)
    requires id in m.running && OthersOnly(actions, id)
    ensures id in Run(d, m, actions).running && Run(d, m, actions).running[id] == m.running[id]
    decreases |actions|
  {
    hide CommitTurn;
    if actions != [] {
      OthersKeep(d, m, actions[..|actions| - 1], id);
    }
  }

  // ----- what the others do, whatever this execution does

  /** The system without one execution. */
  function Off(m: Machine, id: nat): Machine {
    m.(running := m.running - {id})
  }

  lemma ActOff(d: Domain, m: Machine, a: Action, id: nat)
    requires !Touches(a, id)
    ensures Off(Act(d, m, a), id) == Act(d, Off(m, id), a)
  {
    hide CommitTurn, Writes, Privacy, Replay, BuildCall;
    assert Off(Act(d, m, a), id).running == Act(d, Off(m, id), a).running;
  }

  /** The others act on the tables as if the execution were not there. */
  lemma {:induction false} RunOff(d: Domain, m: Machine, actions: seq<Action>, id: nat)
    requires OthersOnly(actions, id)
    ensures Off(Run(d, m, actions), id) == Run(d, Off(m, id), actions)
    decreases |actions|
  {
    hide Act, Off;
    if actions != [] {
      var n := |actions| - 1;
      RunOff(d, m, actions[..n], id);
      ActOff(d, Run(d, m, actions[..n]), actions[n], id);
    }
  }

  /** All that the others do during an attempt that gets its reply. */
  function Around(p: Schedule): seq<Action> {
    p.beforeLoad + p.beforeCompute + p.beforeCommit + p.beforeReply
  }

  /**
   What the commit of an attempt answers, the others having done `before` when the attempt
   begins: `commit_turn` on the tables as they are then, called with what the profile was when
   it was loaded. The others run without this execution, which has written nothing.
   */
  function Answer(d: Domain, m: Machine, input: Input, before: seq<Action>, p: Schedule): Outcome {
    var loaded := Run(d, m, before + p.beforeLoad).store;
    var present := Run(d, m, before + p.beforeLoad + p.beforeCompute + p.beforeCommit).store;
    var call := BuildCall(d, input, Lookup(loaded.profiles, input.user), p.draw);
    CommitTurn(present, call, d.hash(call), p.now).1
  }

  class System {
    const domain: Domain
    var m: Machine
    /** Everything done so far. */
    ghost var done: seq<Action>
    ghost const first: Machine

    ghost predicate Valid()
      reads this
    {
      m == Run(domain, first, done)
    }

    constructor (d: Domain, start: Machine)
      ensures domain == d && m == start && first == start && Valid()
    {
      domain, m, done, first := d, start, [], start;
    }

    /** The rest of the system acts. */
    method Others(actions: seq<Action>, id: nat)
      requires Valid() && id in m.running && OthersOnly(actions, id)
      modifies this
      ensures Valid() && done == old(done) + actions
      ensures m == Run(domain, old(m), actions)
      ensures id in m.running && m.running[id] == old(m.running[id])
      ensures Off(m, id) == Run(domain, Off(old(m), id), actions)
    {
      hide Run;
      OthersKeep(domain, m, actions, id);
      RunOff(domain, m, actions, id);
      RunConcat(domain, first, done, actions);
      m := Run(domain, m, actions);
      done := done + actions;
    }

    /** The execution takes a step of its own. */
    method Do(a: Action)
      requires Valid()
      modifies this
      ensures Valid() && done == old(done) + [a]
      ensures m == Act(domain, old(m), a)
    {
      hide Act;
      assert (done + [a])[..|done|] == done;
      m := Act(domain, m, a);
      done := done + [a];
    }
  }

  datatype Attempt = Turned(turn: CommittedTurn) | Mismatched(outcome: Outcome) | Threw(error: Error)

  /** An execution that is about to begin an attempt. */
  ghost predicate AtAttempt(e: Execution, input: Input, attempt: nat) {
    && e.input == input && e.attempt == attempt && e.phase == Ready && e.writes == 0
    && e.calls + 1 == attempt && !input.replay
  }

  /** What an attempt leaves in its record. */
  ghost predicate Settled(e: Execution, input: Input, attempt: nat, r: Attempt, late: bool) {
    && e.input == input && e.calls <= attempt
    && match r {
         case Turned(turn) => e.phase == Returned(turn)
         case Mismatched(outcome) =>
           && outcome.RevisionMismatch?
           && e == Received(Execution(input, attempt, Replied(outcome), attempt, 0), late)
         case Threw(error) => e.phase == Raised(error)
       }
  }

  // ----- what the code does to the system, as a function

  /** From the moment the commit is under way. */
  function CommitSteps(d: Domain, m: Machine, id: nat, p: Schedule): Machine {
    if p.fate.Abandoned? then Act(d, Act(d, m, GiveUp(id)), Commit(id, p.now))
    else
      var replied := Run(d, Act(d, m, Commit(id, p.now)), p.beforeReply);
      Act(d, replied, if p.fate.Lost? then LoseReply(id) else Receive(id, p.late))
  }

  /** One attempt with all that happens around it. */
  function AttemptSteps(d: Domain, m: Machine, id: nat, p: Schedule): Machine {
    var loaded := Run(d, Act(d, Run(d, m, p.beforeLoad), Load(id)), p.beforeCompute);
    if p.failure.Some? then Act(d, loaded, Fail(id, p.failure.value))
    else
      var sent := Act(d, Act(d, loaded, Compute(id, p.draw)), Send(id));
      CommitSteps(d, Run(d, sent, p.beforeCommit), id, p)
  }

  predicate IsReady(m: Machine, id: nat) {
    id in m.running && m.running[id].phase.Ready?
  }

  /** The whole execution: a second attempt exactly if the first left it ready for one. */
  function TurnSteps(d: Domain, m: Machine, id: nat, input: Input, plan: nat -> Schedule): Machine {
    var first := AttemptSteps(d, Act(d, m, Start(id, input)), id, plan(1));
    if IsReady(first, id) then AttemptSteps(d, first, id, plan(2)) else first
  }

  /** `_state_repository.load`: profile and revision are read together. */
  method LoadState(sys: System, id: nat) returns (seen: Option<Profile>)
    requires sys.Valid() && id in sys.m.running
    requires sys.m.running[id].phase.Ready? && !sys.m.running[id].input.replay
    modifies sys
    ensures sys.Valid() && sys.done == old(sys.done) + [Load(id)]
    ensures seen == Lookup(old(sys.m).store.profiles, old(sys.m).running[id].input.user)
    ensures sys.m == Act(sys.domain, old(sys.m), Load(id)) && sys.m.store == old(sys.m).store
    ensures id in sys.m.running && sys.m.running[id] == old(sys.m).running[id].(phase := Loaded(seen))
    ensures Off(sys.m, id) == Off(old(sys.m), id)
  {
    hide Run, System.Valid;
    seen := Lookup(sys.m.store.profiles, sys.m.running[id].input.user);
    sys.Do(Load(id));
  }

  method SendCommit(sys: System, id: nat, seen: Option<Profile>, draw: Draw)
    requires sys.Valid() && id in sys.m.running && sys.m.running[id].phase == Loaded(seen)
    modifies sys
    ensures sys.Valid() && sys.done == old(sys.done) + [Compute(id, draw), Send(id)]
    ensures sys.m == Act(sys.domain, Act(sys.domain, old(sys.m), Compute(id, draw)), Send(id))
    ensures id in sys.m.running
    ensures sys.m.running[id] ==
              old(sys.m).running[id].(phase := Sent(seen, draw, true), calls := old(sys.m).running[id].calls + 1)
    ensures Off(sys.m, id) == Off(old(sys.m), id)
  {
    hide Run, System.Valid;
    sys.Do(Compute(id, draw));
    sys.Do(Send(id));
  }

  /** `_commit_repository.commit`: one call, sent for exactly what was loaded. */
  method CommitCall(sys: System, id: nat, input: Input, seen: Option<Profile>, draw: Draw, now: int)
      returns (outcome: Outcome)
    requires sys.Valid() && id in sys.m.running && sys.m.running[id].phase == Sent(seen, draw, true)
    requires sys.m.running[id].input == input
    modifies sys
    ensures sys.Valid() && sys.done == old(sys.done) + [Commit(id, now)]
    ensures sys.m == Act(sys.domain, old(sys.m), Commit(id, now))
    ensures var call := BuildCall(sys.domain, input, seen, draw);
            CommitTurn(old(sys.m).store, call, sys.domain.hash(call), now) == (sys.m.store, outcome)
    ensures id in sys.m.running
    ensures var e := old(sys.m).running[id];
            && sys.m.running[id] == e.(phase := Replied(outcome), writes := sys.m.running[id].writes)
            && (!outcome.Committed? ==> sys.m.running[id].writes == e.writes && Off(sys.m, id) == Off(old(sys.m), id))
  {
    hide Run, System.Valid, CommitTurn, BuildCall;
    var call := BuildCall(sys.domain, input, seen, draw);
    CommitIsAtomic(sys.m.store, call, sys.domain.hash(call), now);
    outcome := CommitTurn(sys.m.store, call, sys.domain.hash(call), now).1;
    sys.Do(Commit(id, now));
  }

  /** The client stops waiting; the tables may still execute the call. */
  method Abandon(sys: System, id: nat, now: int)
    requires sys.Valid() && id in sys.m.running && sys.m.running[id].phase.Sent?
    modifies sys
    ensures sys.Valid() && sys.done == old(sys.done) + [GiveUp(id), Commit(id, now)]
    ensures sys.m == Act(sys.domain, Act(sys.domain, old(sys.m), GiveUp(id)), Commit(id, now))
    ensures id in sys.m.running
    ensures var e := old(sys.m).running[id];
            sys.m.running[id] == e.(phase := Raised(PersistenceError), writes := sys.m.running[id].writes)
  {
    hide Run, System.Valid, CommitTurn, BuildCall;
    sys.Do(GiveUp(id));
    sys.Do(Commit(id, now));
  }

  method Finish(sys: System, id: nat, a: Action)
    requires sys.Valid() && id in sys.m.running && (a.Fail? || a.LoseReply? || a.Receive?) && a.id == id
    requires a.Fail? ==> sys.m.running[id].phase.Loaded? && !a.error.Conflict?
    requires !a.Fail? ==> sys.m.running[id].phase.Replied?
    modifies sys
    ensures sys.Valid() && sys.done == old(sys.done) + [a] && id in sys.m.running
    ensures sys.m == Act(sys.domain, old(sys.m), a)
    ensures sys.m.running[id] == if a.Receive? then Received(old(sys.m).running[id], a.late)
      else old(sys.m).running[id].(phase := Raised(if a.Fail? then a.error else PersistenceError))
    ensures Off(sys.m, id) == Off(old(sys.m), id)
  {
    hide Run, System.Valid;
    sys.Do(a);
  }

  /** `_run_once`: load, compute, commit; a revision mismatch is a result, any other error is raised. */
  method RunOnce(sys: System, id: nat, input: Input, attempt: nat, p: Schedule, ghost m: Machine,
                 ghost before: seq<Action>) returns (r: Attempt)
    requires sys.Valid() && id in sys.m.running && AtAttempt(sys.m.running[id], input, attempt)
    requires Honours(p, id) && Off(sys.m, id) == Run(sys.domain, m, before)
    modifies sys
    ensures sys.Valid() && |old(sys.done)| <= |sys.done| && sys.done[..|old(sys.done)|] == old(sys.done)
    ensures id in sys.m.running && Settled(sys.m.running[id], input, attempt, r, p.late)
    ensures sys.m == AttemptSteps(sys.domain, old(sys.m), id, p)
    ensures p.failure.Some? ==> r == Threw(p.failure.value)
    ensures p.failure.None? ==> Reported(p, Answer(sys.domain, m, input, before, p), r)
    ensures r.Mismatched? ==> Off(sys.m, id) == Run(sys.domain, m, before + Around(p))
  {
    hide Run, Act, CommitTurn, System.Valid, BuildCall, OthersOnly, CommitSteps, Off;
    ghost var d := sys.domain;
    RunConcat(d, m, before, p.beforeLoad);
    sys.Others(p.beforeLoad, id);
    SameStore(sys.m, id);
    var seen := LoadState(sys, id);
    RunConcat(d, m, before + p.beforeLoad, p.beforeCompute);
    sys.Others(p.beforeCompute, id);
    if p.failure.Some? {
      Finish(sys, id, Fail(id, p.failure.value));
      return Threw(p.failure.value);
    }
    SendCommit(sys, id, seen, p.draw);
    RunConcat(d, m, before + p.beforeLoad + p.beforeCompute, p.beforeCommit);
    sys.Others(p.beforeCommit, id);
    SameStore(sys.m, id);
    r := AwaitCommit(sys, id, input, attempt, seen, p);
    RunConcat(d, m, before + p.beforeLoad + p.beforeCompute + p.beforeCommit, p.beforeReply);
    assert before + p.beforeLoad + p.beforeCompute + p.beforeCommit + p.beforeReply == before + Around(p);
  }

  lemma SameStore(m: Machine, id: nat)
    ensures Off(m, id).store == m.store
  {
  }

  /** What a commit with this answer reports, once it was sent. */
  ghost predicate Reported(p: Schedule, answer: Outcome, r: Attempt) {
    if !p.fate.Delivered? || answer.DatabaseError? then r == Threw(PersistenceError)
    else if answer.Committed? then r == Turned(answer.turn)
    else if answer.RevisionMismatch? then r == Mismatched(answer)
    else r == Threw(Conflict(answer))
  }

  /** From the moment the commit is under way. */
  method AwaitCommit(sys: System, id: nat, input: Input, ghost attempt: nat, seen: Option<Profile>, p: Schedule)
      returns (r: Attempt)
    requires sys.Valid() && id in sys.m.running && Honours(p, id)
    requires sys.m.running[id] == Execution(input, attempt, Sent(seen, p.draw, true), attempt, 0)
    modifies sys
    ensures sys.Valid() && |old(sys.done)| <= |sys.done| && sys.done[..|old(sys.done)|] == old(sys.done)
    ensures id in sys.m.running && Settled(sys.m.running[id], input, attempt, r, p.late)
    ensures sys.m == CommitSteps(sys.domain, old(sys.m), id, p)
    ensures var call := BuildCall(sys.domain, input, seen, p.draw);
            Reported(p, CommitTurn(old(sys.m).store, call, sys.domain.hash(call), p.now).1, r)
    ensures r.Mismatched? ==> Off(sys.m, id) == Run(sys.domain, Off(old(sys.m), id), p.beforeReply)
  {
    hide Run, Act, CommitTurn, System.Valid, BuildCall, OthersOnly, Off;
    if p.fate.Abandoned? {
      Abandon(sys, id, p.now);
      return Threw(PersistenceError);
    }
    var outcome := CommitCall(sys, id, input, seen, p.draw, p.now);
    sys.Others(p.beforeReply, id);
    if p.fate.Lost? {
      Finish(sys, id, LoseReply(id));
      return Threw(PersistenceError);
    }
    Finish(sys, id, Receive(id, p.late));
    match outcome {
      case Committed(turn) => r := Turned(turn);
      case RevisionMismatch(_, _) => r := Mismatched(outcome);
      case DatabaseError => r := Threw(PersistenceError);
      case _ => r := Threw(Conflict(outcome));
    }
  }

  /**
   `_execute_normal`: at most one retry, and only after a revision mismatch in time. Which
   attempt ends it and how follows from the schedules and from what `commit_turn` answers on the
   tables the others leave. The whole is a run of the protocol, so its theorems apply to it, and
   exactly the run that the schedules say.
   */
  method ExecuteNormal(sys: System, id: nat, input: Input, plan: nat -> Schedule) returns (r: Attempt, attempt: nat)
    requires sys.Valid() && id !in sys.m.running && !input.replay
    requires forall n :: Honours(plan(n), id)
    modifies sys
    ensures sys.Valid() && |old(sys.done)| <= |sys.done| && sys.done[..|old(sys.done)|] == old(sys.done)
    ensures id in sys.m.running && sys.m.running[id].input == input && sys.m.running[id].calls <= attempt
    ensures r.Turned? ==> sys.m.running[id].phase == Returned(r.turn)
    ensures !r.Turned? ==> r.Threw? && (sys.m.running[id].phase == Raised(r.error))
    ensures sys.m == TurnSteps(sys.domain, old(sys.m), id, input, plan)
    ensures attempt == 1 || attempt == 2
    ensures var p, o := plan(1), Answer(sys.domain, old(sys.m), input, [], plan(1));
            && (attempt == 2 <==> p.failure.None? && p.fate.Delivered? && o.RevisionMismatch? && !p.late)
            && (attempt == 1 ==>
                  if p.failure.Some? then r == Threw(p.failure.value)
                  else if !p.fate.Delivered? || o.DatabaseError? then r == Threw(PersistenceError)
                  else if o.RevisionMismatch? then p.late && r == Threw(DeadlineExceeded)
                  else if o.Committed? then r == Turned(o.turn)
                  else r == Threw(Conflict(o)))
    ensures var p, o := plan(2), Answer(sys.domain, old(sys.m), input, Around(plan(1)), plan(2));
            attempt == 2 ==>
              if p.failure.Some? then r == Threw(p.failure.value)
              else if !p.fate.Delivered? || o.DatabaseError? then r == Threw(PersistenceError)
              else if o.Committed? then r == Turned(o.turn)
              else r == Threw(Conflict(o))
  {
    hide Run, CommitTurn, System.Valid, Honours, AttemptSteps, Answer;
    ghost var d, m := sys.domain, sys.m;
    ghost var before: seq<Action> := [];
    sys.Do(Start(id, input));
    assert Off(sys.m, id) == m;
    NoActions(d, m);
    attempt := 1;
    while true
      invariant sys.Valid() && 1 <= attempt <= MAX_COMMIT_ATTEMPTS
      invariant |old(sys.done)| <= |sys.done| && sys.done[..|old(sys.done)|] == old(sys.done)
      invariant id in sys.m.running && AtAttempt(sys.m.running[id], input, attempt)
      invariant attempt == 1 ==> sys.m == Act(d, m, Start(id, input)) && before == []
      invariant attempt == 2 ==>
        && sys.m == AttemptSteps(d, Act(d, m, Start(id, input)), id, plan(1)) && before == Around(plan(1))
        && plan(1).failure.None? && plan(1).fate.Delivered? && Answer(d, m, input, [], plan(1)).RevisionMismatch?
        && !plan(1).late
      invariant Off(sys.m, id) == Run(d, m, before)
      decreases MAX_COMMIT_ATTEMPTS - attempt
    {
      var p := plan(attempt);
      r := RunOnce(sys, id, input, attempt, p, m, before);
      if r.Threw? || r.Turned? {
        return;
      }
      if attempt >= MAX_COMMIT_ATTEMPTS {
        r := Threw(Conflict(r.outcome));
        return;
      }
      if p.late {
        r := Threw(DeadlineExceeded);
        return;
      }
      attempt := attempt + 1;
      before := Around(p);
      assert [] + Around(p) == Around(p);
    }
  }

  lemma NoActions(d: Domain, m: Machine)
    ensures Run(d, m, []) == m
  {
  }

  /**
   `_replay`: one lookup, never a write and never the normal path. A completed row is returned as
   it is stored; a live lease and anything else are the two conflicts.
   */
  method ExecuteReplay(sys: System, id: nat, input: Input, before: seq<Action>, failure: Option<Error>, now: int)
      returns (r: Attempt)
    requires sys.Valid() && id !in sys.m.running && input.replay
    requires OthersOnly(before, id) && (failure.Some? ==> !failure.value.Conflict?)
    modifies sys
    ensures sys.Valid() && id in sys.m.running && sys.m.running[id].calls == 0
    ensures Off(sys.m, id) == Run(sys.domain, old(sys.m), before)
    ensures var rows, k := Run(sys.domain, old(sys.m), before).store.requests, (input.user, input.request);
            if failure.Some? then r == Threw(failure.value)
            else if k in rows && rows[k].status.Completed? then
              var row := rows[k].status;
              r == Turned(CommittedTurn(input.user, input.request, row.revision, row.payload, row.refs))
            else if k in rows && rows[k].status.Pending? && rows[k].status.until > now then
              r == Threw(ReplayConflict(ReplayInProgress))
            else r == Threw(ReplayConflict(ReplayUnavailable))
    ensures r.Turned? ==> sys.m.running[id].phase == Returned(r.turn)
    ensures !r.Turned? ==> r.Threw? && (sys.m.running[id].phase == Raised(r.error))
  {
    hide Run, CommitTurn, System.Valid, OthersOnly;
    ghost var d, m := sys.domain, sys.m;
    sys.Do(Start(id, input));
    assert Off(sys.m, id) == m;
    sys.Others(before, id);
    if failure.Some? {
      sys.Do(Fail(id, failure.value));
      return Threw(failure.value);
    }
    var found := Replay(sys.m.store, (input.user, input.request), now);
    sys.Do(LookUp(id, now));
    r := if found.Found? then Turned(found.turn) else Threw(ReplayConflict(found));
  }
}
