/**
 Any number of `ProcessTurn` executions over the shared tables, interleaved in any way
 with each other and with privacy operations. Loading, computing and committing are
 separate steps; an execution may fail or stop for good between any two of them, lose
 the reply to its commit, or give up on a commit that still takes place later. An action
 that does not apply in a state changes nothing, so every sequence of actions is a run.

 The main result is that every run is serializable: the tables are what the logged
 writes produce one after another, each turn computed from the state its predecessor left.
 */
module TurnProtocol {
  import opened Options
  import opened TurnStore

  const MAX_COMMIT_ATTEMPTS := 2

  /** Everything a turn depends on besides the stored state: message, clock, provider replies, identifiers. */
  datatype Draw = Draw(userMessage: string, context: string, response: string, emotion: string, messageId: string,
      durationMs: nat)

  datatype Snapshot = Snapshot(emotional: string, relationship: string)

  /** The domain logic as arbitrary functions: the next snapshots, and the payload hash. */
  datatype Domain = Domain(next: (Option<Profile>, Draw) -> Snapshot, hash: Call -> string)

  datatype Input = Input(user: User, request: RequestId, owner: string, archival: bool, replay: bool)

  datatype Error = Conflict(outcome: Outcome) | DeadlineExceeded | PersistenceError
      | ReplayConflict(found: ReplayOutcome)

  datatype Phase =
    | Ready
    | Loaded(seen: Option<Profile>)
    | Computed(seen: Option<Profile>, draw: Draw)
    | Sent(seen: Option<Profile>, draw: Draw, awaited: bool)
    | Replied(outcome: Outcome)
    | Returned(turn: CommittedTurn)
    | Raised(error: Error)

  /** `calls` counts commits sent, `writes` those that changed the tables. */
  datatype Execution = Execution(input: Input, attempt: nat, phase: Phase, calls: nat, writes: nat)

  datatype Entry =
    | Turn(input: Input, draw: Draw, now: int)
    | Operated(user: User, id: string, op: Operation, bumped: bool)

  datatype Machine = Machine(store: Store, running: map<nat, Execution>, log: seq<Entry>)

  datatype Action =
    | Start(id: nat, input: Input)
    | Load(id: nat)
    | Compute(id: nat, draw: Draw)
    | Send(id: nat)
    | GiveUp(id: nat)
    | Commit(id: nat, now: int)
    | Receive(id: nat, late: bool)
    | LoseReply(id: nat)
    | LookUp(id: nat, now: int)
    | Fail(id: nat, error: Error)
    | Operate(user: User, opId: string, op: Operation)

  function RevisionOf(seen: Option<Profile>): nat {
    if seen.Some? then seen.value.revision else 0
  }

  function OutboxKeys(i: Input): seq<string> {
    if i.archival then ["archival:" + i.request + ":v1"] else []
  }

  /** The commit an execution sends after computing on what it loaded. */
  function BuildCall(d: Domain, i: Input, seen: Option<Profile>, draw: Draw): Call {
    var next := d.next(seen, draw);
    Call(i.user, i.request, RevisionOf(seen), draw.userMessage, draw.response, next.emotional, next.relationship,
         draw.response, Payload(draw.response, draw.emotion, draw.messageId, draw.durationMs), OutboxKeys(i),
             Some(i.owner))
  }

  /**
   A turn that commits the state it loaded, for a new request with a new archival event, takes
   effect, whatever the domain logic computed: new snapshots and the next revision (1 for a new
   user), the message and the reply in the chat, the reply to replay, at most one event.
   */
  lemma AloneATurnCommits(d: Domain, s: Store, i: Input, draw: Draw, now: int)
    requires i.user != "" && (i.user, i.request) !in s.requests
    requires i.archival ==> (i.user, "archival:" + i.request + ":v1") !in s.outbox
    ensures var seen := Lookup(s.profiles, i.user);
            var call, snapshot := BuildCall(d, i, seen, draw), d.next(seen, draw);
            var (t, o) := CommitTurn(s, call, d.hash(call), now);
            var revision := if seen.Some? then seen.value.revision + 1 else 1;
            var payload := Payload(draw.response, draw.emotion, draw.messageId, draw.durationMs);
            var events := if i.archival then ["archival:" + i.request + ":v1"] else [];
            && o == Committed(CommittedTurn(i.user, i.request, revision, payload, events))
            && t.profiles == s.profiles[i.user := Profile(revision, snapshot.emotional, snapshot.relationship)]
            && t.requests == s.requests[(i.user, i.request) :=
                               RequestRow(d.hash(call), Completed(revision, payload, events))]
            && t.chat == s.chat[i.user := s.Chat(i.user) + [Line("user", draw.userMessage),
                                                            Line("assistant", draw.response)]]
            && forall e :: e in t.outbox <==> e in s.outbox || (e.0 == i.user && e.1 in events)
  {
    var call := BuildCall(d, i, Lookup(s.profiles, i.user), draw);
    OutcomeExactly(s, call, d.hash(call), now);
    TablesExactly(s, call, d.hash(call), now);
  }

  // ----- one action

  function Put(m: Machine, id: nat, e: Execution, phase: Phase): Machine {
    m.(running := m.running[id := e.(phase := phase)])
  }

  function DoCommit(d: Domain, m: Machine, id: nat, e: Execution, now: int): Machine
    requires e.phase.Sent?
  {
    var call := BuildCall(d, e.input, e.phase.seen, e.phase.draw);
    var (after, outcome) := CommitTurn(m.store, call, d.hash(call), now);
    var wrote := Writes(m.store, call, d.hash(call), now);
    var reply := if e.phase.awaited then Replied(outcome) else Raised(PersistenceError);
    var e' := e.(phase := reply, writes := e.writes + if wrote then 1 else 0);
    Machine(after, m.running[id := e'], if wrote then m.log + [Turn(e.input, e.phase.draw, now)] else m.log)
  }

  /** What the bounded retry makes of a reply; `late` is an exhausted budget. */
  function Received(e: Execution, late: bool): Execution
    requires e.phase.Replied?
  {
    match e.phase.outcome
    case Committed(turn) => e.(phase := Returned(turn))
    case RevisionMismatch(_, _) =>
      if e.attempt >= MAX_COMMIT_ATTEMPTS then e.(phase := Raised(Conflict(e.phase.outcome)))
      else if late then e.(phase := Raised(DeadlineExceeded))
      else e.(phase := Ready, attempt := e.attempt + 1)
    case DatabaseError => e.(phase := Raised(PersistenceError))
    case _ => e.(phase := Raised(Conflict(e.phase.outcome)))
  }

  function AfterReplay(found: ReplayOutcome): Phase {
    if found.Found? then Returned(found.turn) else Raised(ReplayConflict(found))
  }

  function Advance(d: Domain, m: Machine, id: nat, e: Execution, a: Action): Machine {
    match a
    case Load(_) =>
      if e.phase.Ready? && !e.input.replay then Put(m, id, e, Loaded(Lookup(m.store.profiles, e.input.user))) else m
    case Compute(_, draw) =>
      if e.phase.Loaded? then Put(m, id, e, Computed(e.phase.seen, draw)) else m
    case Send(_) =>
      if e.phase.Computed? then Put(m, id, e.(calls := e.calls + 1), Sent(e.phase.seen, e.phase.draw, true)) else m
    case GiveUp(_) =>
      if e.phase.Sent? then Put(m, id, e, e.phase.(awaited := false)) else m
    case Commit(_, now) =>
      if e.phase.Sent? then DoCommit(d, m, id, e, now) else m
    case Receive(_, late) =>
      if e.phase.Replied? then m.(running := m.running[id := Received(e, late)]) else m
    case LoseReply(_) =>
      if e.phase.Replied? then Put(m, id, e, Raised(PersistenceError)) else m
    case LookUp(_, now) =>
      if e.phase.Ready? && e.input.replay
      then Put(m, id, e, AfterReplay(Replay(m.store, (e.input.user, e.input.request), now))) else m
    case Fail(_, error) =>
      if (e.phase.Ready? || e.phase.Loaded? || e.phase.Computed?) && !error.Conflict?
          then Put(m, id, e, Raised(error)) else m
    case _ => m
  }

  function DoOperate(m: Machine, u: User, id: string, op: Operation): Machine {
    if (u, id) in m.store.operations then m
    else m.(store := Privacy(m.store, u, id, op), log := m.log + [Operated(u, id, op, u in m.store.profiles)])
  }

  function Act(d: Domain, m: Machine, a: Action): Machine {
    match a
    case Start(id, input) =>
      if id in m.running then m else m.(running := m.running[id := Execution(input, 1, Ready, 0, 0)])
    case Operate(u, id, op) => DoOperate(m, u, id, op)
    case _ => if a.id in m.running then Advance(d, m, a.id, m.running[a.id], a) else m
  }

  function Run(d: Domain, m: Machine, actions: seq<Action>): Machine
    decreases |actions|
  {
    if actions == [] then m else Act(d, Run(d, m, actions[..|actions| - 1]), actions[|actions| - 1])
  }

  function Begin(s: Store): Machine {
    Machine(s, map[], [])
  }

  // ----- the serial execution of a log

  function Serially(d: Domain, s: Store, e: Entry): Store {
    match e
    case Turn(input, draw, now) =>
      var call := BuildCall(d, input, Lookup(s.profiles, input.user), draw);
      CommitTurn(s, call, d.hash(call), now).0
    case Operated(u, id, op, _) => Privacy(s, u, id, op)
  }

  /** The entry, run alone, changes the tables. */
  ghost predicate Effective(d: Domain, s: Store, e: Entry) {
    match e
    case Turn(input, draw, now) =>
      var call := BuildCall(d, input, Lookup(s.profiles, input.user), draw);
      Writes(s, call, d.hash(call), now)
    case Operated(u, id, op, bumped) => (u, id) !in s.operations && bumped == (u in s.profiles)
  }

  function Serial(d: Domain, s: Store, log: seq<Entry>): Store
    decreases |log|
  {
    if log == [] then s else Serially(d, Serial(d, s, log[..|log| - 1]), log[|log| - 1])
  }

  ghost predicate AllEffective(d: Domain, s: Store, log: seq<Entry>)
    decreases |log|
  {
    log == [] ||
    (AllEffective(d, s, log[..|log| - 1]) && Effective(d, Serial(d, s, log[..|log| - 1]), log[|log| - 1]))
  }

  lemma SerialStep(d: Domain, s: Store, log: seq<Entry>, e: Entry)
    ensures Serial(d, s, log + [e]) == Serially(d, Serial(d, s, log), e)
    ensures AllEffective(d, s, log + [e]) <==> AllEffective(d, s, log) && Effective(d, Serial(d, s, log), e)
  {
    assert (log + [e])[..|log|] == log;
  }

  // ----- serializability

  /** A loaded state is current for as long as its revision is. */
  ghost predicate Fresh(s: Store, u: User, seen: Option<Profile>) {
    && RevisionOf(seen) <= s.Revision(u)
    && (RevisionOf(seen) == s.Revision(u) ==> Lookup(s.profiles, u) == seen)
  }

  ghost predicate Honest(s: Store, e: Execution) {
    && (e.phase.Loaded? || e.phase.Computed? || e.phase.Sent? ==> Fresh(s, e.input.user, e.phase.seen))
    && 1 <= e.attempt <= MAX_COMMIT_ATTEMPTS
    && e.calls <= (if e.phase.Ready? || e.phase.Loaded? || e.phase.Computed? then e.attempt - 1 else e.attempt)
    && e.writes <= 1
    && (e.phase.Ready? || e.phase.Loaded? || e.phase.Computed? || e.phase.Sent? ==> e.writes == 0)
    && (e.phase.Replied? && !e.phase.outcome.Committed? ==> e.writes == 0)
    && (e.phase.Raised? && e.phase.error.Conflict? ==> e.writes == 0)
  }

  ghost predicate Sound(d: Domain, s0: Store, m: Machine) {
    && m.store == Serial(d, s0, m.log)
    && AllEffective(d, s0, m.log)
    && forall id :: id in m.running ==> Honest(m.store, m.running[id])
  }

  /** A write moves the user's revision past whatever anyone has loaded. */
  lemma FreshAfterWrite(s: Store, t: Store, u: User, v: User, seen: Option<Profile>)
    requires Fresh(s, u, seen)
    requires if u == v then t.Revision(u) > s.Revision(u) || Lookup(t.profiles, u) == Lookup(s.profiles, u)
             else Lookup(t.profiles, u) == Lookup(s.profiles, u)
    ensures Fresh(t, u, seen)
  {
  }

  /** What any write of user `v` does to the profiles. */
  ghost predicate OnlyMoves(s: Store, t: Store, v: User) {
    && (forall u :: u != v ==> Lookup(t.profiles, u) == Lookup(s.profiles, u))
    && (t.Revision(v) > s.Revision(v) || Lookup(t.profiles, v) == Lookup(s.profiles, v))
  }

  lemma StayHonest(s: Store, t: Store, v: User, running: map<nat, Execution>)
    requires OnlyMoves(s, t, v)
    requires forall id :: id in running ==> Honest(s, running[id])
    ensures forall id :: id in running ==> Honest(t, running[id])
  {
    forall id | id in running ensures Honest(t, running[id]) {
      var e := running[id];
      if e.phase.Loaded? || e.phase.Computed? || e.phase.Sent? {
        FreshAfterWrite(s, t, e.input.user, v, e.phase.seen);
      }
    }
  }

  lemma CommitKeepsSound(d: Domain, s0: Store, m: Machine, id: nat, now: int)
    requires Sound(d, s0, m) && id in m.running && m.running[id].phase.Sent?
    ensures Sound(d, s0, DoCommit(d, m, id, m.running[id], now))
  {
    hide Serial, AllEffective;
    var e := m.running[id];
    var call := BuildCall(d, e.input, e.phase.seen, e.phase.draw);
    var hash := d.hash(call);
    var m' := DoCommit(d, m, id, e, now);
    CommitIsAtomic(m.store, call, hash, now);
    if Writes(m.store, call, hash, now) {
      var entry := Turn(e.input, e.phase.draw, now);
      assert Lookup(m.store.profiles, e.input.user) == e.phase.seen;
      SerialStep(d, s0, m.log, entry);
      StayHonest(m.store, m'.store, e.input.user, m.running);
    }
  }

  lemma OperateKeepsSound(d: Domain, s0: Store, m: Machine, u: User, id: string, op: Operation)
    requires Sound(d, s0, m)
    ensures Sound(d, s0, DoOperate(m, u, id, op))
  {
    hide Serial, AllEffective;
    if (u, id) !in m.store.operations {
      SerialStep(d, s0, m.log, Operated(u, id, op, u in m.store.profiles));
      StayHonest(m.store, Privacy(m.store, u, id, op), u, m.running);
    }
  }

  lemma ActKeepsSound(d: Domain, s0: Store, m: Machine, a: Action)
    requires Sound(d, s0, m)
    ensures Sound(d, s0, Act(d, m, a))
  {
    hide Serial, AllEffective, CommitTurn, DoCommit, DoOperate;
    if a.Operate? {
      OperateKeepsSound(d, s0, m, a.user, a.opId, a.op);
    } else if a.Commit? && a.id in m.running && m.running[a.id].phase.Sent? {
      CommitKeepsSound(d, s0, m, a.id, a.now);
    }
  }

  /**
   Every run is serializable: the tables are what the logged writes produce one after
   another, and every logged write takes effect when run that way.
   */
  lemma {:induction false} RunsAreSerializable(d: Domain, s0: Store, actions: seq<Action>)
    ensures Sound(d, s0, Run(d, Begin(s0), actions))
    decreases |actions|
  {
    if actions != [] {
      RunsAreSerializable(d, s0, actions[..|actions| - 1]);
      ActKeepsSound(d, s0, Run(d, Begin(s0), actions[..|actions| - 1]), actions[|actions| - 1]);
    }
  }
}
