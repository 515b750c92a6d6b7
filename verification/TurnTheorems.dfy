/** What serializability gives: no lost updates, commits at most once, results that stay what they were. */
module TurnTheorems {
  import opened Options
  import opened TurnStore
  import opened TurnProtocol

  function UserOf(e: Entry): User {
    if e.Turn? then e.input.user else e.user
  }

  function KeyOf(e: Entry): RequestKey
    requires e.Turn?
  {
    (e.input.user, e.input.request)
  }

  predicate Deletes(e: Entry, u: User) {
    e.Operated? && e.user == u && e.op.DeleteHistory?
  }

  /** The entries that move a user's revision. */
  function Moves(log: seq<Entry>, u: User): nat {
    if log == [] then 0
    else
      var e := log[|log| - 1];
      Moves(log[..|log| - 1], u) + if UserOf(e) == u && (e.Turn? || e.bumped) then 1 else 0
  }

  lemma {:induction false} PrefixesAreEffective(d: Domain, s: Store, log: seq<Entry>, n: nat)
    requires AllEffective(d, s, log) && n < |log|
    ensures AllEffective(d, s, log[..n]) && Effective(d, Serial(d, s, log[..n]), log[n])
    ensures Serial(d, s, log[..n + 1]) == Serially(d, Serial(d, s, log[..n]), log[n])
    decreases |log|
  {
    hide Effective, Serially;
    var last := |log| - 1;
    assert log[..last] + [log[last]] == log;
    SerialStep(d, s, log[..last], log[last]);
    if n < last {
      PrefixesAreEffective(d, s, log[..last], n);
      assert log[..last][..n] == log[..n] && log[..last][..n + 1] == log[..n + 1];
    } else {
      assert log[..n + 1] == log;
    }
  }

  /** A user's revision is where it started plus the number of writes to the profile. */
  lemma {:induction false} RevisionCountsWrites(d: Domain, s: Store, log: seq<Entry>, u: User)
    requires AllEffective(d, s, log)
    ensures Serial(d, s, log).Revision(u) == s.Revision(u) + Moves(log, u)
    decreases |log|
  {
    hide CommitTurn, OutboxAccepts;
    if log != [] {
      var before, e := log[..|log| - 1], log[|log| - 1];
      RevisionCountsWrites(d, s, before, u);
      var t := Serial(d, s, before);
      if e.Turn? {
        var call := BuildCall(d, e.input, Lookup(t.profiles, e.input.user), e.draw);
        CommitIsAtomic(t, call, d.hash(call), e.now);
      }
    }
  }

  /** The snapshot a turn leaves is the transition of exactly the state its predecessor left. */
  lemma NoLostUpdate(d: Domain, s: Store, log: seq<Entry>, n: nat)
    requires AllEffective(d, s, log) && n < |log| && log[n].Turn?
    ensures var before, after := Serial(d, s, log[..n]), Serial(d, s, log[..n + 1]);
            var u := log[n].input.user;
            var next := d.next(Lookup(before.profiles, u), log[n].draw);
            && Lookup(after.profiles, u) == Some(Profile(before.Revision(u) + 1, next.emotional, next.relationship))
            && forall v :: v != u ==> Lookup(after.profiles, v) == Lookup(before.profiles, v)
  {
    hide CommitTurn, OutboxAccepts, Serial, AllEffective;
    PrefixesAreEffective(d, s, log, n);
    var t := Serial(d, s, log[..n]);
    var call := BuildCall(d, log[n].input, Lookup(t.profiles, log[n].input.user), log[n].draw);
    CommitIsAtomic(t, call, d.hash(call), log[n].now);
  }

  /** The same of every run: revisions count the writes, and every turn was computed from its predecessor's state. */
  lemma RunsLoseNoUpdate(d: Domain, s0: Store, actions: seq<Action>, u: User, n: nat)
    requires n < |Run(d, Begin(s0), actions).log| && Run(d, Begin(s0), actions).log[n].Turn?
    ensures var m := Run(d, Begin(s0), actions);
            var before, after := Serial(d, s0, m.log[..n]), Serial(d, s0, m.log[..n + 1]);
            var v := m.log[n].input.user;
            var next := d.next(Lookup(before.profiles, v), m.log[n].draw);
            && m.store.Revision(u) == s0.Revision(u) + Moves(m.log, u)
            && Lookup(after.profiles, v) == Some(Profile(before.Revision(v) + 1, next.emotional, next.relationship))
  {
    hide Serial, AllEffective, Run, Moves;
    RunsAreSerializable(d, s0, actions);
    RevisionCountsWrites(d, s0, Run(d, Begin(s0), actions).log, u);
    NoLostUpdate(d, s0, Run(d, Begin(s0), actions).log, n);
  }

  /** And of requests: no run writes a request twice without deleting the history in between. */
  lemma RunsCommitOnce(d: Domain, s0: Store, actions: seq<Action>, j: nat, n: nat)
    requires j < n < |Run(d, Begin(s0), actions).log|
    requires var log := Run(d, Begin(s0), actions).log; log[j].Turn? && log[n].Turn? && KeyOf(log[j]) == KeyOf(log[n])
    ensures var log := Run(d, Begin(s0), actions).log; exists i :: j < i < n && Deletes(log[i], log[j].input.user)
  {
    hide Serial, AllEffective, Run;
    RunsAreSerializable(d, s0, actions);
    AtMostOncePerRequest(d, s0, Run(d, Begin(s0), actions).log, j, n);
  }

  /** A completed request keeps its row until the user's history is deleted. */
  lemma {:induction false} CompletedStays(d: Domain, s: Store, log: seq<Entry>, j: nat, n: nat, k: RequestKey)
    requires AllEffective(d, s, log) && j <= n <= |log|
    requires Serial(d, s, log[..j]).IsCompleted(k)
    requires forall i :: j <= i < n ==> !Deletes(log[i], k.0)
    ensures Serial(d, s, log[..n]).IsCompleted(k)
    ensures Serial(d, s, log[..n]).Result(k) == Serial(d, s, log[..j]).Result(k)
    decreases n
  {
    hide CommitTurn, OutboxAccepts, Serial, AllEffective;
    if j < n {
      CompletedStays(d, s, log, j, n - 1, k);
      PrefixesAreEffective(d, s, log, n - 1);
      var t, e := Serial(d, s, log[..n - 1]), log[n - 1];
      if e.Turn? {
        var call := BuildCall(d, e.input, Lookup(t.profiles, e.input.user), e.draw);
        CommitIsAtomic(t, call, d.hash(call), e.now);
      }
    }
  }

  lemma TurnCompletes(d: Domain, s: Store, log: seq<Entry>, n: nat)
    requires AllEffective(d, s, log) && n < |log| && log[n].Turn?
    ensures !Serial(d, s, log[..n]).IsCompleted(KeyOf(log[n]))
    ensures Serial(d, s, log[..n + 1]).IsCompleted(KeyOf(log[n]))
    ensures var e, draw := log[n], log[n].draw;
            Serial(d, s, log[..n + 1]).Result(KeyOf(e)) == CommittedTurn(
              e.input.user, e.input.request, Serial(d, s, log[..n]).Revision(e.input.user) + 1,
              Payload(draw.response, draw.emotion, draw.messageId, draw.durationMs), OutboxKeys(e.input))
  {
    hide CommitTurn, OutboxAccepts, Serial, AllEffective;
    PrefixesAreEffective(d, s, log, n);
    var t := Serial(d, s, log[..n]);
    var call := BuildCall(d, log[n].input, Lookup(t.profiles, log[n].input.user), log[n].draw);
    CommitIsAtomic(t, call, d.hash(call), log[n].now);
  }

  /** Between two turns of the same request the user's history was deleted. */
  lemma AtMostOncePerRequest(d: Domain, s: Store, log: seq<Entry>, j: nat, n: nat)
    requires AllEffective(d, s, log) && j < n < |log| && log[j].Turn? && log[n].Turn? && KeyOf(log[j]) == KeyOf(log[n])
    ensures exists i :: j < i < n && Deletes(log[i], log[j].input.user)
  {
    TurnCompletes(d, s, log, j);
    TurnCompletes(d, s, log, n);
    if forall i :: j < i < n ==> !Deletes(log[i], log[j].input.user) {
      CompletedStays(d, s, log, j + 1, n, KeyOf(log[j]));
      assert false;
    }
  }

  /** What others do does not show in a user's profile. */
  lemma {:induction false} OthersDoNotShow(d: Domain, s: Store, log: seq<Entry>, j: nat, n: nat, u: User)
    requires AllEffective(d, s, log) && j <= n <= |log|
    requires forall i :: j <= i < n ==> UserOf(log[i]) != u
    ensures Lookup(Serial(d, s, log[..n]).profiles, u) == Lookup(Serial(d, s, log[..j]).profiles, u)
    decreases n
  {
    hide CommitTurn, OutboxAccepts, Serial, AllEffective;
    if j < n {
      OthersDoNotShow(d, s, log, j, n - 1, u);
      PrefixesAreEffective(d, s, log, n - 1);
      var t, e := Serial(d, s, log[..n - 1]), log[n - 1];
      if e.Turn? {
        var call := BuildCall(d, e.input, Lookup(t.profiles, e.input.user), e.draw);
        CommitIsAtomic(t, call, d.hash(call), e.now);
      }
    }
  }

  /** A reset is never overwritten by a turn that loaded the state before it: the next turn starts from the reset. */
  lemma ResetIsSeen(d: Domain, s: Store, log: seq<Entry>, j: nat, n: nat)
    requires AllEffective(d, s, log) && j < n < |log| && log[n].Turn?
    requires log[j].Operated? && log[j].bumped && log[j].user == log[n].input.user
    requires forall i :: j < i < n ==> UserOf(log[i]) != log[j].user
    ensures var u, op := log[j].user, log[j].op;
            var was, seen := Lookup(Serial(d, s, log[..j]).profiles, u), Lookup(Serial(d, s, log[..n]).profiles, u);
            && was.Some? && seen.Some? && seen.value.revision == was.value.revision + 1
            && seen.value.emotional == (if op.ResetEmotional? then op.neutral else was.value.emotional)
            && seen.value.relationship == (if op.ResetRelationship? then op.neutral else was.value.relationship)
  {
    hide Serial, AllEffective;
    PrefixesAreEffective(d, s, log, j);
    OthersDoNotShow(d, s, log, j + 1, n, log[j].user);
  }

  /** A user's chat: two lines a turn, from the last deletion of history on. */
  function ChatOf(first: seq<Line>, log: seq<Entry>, u: User): seq<Line> {
    if log == [] then first
    else
      var e := log[|log| - 1];
      var before := ChatOf(first, log[..|log| - 1], u);
      if Deletes(e, u) then []
      else if e.Turn? && e.input.user == u
      then before + [Line("user", e.draw.userMessage), Line("assistant", e.draw.response)]
      else before
  }

  lemma {:induction false} ChatIsTheLog(d: Domain, s: Store, log: seq<Entry>, u: User)
    requires AllEffective(d, s, log)
    ensures Serial(d, s, log).Chat(u) == ChatOf(s.Chat(u), log, u)
    decreases |log|
  {
    hide CommitTurn, OutboxAccepts;
    if log != [] {
      var before, e := log[..|log| - 1], log[|log| - 1];
      ChatIsTheLog(d, s, before, u);
      var t := Serial(d, s, before);
      if e.Turn? {
        var call := BuildCall(d, e.input, Lookup(t.profiles, e.input.user), e.draw);
        CommitIsAtomic(t, call, d.hash(call), e.now);
      }
    }
  }

  // ----- what an execution returns

  ghost predicate Persisted(d: Domain, s0: Store, log: seq<Entry>, n: nat, turn: CommittedTurn) {
    && n <= |log|
    && Serial(d, s0, log[..n]).IsCompleted((turn.user, turn.request))
    && Serial(d, s0, log[..n]).Result((turn.user, turn.request)) == turn
  }

  ghost predicate Answers(d: Domain, s0: Store, log: seq<Entry>, e: Execution, turn: CommittedTurn) {
    && turn.user == e.input.user && turn.request == e.input.request
    && exists n: nat :: Persisted(d, s0, log, n, turn)
  }

  ghost predicate Truthful(d: Domain, s0: Store, log: seq<Entry>, e: Execution) {
    && (e.phase.Returned? ==> Answers(d, s0, log, e, e.phase.turn))
    && (e.phase.Replied? && e.phase.outcome.Committed? ==> Answers(d, s0, log, e, e.phase.outcome.turn))
  }

  lemma AnswersLater(d: Domain, s0: Store, log: seq<Entry>, more: seq<Entry>, e: Execution, turn: CommittedTurn)
    requires Answers(d, s0, log, e, turn)
    ensures Answers(d, s0, log + more, e, turn)
  {
    hide Serial;
    var n: nat :| Persisted(d, s0, log, n, turn);
    assert (log + more)[..n] == log[..n];
    assert Persisted(d, s0, log + more, n, turn);
  }

  lemma TruthfulLater(d: Domain, s0: Store, log: seq<Entry>, more: seq<Entry>, e: Execution)
    requires Truthful(d, s0, log, e)
    ensures Truthful(d, s0, log + more, e)
  {
    hide Answers;
    if e.phase.Returned? {
      AnswersLater(d, s0, log, more, e, e.phase.turn);
    }
    if e.phase.Replied? && e.phase.outcome.Committed? {
      AnswersLater(d, s0, log, more, e, e.phase.outcome.turn);
    }
  }

  /** What is in the tables now is what the whole log produced. */
  lemma StoredNow(d: Domain, s0: Store, log: seq<Entry>, e: Execution)
    requires Serial(d, s0, log).IsCompleted((e.input.user, e.input.request))
    ensures Answers(d, s0, log, e, Serial(d, s0, log).Result((e.input.user, e.input.request)))
  {
    assert log[..|log|] == log;
    assert Persisted(d, s0, log, |log|, Serial(d, s0, log).Result((e.input.user, e.input.request)));
  }

  lemma CommitIsTruthful(d: Domain, s0: Store, m: Machine, id: nat, now: int)
    requires Sound(d, s0, m) && id in m.running && m.running[id].phase.Sent?
    ensures var m' := DoCommit(d, m, id, m.running[id], now);
            && Truthful(d, s0, m'.log, m'.running[id])
            && |m.log| <= |m'.log| && m'.log[..|m.log|] == m.log
  {
    hide Serial, AllEffective, Answers, CommitTurn;
    var e := m.running[id];
    var call := BuildCall(d, e.input, e.phase.seen, e.phase.draw);
    CommitIsAtomic(m.store, call, d.hash(call), now);
    CommitKeepsSound(d, s0, m, id, now);
    var m' := DoCommit(d, m, id, e, now);
    if m'.running[id].phase.Replied? && m'.running[id].phase.outcome.Committed? {
      StoredNow(d, s0, m'.log, m'.running[id]);
    }
  }

  lemma AllTruthfulLater(d: Domain, s0: Store, log: seq<Entry>, log': seq<Entry>, running: map<nat, Execution>)
    requires |log| <= |log'| && log'[..|log|] == log
    requires forall i :: i in running ==> Truthful(d, s0, log, running[i])
    ensures forall i :: i in running ==> Truthful(d, s0, log', running[i])
  {
    hide Truthful;
    assert log' == log + log'[|log|..];
    forall i | i in running ensures Truthful(d, s0, log', running[i]) {
      TruthfulLater(d, s0, log, log'[|log|..], running[i]);
    }
  }

  ghost predicate AllTruthful(d: Domain, s0: Store, m: Machine) {
    forall i :: i in m.running ==> Truthful(d, s0, m.log, m.running[i])
  }

  lemma AdvanceIsTruthful(d: Domain, s0: Store, m: Machine, a: Action)
    requires Sound(d, s0, m) && AllTruthful(d, s0, m) && !a.Operate? && !a.Commit?
    ensures AllTruthful(d, s0, Act(d, m, a))
  {
    hide Serial, AllEffective, Answers, CommitTurn, DoCommit, DoOperate, Honest;
    var m' := Act(d, m, a);
    assert m'.log == m.log;
    forall i | i in m'.running ensures Truthful(d, s0, m'.log, m'.running[i]) {
      if i !in m.running || m'.running[i] != m.running[i] {
        if a.LookUp? {
          var key := (m.running[i].input.user, m.running[i].input.request);
          if m.store.IsCompleted(key) {
            StoredNow(d, s0, m.log, m.running[i]);
            AnswersSame(d, s0, m.log, m.running[i], m'.running[i], m.store.Result(key));
          }
        } else if a.Receive? && m'.running[i].phase.Returned? {
          AnswersSame(d, s0, m.log, m.running[i], m'.running[i], m'.running[i].phase.turn);
        }
      }
    }
  }

  lemma AnswersSame(d: Domain, s0: Store, log: seq<Entry>, e: Execution, e': Execution, turn: CommittedTurn)
    requires Answers(d, s0, log, e, turn) && e.input == e'.input
    ensures Answers(d, s0, log, e', turn)
  {
  }

  lemma {:induction false} RunsAreTruthful(d: Domain, s0: Store, actions: seq<Action>)
    ensures AllTruthful(d, s0, Run(d, Begin(s0), actions))
    decreases |actions|
  {
    hide Sound, Truthful, Advance, DoCommit, DoOperate;
    if actions != [] {
      var before, a := actions[..|actions| - 1], actions[|actions| - 1];
      var m := Run(d, Begin(s0), before);
      RunsAreTruthful(d, s0, before);
      RunsAreSerializable(d, s0, before);
      ActIsTruthful(d, s0, m, a);
    }
  }

  lemma ActIsTruthful(d: Domain, s0: Store, m: Machine, a: Action)
    requires Sound(d, s0, m) && AllTruthful(d, s0, m)
    ensures AllTruthful(d, s0, Act(d, m, a))
  {
    hide Serial, AllEffective, Truthful, CommitTurn, Honest;
    if a.Operate? {
      AllTruthfulLater(d, s0, m.log, Act(d, m, a).log, m.running);
    } else if a.Commit? {
      if a.id in m.running && m.running[a.id].phase.Sent? {
        CommitIsTruthful(d, s0, m, a.id, a.now);
        AllTruthfulLater(d, s0, m.log, Act(d, m, a).log, m.running);
      }
    } else {
      AdvanceIsTruthful(d, s0, m, a);
    }
  }

  /**
   In every run, an execution that returned holds a stored result of its own request, and a
   replay now finds the same result unless the user's history was deleted since; it sent at
   most two commits, at most one of which wrote; a conflict means that none did.
   */
  lemma WhatAnExecutionDid(d: Domain, s0: Store, actions: seq<Action>, id: nat, now: int) returns (n: nat)
    requires id in Run(d, Begin(s0), actions).running
    ensures var m := Run(d, Begin(s0), actions);
            var e := m.running[id];
            && e.calls <= MAX_COMMIT_ATTEMPTS && e.writes <= 1
            && (e.phase.Raised? && e.phase.error.Conflict? ==> e.writes == 0)
            && (e.phase.Returned? ==>
                  && Persisted(d, s0, m.log, n, e.phase.turn)
                  && e.phase.turn.user == e.input.user && e.phase.turn.request == e.input.request
                  && ((forall i :: n <= i < |m.log| ==> !Deletes(m.log[i], e.input.user)) ==>
                      Replay(m.store, (e.input.user, e.input.request), now) == Found(e.phase.turn)))
  {
    hide Serial, AllEffective, Run;
    RunsAreSerializable(d, s0, actions);
    RunsAreTruthful(d, s0, actions);
    var m := Run(d, Begin(s0), actions);
    var e := m.running[id];
    n := 0;
    if e.phase.Returned? {
      n :| Persisted(d, s0, m.log, n, e.phase.turn);
      if forall i :: n <= i < |m.log| ==> !Deletes(m.log[i], e.input.user) {
        CompletedStays(d, s0, m.log, n, |m.log|, (e.input.user, e.input.request));
        assert m.log[..|m.log|] == m.log;
      }
    }
  }
}
