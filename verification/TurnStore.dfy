/**
 The tables a turn reads and writes, and the stored procedures that change them:
 `commit_turn`, `replay_committed_turn` and `privacy_apply_operation`. Each runs as
 one transaction under the user's advisory lock, so each is one atomic step here.
 JSON documents are kept as texts; a payload hash is whatever text the caller sends.
 */
module TurnStore {
  import opened Options
  import opened Sequences

  type User = string
  type RequestId = string
  type RequestKey = (User, RequestId)

  datatype Profile = Profile(revision: nat, emotional: string, relationship: string)

  /** The public result of a turn as it is stored for replay. */
  datatype Payload = Payload(response: string, emotion: string, messageId: string, durationMs: nat)

  datatype Status =
    | Pending(owner: string, until: int)
    | Expired
    | Completed(revision: nat, payload: Payload, refs: seq<string>)

  datatype RequestRow = RequestRow(hash: string, status: Status)

  datatype Line = Line(role: string, content: string)

  datatype Operation = DeleteHistory | DeleteMemories | ResetEmotional(neutral: string)
      | ResetRelationship(neutral: string)

  datatype Store = Store(
    profiles: map<User, Profile>,
    requests: map<RequestKey, RequestRow>,
    chat: map<User, seq<Line>>,
    outbox: set<(User, string)>,
    operations: map<(User, string), Operation>)
  {
    /** A missing profile counts as revision 0. */
    function Revision(u: User): nat {
      if u in profiles then profiles[u].revision else 0
    }

    function Chat(u: User): seq<Line> {
      if u in chat then chat[u] else []
    }

    predicate IsCompleted(k: RequestKey) {
      k in requests && requests[k].status.Completed?
    }

    /** The public result, always built from the stored row. */
    function Result(k: RequestKey): CommittedTurn
      requires IsCompleted(k)
    {
      var done := requests[k].status;
      CommittedTurn(k.0, k.1, done.revision, done.payload, done.refs)
    }
  }

  datatype CommittedTurn = CommittedTurn(
    user: User, request: RequestId, revision: nat, payload: Payload, refs: seq<string>)

  datatype Call = Call(
    user: User, request: RequestId, expected: nat, userMessage: string, assistantMessage: string,
    emotional: string, relationship: string, publicResponse: string, payload: Payload,
    outbox: seq<string>, owner: Option<string>)
  {
    function Key(): RequestKey {
      (user, request)
    }
  }

  datatype Outcome =
    | Committed(turn: CommittedTurn)
    | ValidationFailed
    | PayloadConflict
    | InProgress
    | LeaseConflict
    | RevisionMismatch(expected: nat, actual: nat)
    | DatabaseError

  // ----- commit_turn

  /** What an existing row with the same key makes of the call, if it settles it. */
  function Precheck(s: Store, c: Call, hash: string, now: int): Option<Outcome> {
    if c.user == "" || c.publicResponse != c.payload.response then Some(ValidationFailed)
    else if c.Key() !in s.requests then None
    else
      var row := s.requests[c.Key()];
      if row.hash != hash then Some(PayloadConflict)
      else if row.status.Completed? then Some(Committed(s.Result(c.Key())))
      else if row.status.Pending? && row.status.until > now && c.owner != Some(row.status.owner) then Some(InProgress)
      else if c.owner.None? then Some(LeaseConflict)
      else None
  }

  /** The `WHERE` of the conditional update that reclaims a row. */
  predicate Reclaimable(row: RequestRow, c: Call, hash: string, now: int) {
    && row.hash == hash
    && match row.status {
         case Pending(owner, until) => (until > now && c.owner == Some(owner)) || until <= now
         case Expired => true
         case Completed(_, _, _) => false
       }
  }

  /** The unique index on (user, idempotency key) refuses a key that is present. */
  predicate OutboxAccepts(s: Store, c: Call) {
    Distinct(c.outbox) && forall i :: 0 <= i < |c.outbox| ==> (c.user, c.outbox[i]) !in s.outbox
  }

  function Written(s: Store, c: Call, hash: string): Store {
    var revision := s.Revision(c.user) + 1;
    Store(
      s.profiles[c.user := Profile(revision, c.emotional, c.relationship)],
      s.requests[c.Key() := RequestRow(hash, Completed(revision, c.payload, c.outbox))],
      s.chat[c.user := s.Chat(c.user) + [Line("user", c.userMessage), Line("assistant", c.assistantMessage)]],
      s.outbox + (set i | 0 <= i < |c.outbox| :: (c.user, c.outbox[i])),
      s.operations)
  }

  /** The procedure step by step; any error leaves the tables as they were. */
  function CommitTurn(s: Store, c: Call, hash: string, now: int): (Store, Outcome) {
    var settled := Precheck(s, c, hash, now);
    if settled.Some? then (s, settled.value)
    else if s.Revision(c.user) != c.expected then (s, RevisionMismatch(c.expected, s.Revision(c.user)))
    else if c.Key() in s.requests && !Reclaimable(s.requests[c.Key()], c, hash, now) then (s, LeaseConflict)
    else if !OutboxAccepts(s, c) then (s, DatabaseError)
    else
      var t := Written(s, c, hash);
      (t, Committed(t.Result(c.Key())))
  }

  /** The call wrote, as opposed to answering with an earlier result. */
  predicate Writes(s: Store, c: Call, hash: string, now: int) {
    CommitTurn(s, c, hash, now).1.Committed? && !s.IsCompleted(c.Key())
  }

  /**
   All or nothing: a call writes everything exactly when nothing settles it, the revision is
   the expected one and the outbox accepts its events; otherwise the tables are untouched.
   The reclaim that finds its row changed is never reached.
   */
  lemma CommitIsAtomic(s: Store, c: Call, hash: string, now: int)
    ensures var (t, o) := CommitTurn(s, c, hash, now);
            && (Writes(s, c, hash, now) <==>
                Precheck(s, c, hash, now).None? && s.Revision(c.user) == c.expected && OutboxAccepts(s, c))
            && t == (if Writes(s, c, hash, now) then Written(s, c, hash) else s)
            && (o == LeaseConflict <==> Precheck(s, c, hash, now) == Some(LeaseConflict))
            && (o.Committed? ==> t.IsCompleted(c.Key()) && o.turn == t.Result(c.Key()))
  {
  }

  /** The user is named and the reply to replay is the reply shown. */
  predicate Admitted(c: Call) {
    c.user != "" && c.publicResponse == c.payload.response
  }

  /** The request is new, or its row carries the same hash and is this caller's to finish. */
  predicate IsOpen(s: Store, c: Call, hash: string, now: int) {
    var k := (c.user, c.request);
    k in s.requests ==>
      && s.requests[k].hash == hash && !s.requests[k].status.Completed? && c.owner.Some?
      && (s.requests[k].status.Pending? ==>
            s.requests[k].status.until <= now || c.owner == Some(s.requests[k].status.owner))
  }

  /**
   Which answer a call gets, from the tables, the call, its hash and the clock. A different hash
   is a conflict whatever the status of the row; a completed row answers for itself; a live lease
   keeps others out; an open request is decided by the revision, then by the outbox.
   */
  lemma OutcomeExactly(s: Store, c: Call, hash: string, now: int)
    ensures var o, k := CommitTurn(s, c, hash, now).1, (c.user, c.request);
            var found := Admitted(c) && k in s.requests;
            var same := found && s.requests[k].hash == hash;
            var revision := if c.user in s.profiles then s.profiles[c.user].revision else 0;
            var open := Admitted(c) && IsOpen(s, c, hash, now);
            var taken := exists i :: 0 <= i < |c.outbox| &&
                           ((c.user, c.outbox[i]) in s.outbox || c.outbox[i] in c.outbox[..i]);
            && (o == ValidationFailed <==> !Admitted(c))
            && (o == PayloadConflict <==> found && s.requests[k].hash != hash)
            && (o == InProgress <==>
                && same && s.requests[k].status.Pending?
                && s.requests[k].status.until > now && c.owner != Some(s.requests[k].status.owner))
            && (o == LeaseConflict <==>
                && same && c.owner.None? && !s.requests[k].status.Completed?
                && (s.requests[k].status.Pending? ==> s.requests[k].status.until <= now))
            && (o.RevisionMismatch? <==> open && revision != c.expected)
            && (o.RevisionMismatch? ==> o == RevisionMismatch(c.expected, revision))
            && (o == DatabaseError <==> open && revision == c.expected && taken)
            && (o.Committed? <==>
                (same && s.requests[k].status.Completed?) || (open && revision == c.expected && !taken))
  {
    OutboxExactly(s, c);
    CommitIsAtomic(s, c, hash, now);
  }

  lemma OutboxExactly(s: Store, c: Call)
    ensures OutboxAccepts(s, c) <==>
            !exists i :: 0 <= i < |c.outbox| && ((c.user, c.outbox[i]) in s.outbox || c.outbox[i] in c.outbox[..i])
  {
    if !Distinct(c.outbox) {
      var i, j :| 0 <= i < j < |c.outbox| && c.outbox[i] == c.outbox[j];
      assert c.outbox[..j][i] == c.outbox[j];
    }
  }

  /** What a call leaves in the tables and says: an earlier result as it is stored, or all of the turn, or nothing. */
  lemma TablesExactly(s: Store, c: Call, hash: string, now: int)
    ensures var (t, o) := CommitTurn(s, c, hash, now);
            var k := (c.user, c.request);
            var revision := if c.user in s.profiles then s.profiles[c.user].revision else 0;
            var before := if c.user in s.chat then s.chat[c.user] else [];
            if o.Committed? && !(k in s.requests && s.requests[k].status.Completed?) then
              && t.profiles == s.profiles[c.user := Profile(revision + 1, c.emotional, c.relationship)]
              && t.requests == s.requests[k := RequestRow(hash, Completed(revision + 1, c.payload, c.outbox))]
              && t.chat == s.chat[c.user := before + [Line("user", c.userMessage),
                                                      Line("assistant", c.assistantMessage)]]
              && (forall e :: e in t.outbox <==> e in s.outbox || (e.0 == c.user && e.1 in c.outbox))
              && t.operations == s.operations
              && o.turn == CommittedTurn(c.user, c.request, revision + 1, c.payload, c.outbox)
            else
              && t == s
              && (o.Committed? ==>
                    var done := s.requests[k].status;
                    o.turn == CommittedTurn(c.user, c.request, done.revision, done.payload, done.refs))
  {
    var (t, o) := CommitTurn(s, c, hash, now);
    CommitIsAtomic(s, c, hash, now);
    if Writes(s, c, hash, now) {
      forall e ensures e in t.outbox <==> e in s.outbox || (e.0 == c.user && e.1 in c.outbox) {
        if e.0 == c.user && e.1 in c.outbox {
          var i :| 0 <= i < |c.outbox| && c.outbox[i] == e.1;
          assert e == (c.user, c.outbox[i]);
        }
      }
    }
  }

  // ----- replay_committed_turn

  datatype ReplayOutcome = Found(turn: CommittedTurn) | ReplayInProgress | ReplayUnavailable

  function Replay(s: Store, k: RequestKey, now: int): ReplayOutcome {
    if k !in s.requests then ReplayUnavailable
    else match s.requests[k].status
      case Completed(_, _, _) => Found(s.Result(k))
      case Pending(_, until) => if until > now then ReplayInProgress else ReplayUnavailable
      case Expired => ReplayUnavailable
  }

  /** A lookup finds what a completed row stores, and otherwise says whether its lease is live. */
  lemma ReplayExactly(s: Store, user: User, request: RequestId, now: int)
    ensures var r, k := Replay(s, (user, request), now), (user, request);
            && (r.Found? <==> k in s.requests && s.requests[k].status.Completed?)
            && (r.Found? ==>
                  var done := s.requests[k].status;
                  r.turn == CommittedTurn(user, request, done.revision, done.payload, done.refs))
            && (r == ReplayInProgress <==>
                k in s.requests && s.requests[k].status.Pending? && s.requests[k].status.until > now)
  {
  }

  /** A lookup and a repeated commit of another worker agree on what became of a request. */
  lemma ReplayAgreesWithCommit(s: Store, c: Call, hash: string, now: int)
    requires c.user != "" && c.publicResponse == c.payload.response
    requires c.Key() in s.requests && s.requests[c.Key()].hash == hash
    requires s.requests[c.Key()].status.Pending? ==> c.owner != Some(s.requests[c.Key()].status.owner)
    ensures var (t, o) := CommitTurn(s, c, hash, now);
            && (Replay(s, c.Key(), now).Found? ==> o == Committed(Replay(s, c.Key(), now).turn) && t == s)
            && (Replay(s, c.Key(), now).ReplayInProgress? <==> o == InProgress)
            && (Writes(s, c, hash, now) ==>
                Replay(s, c.Key(), now).ReplayUnavailable? && Replay(t, c.Key(), now) == Found(o.turn))
  {
  }

  // ----- privacy_apply_operation

  /** An operation id that was used before changes nothing; a profile's revision moves on every use. */
  function Privacy(s: Store, u: User, id: string, op: Operation): Store {
    if (u, id) in s.operations then s
    else
      var cleared := if op.DeleteHistory? then Store(
          s.profiles,
          (map k | k in s.requests && k.0 != u :: s.requests[k]),
          s.chat - {u},
          (set e | e in s.outbox && e.0 != u),
          s.operations)
        else s;
      cleared.(
        profiles := if u !in s.profiles then s.profiles else s.profiles[u := Bumped(s.profiles[u], op)],
        operations := s.operations[(u, id) := op])
  }

  function Bumped(p: Profile, op: Operation): Profile {
    match op
    case ResetEmotional(neutral) => Profile(p.revision + 1, neutral, p.relationship)
    case ResetRelationship(neutral) => Profile(p.revision + 1, p.emotional, neutral)
    case _ => p.(revision := p.revision + 1)
  }

  /**
   An operation, once per id: the revision of a profile moves, a reset replaces its own snapshot,
   deleting the history clears requests, chat and outbox of its user; nothing else changes.
   */
  lemma PrivacyExactly(s: Store, u: User, id: string, op: Operation)
    ensures var t := Privacy(s, u, id, op);
            if (u, id) in s.operations then t == s
            else
              && t.operations == s.operations[(u, id) := op]
              && t.profiles.Keys == s.profiles.Keys
              && (forall v :: v in s.profiles && v != u ==> t.profiles[v] == s.profiles[v])
              && (u in s.profiles ==>
                    && t.profiles[u].revision == s.profiles[u].revision + 1
                    && t.profiles[u].emotional ==
                       (if op.ResetEmotional? then op.neutral else s.profiles[u].emotional)
                    && t.profiles[u].relationship ==
                       (if op.ResetRelationship? then op.neutral else s.profiles[u].relationship))
              && (!op.DeleteHistory? ==> t.requests == s.requests && t.chat == s.chat && t.outbox == s.outbox)
              && (op.DeleteHistory? ==>
                    && u !in t.chat && (forall v :: v != u ==> Lookup(t.chat, v) == Lookup(s.chat, v))
                    && (forall r :: (u, r) !in t.requests)
                    && (forall k: RequestKey :: k.0 != u ==> Lookup(t.requests, k) == Lookup(s.requests, k))
                    && forall e :: e in t.outbox <==> e in s.outbox && e.0 != u)
  {
  }
}
