/**
 The reply to finalizing as it travels: a JSON value, or a call that fails. `ParseFinalize`
 is the strict parser; what it makes of a reply decides whether a round goes on.
 */
module DeletionReplies {
  import opened Options
  import opened DeletionLedger

  /** A JSON value; numbers, booleans and arrays are all the same to the parser. */
  datatype Json = Null | Text(text: string) | Object(fields: map<string, Json>) | Scalar

  /** What `client.rpc(..).execute().data` comes to. */
  datatype Response = CallFailed | Data(json: Json)

  /** A result, or one of the three exceptions of the parser. */
  datatype FinalizeResult = Completed(job: JobId) | PersistenceError | ConflictError | ValidationError

  predicate IsHex(c: char) {
    '0' <= c <= '9' || 'a' <= c <= 'f'
  }

  /** Python's `$` also matches in front of a closing line break. */
  predicate IsUuid(s: string) {
    && (|s| == 36 || (|s| == 37 && s[36] == '\n'))
    && forall i :: 0 <= i < 36 ==> if i == 8 || i == 13 || i == 18 || i == 23 then s[i] == '-' else IsHex(s[i])
  }

  predicate HasText(fields: map<string, Json>, key: string) {
    key in fields && fields[key].Text?
  }

  const STATE_CONFLICT := "state_conflict"

  function ParseError(fields: map<string, Json>): FinalizeResult
    requires "error" in fields
  {
    if fields.Keys != {"error"} then PersistenceError
    else if !fields["error"].Object? then PersistenceError
    else
      var error := fields["error"].fields;
      if error.Keys != {"code", "message"} then PersistenceError
      else if !HasText(error, "code") then PersistenceError
      else if !HasText(error, "message") then PersistenceError
      else if error["code"].text == STATE_CONFLICT then ConflictError
      else ValidationError
  }

  function ParseFinalize(r: Response): FinalizeResult {
    if r.CallFailed? || !r.json.Object? then PersistenceError
    else
      var fields := r.json.fields;
      if "error" in fields then ParseError(fields)
      else if fields.Keys != {"status", "job_id", "completed_at", "db_purged_at"} then PersistenceError
      else if !HasText(fields, "status") || fields["status"].text != "completed" then PersistenceError
      else if !HasText(fields, "job_id") || !IsUuid(fields["job_id"].text) then PersistenceError
      else if !HasText(fields, "completed_at") || !HasText(fields, "db_purged_at") then PersistenceError
      else Completed(fields["job_id"].text)
  }

  // ----- the two well-formed shapes

  function ErrorReply(code: string, message: string): Response {
    Data(Object(map["error" := Object(map["code" := Text(code), "message" := Text(message)])]))
  }

  function CompletedReply(job: JobId, completedAt: string, purgedAt: string): Response {
    Data(Object(map[
      "status" := Text("completed"), "job_id" := Text(job), "completed_at" := Text(completedAt),
          "db_purged_at" := Text(purgedAt)]))
  }

  ghost predicate IsError(r: Response) {
    exists code, message :: r == ErrorReply(code, message)
  }

  /** A well-formed error whose code is not the one the parser knows. */
  ghost predicate Unforeseen(r: Response) {
    exists code, message :: r == ErrorReply(code, message) && code != STATE_CONFLICT
  }

  ghost predicate IsCompleted(r: Response) {
    exists job, completedAt, purgedAt :: r == CompletedReply(job, completedAt, purgedAt) && IsUuid(job)
  }

  lemma ErrorShape(fields: map<string, Json>)
    requires fields.Keys == {"error"} && fields["error"].Object? && fields["error"].fields.Keys == {"code", "message"}
    requires HasText(fields["error"].fields, "code") && HasText(fields["error"].fields, "message")
    ensures var e := fields["error"].fields; Data(Object(fields)) == ErrorReply(e["code"].text, e["message"].text)
  {
    var e := fields["error"].fields;
    assert e == map["code" := Text(e["code"].text), "message" := Text(e["message"].text)];
    assert fields == map["error" := Object(e)];
  }

  lemma CompletedShape(fields: map<string, Json>)
    requires fields.Keys == {"status", "job_id", "completed_at", "db_purged_at"}
    requires fields["status"] == Text("completed") && HasText(fields, "job_id")
    requires HasText(fields, "completed_at") && HasText(fields, "db_purged_at")
    ensures Data(Object(fields)) ==
              CompletedReply(fields["job_id"].text, fields["completed_at"].text, fields["db_purged_at"].text)
  {
    assert fields == map[
      "status" := Text("completed"), "job_id" := Text(fields["job_id"].text),
      "completed_at" := Text(fields["completed_at"].text), "db_purged_at" := Text(fields["db_purged_at"].text)];
  }

  lemma ParsedError(code: string, message: string)
    ensures ParseFinalize(ErrorReply(code, message)) ==
              if code == STATE_CONFLICT then ConflictError else ValidationError
  {
    var inner := map["code" := Text(code), "message" := Text(message)];
    assert inner.Keys == {"code", "message"};
    assert map["error" := Object(inner)].Keys == {"error"};
  }

  lemma ParsedCompleted(job: JobId, completedAt: string, purgedAt: string)
    ensures ParseFinalize(CompletedReply(job, completedAt, purgedAt)) ==
              if IsUuid(job) then Completed(job) else PersistenceError
  {
    var fields := map[
      "status" := Text("completed"), "job_id" := Text(job), "completed_at" := Text(completedAt),
          "db_purged_at" := Text(purgedAt)];
    assert fields.Keys == {"status", "job_id", "completed_at", "db_purged_at"};
  }

  /**
   What the parser makes of every reply: it raises `ValidationError`, which the worker does
   not catch, exactly for an error envelope with an unforeseen code; `ConflictError` exactly for a
   state conflict; and `PersistenceError` exactly for everything that is malformed.
   */
  lemma ParserIsExact(r: Response)
    ensures ParseFinalize(r) == ValidationError <==> Unforeseen(r)
    ensures ParseFinalize(r) == ConflictError <==> exists message :: r == ErrorReply(STATE_CONFLICT, message)
    ensures ParseFinalize(r).Completed? <==> IsCompleted(r)
    ensures ParseFinalize(r) == PersistenceError <==> !IsError(r) && !IsCompleted(r)
  {
    hide ParseFinalize, IsUuid;
    forall code, message | r == ErrorReply(code, message)
        ensures !ParseFinalize(r).PersistenceError? && !ParseFinalize(r).Completed? {
      ParsedError(code, message);
    }
    ErrorsAreUnique(r);
    forall job, completedAt, purgedAt | r == CompletedReply(job, completedAt, purgedAt)
      ensures ParseFinalize(r) == if IsUuid(job) then Completed(job) else PersistenceError
    {
      ParsedCompleted(job, completedAt, purgedAt);
    }
    ParsedShape(r);
  }

  /** An error envelope determines its code. */
  lemma ErrorsAreUnique(r: Response)
    ensures forall code, message :: r == ErrorReply(code, message) ==>
              ParseFinalize(r) == if code == STATE_CONFLICT then ConflictError else ValidationError
  {
    hide ParseFinalize;
    forall code, message | r == ErrorReply(code, message)
      ensures ParseFinalize(r) == if code == STATE_CONFLICT then ConflictError else ValidationError
    {
      ParsedError(code, message);
    }
  }

  /** Whatever is not refused as malformed has one of the two shapes. */
  lemma ParsedShape(r: Response)
    ensures ParseFinalize(r) == ValidationError ==> Unforeseen(r)
    ensures ParseFinalize(r) == ConflictError ==> exists message :: r == ErrorReply(STATE_CONFLICT, message)
    ensures ParseFinalize(r).Completed? ==> IsCompleted(r)
  {
    hide IsUuid;
    if r.Data? && r.json.Object? {
      var fields := r.json.fields;
      if ParseFinalize(r) == ValidationError || ParseFinalize(r) == ConflictError {
        ErrorShape(fields);
      } else if ParseFinalize(r).Completed? {
        CompletedShape(fields);
      }
    }
  }

  // ----- the migration's own replies

  /** What the procedure of the migration sends for each of its outcomes; the texts of times are arbitrary. */
  function MigrationReply(outcome: FinalizeReply, id: JobId, completedAt: string, purgedAt: string): Response {
    match outcome
    case FinalizeLost => CallFailed
    case StateConflict => ErrorReply(STATE_CONFLICT, "cannot finalize before the database purge is committed")
    case Finalized => CompletedReply(id, completedAt, purgedAt)
  }

  /** None of them is unforeseen, and a finished job with a proper id is reported as completed. */
  lemma MigrationRepliesAreForeseen(outcome: FinalizeReply, id: JobId, completedAt: string, purgedAt: string)
    ensures var result := ParseFinalize(MigrationReply(outcome, id, completedAt, purgedAt));
            && result != ValidationError
            && (result.Completed? <==> outcome.Finalized? && IsUuid(id))
            && (result == ConflictError <==> outcome.StateConflict?)
  {
    hide ParseFinalize, IsUuid;
    ParsedError(STATE_CONFLICT, "cannot finalize before the database purge is committed");
    ParsedCompleted(id, completedAt, purgedAt);
    FailedCall();
  }

  lemma FailedCall()
    ensures ParseFinalize(CallFailed) == PersistenceError
  {
  }

  /** A reply that escapes: a validation error, as the sibling procedures of the migration send it. */
  lemma AnEscapingReply()
    ensures Unforeseen(ErrorReply("validation_failed", "worker_id is invalid"))
    ensures ParseFinalize(ErrorReply("validation_failed", "worker_id is invalid")) == ValidationError
  {
    ParsedError("validation_failed", "worker_id is invalid");
  }
}
