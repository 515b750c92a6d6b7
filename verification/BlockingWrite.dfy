/**
 `run_blocking_write`: a write in a worker thread that its coroutine never abandons.
 The schedule lists the moments at which the coroutine resumes from its shielded await,
 each with the cancellation delivered there, if any, and whether the worker has finished.
 */
module BlockingWrite {
  import opened Options

  /** How the worker ends; its own cancellation reaches the await like an outside one. */
  datatype WorkerOutcome = Value(value: int) | Allowlisted(error: string) | TurnError(error: string)
      | OtherError(error: string) | WorkerCancelled

  datatype Wake = Wake(cancel: Option<nat>, finished: bool)

  datatype Result =
    | Returned(value: int)
    | Raised(error: string)
    | PersistenceUnavailable
    | DeadlineExceeded
    | Cancelled(request: nat)
    | CancelledWithWorker

  /** Every resumption has a cause, and the worker finishes in the end. */
  predicate Plausible(wakes: seq<Wake>) {
    && (exists i :: 0 <= i < |wakes| && wakes[i].finished)
    && forall i :: 0 <= i < |wakes| ==> wakes[i].cancel.Some? || wakes[i].finished
  }

  /** The first moment at which the worker has finished. */
  ghost predicate FirstFinished(wakes: seq<Wake>, n: nat) {
    n < |wakes| && wakes[n].finished && forall i :: 0 <= i < n ==> !wakes[i].finished
  }

  ghost predicate FirstCancel(wakes: seq<Wake>, n: nat, request: nat) {
    exists k :: 0 <= k <= n < |wakes| && wakes[k].cancel == Some(request) && forall i :: 0 <= i < k ==>
        wakes[i].cancel.None?
  }

  ghost predicate NoCancel(wakes: seq<Wake>, n: nat) {
    n < |wakes| && forall i :: 0 <= i <= n ==> wakes[i].cancel.None?
  }

  /** What the caller sees of an outcome when nobody cancelled. */
  function Classified(outcome: WorkerOutcome): Result {
    match outcome
    case Value(v) => Returned(v)
    case Allowlisted(e) => Raised(e)
    case TurnError(e) => Raised(e)
    case OtherError(_) => PersistenceUnavailable
    case WorkerCancelled => CancelledWithWorker
  }

  /**
   The coroutine ends with the first resumption at which the worker has finished, `at`,
   never before; the outcome is always retrieved; the first cancellation wins, and without
   one the outcome is returned or classified. An exhausted budget starts no worker.
   */
  method RunBlockingWrite(remaining: real, wakes: seq<Wake>, outcome: WorkerOutcome)
    returns (r: Result, started: bool, retrieved: bool, at: nat)
    requires Plausible(wakes)
    ensures started <==> remaining > 0.0
    ensures !started ==> r == DeadlineExceeded
    ensures started ==> retrieved && FirstFinished(wakes, at)
    ensures started && NoCancel(wakes, at) ==>
              match outcome
              case Value(v) => r == Returned(v)
              case Allowlisted(e) => r == Raised(e)
              case TurnError(e) => r == Raised(e)
              case OtherError(_) => r == PersistenceUnavailable
              case WorkerCancelled => r == CancelledWithWorker
    ensures started && !NoCancel(wakes, at) ==> r.Cancelled? && FirstCancel(wakes, at, r.request)
  {
    at, retrieved := 0, false;
    if remaining <= 0.0 {
      return DeadlineExceeded, false, false, 0;
    }
    started := true;
    var originalCancel: Option<Result> := None;
    var workerError: Option<WorkerOutcome> := None;
    var workerValue: Option<int> := None;
    var finished := false;
    var next := 0;
    while !finished && workerError.None?
      invariant next <= |wakes|
      invariant finished ==> next > 0 && FirstFinished(wakes, next - 1)
      invariant !finished ==> forall i :: 0 <= i < next ==> !wakes[i].finished
      invariant workerError.Some? ==>
                  finished && workerError.value == outcome && !outcome.Value? && !outcome.WorkerCancelled?
      invariant workerValue.Some? ==> finished && outcome == Value(workerValue.value)
      invariant originalCancel.None? ==> next == 0 || NoCancel(wakes, next - 1)
      invariant originalCancel.Some? ==>
                  next > 0 && (originalCancel.value.Cancelled? || originalCancel.value == CancelledWithWorker)
      invariant originalCancel.Some? && originalCancel.value.Cancelled? ==>
                  FirstCancel(wakes, next - 1, originalCancel.value.request)
      invariant originalCancel == Some(CancelledWithWorker) ==>
                  finished && outcome.WorkerCancelled? && NoCancel(wakes, next - 1)
      decreases |wakes| - next
    {
      var wake := wakes[next];
      finished := wake.finished;
      next := next + 1;
      if wake.cancel.Some? {
        if originalCancel.None? {
          originalCancel := Some(Cancelled(wake.cancel.value));
          assert wakes[next - 1].cancel == Some(originalCancel.value.request);
        }
      } else {
        match outcome {
          case Value(v) => workerValue := Some(v);
          case WorkerCancelled =>
            if originalCancel.None? {
              originalCancel := Some(CancelledWithWorker);
            }
          case _ => workerError := Some(outcome);
        }
      }
    }
    at := next - 1;
    if finished && workerError.None? {
      match outcome {
        case Value(v) => workerValue := Some(v);
        case _ => workerError := Some(outcome);
      }
    }
    retrieved := workerError.Some? || workerValue.Some?;
    if originalCancel.Some? {
      return originalCancel.value, started, retrieved, at;
    }
    if workerError.Some? {
      return Classified(workerError.value), started, retrieved, at;
    }
    r := Returned(workerValue.value);
  }

  /** A cancellation delivered before the worker finished is always answered, by the first of its kind. */
  lemma CancellationIsNeverLost(wakes: seq<Wake>, n: nat, k: nat)
    requires FirstFinished(wakes, n) && k <= n && wakes[k].cancel.Some?
    ensures exists request :: FirstCancel(wakes, n, request)
  {
    var j := k;
    while j > 0 && exists i :: 0 <= i < j && wakes[i].cancel.Some?
      invariant 0 <= j <= k && wakes[j].cancel.Some?
    {
      var i :| 0 <= i < j && wakes[i].cancel.Some?;
      j := i;
    }
    assert FirstCancel(wakes, n, wakes[j].cancel.value);
  }
}
