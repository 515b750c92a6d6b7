/**
 One logical provider call, `chat_completion_async`. A plan says what other calls do to
 the key pool meanwhile, how long each attempt would take and how it would end; an await
 never lasts longer than its timeout, and code between awaits takes no time.

 `Continue` is the loop as a function of the pool and the plan; the method with the loop
 computes it, and what a call guarantees is proved of it.
 */
module ProviderCalls {
  import opened Options
  import opened KeyPool
  import opened KeyPoolRuns
  import opened Deadlines

  datatype Reply =
    | Response(text: string)
    | ApiTimeout
    | RateLimitReply
    | AuthReply
    | ConnectionReply
    | StatusReply(status: int)
    | UnknownReply
    | CancelReply
    | ClientFailure

  datatype AttemptPlan = AttemptPlan(others: seq<Action>, duration: real, reply: Reply, random: real)

  ghost predicate ValidPlan(p: nat -> AttemptPlan) {
    forall n :: p(n).duration >= 0.0 && 0.0 <= p(n).random < 1.0
  }

  datatype CallResult = Answer(text: string) | PoolExhausted(code: Failure) | RequestError | NoBudget | CallCancelled

  /** What happened in one attempt. */
  datatype Attempt = Attempt(key: Key, start: real, end: real, reply: Reply)

  /** The outcome of a call, or of the rest of one. */
  datatype Call = Call(result: CallResult, end: real, trace: seq<Attempt>, pool: Pool) {
    function After(first: seq<Attempt>): Call {
      this.(trace := first + trace)
    }
  }

  datatype Terms = Terms(c: Config, b: TurnBudget, plan: nat -> AttemptPlan, limit: nat) {
    ghost predicate Valid() {
      c.Valid() && b.reserve == c.commitReserve && ValidPlan(plan)
    }
  }

  /** What the loop makes of a reply that does not end the call. */
  function FailureOf(reply: Reply): Option<Failure> {
    match reply
    case Response(_) => None
    case CancelReply => None
    case ClientFailure => None
    case ApiTimeout => Some(Timeout)
    case RateLimitReply => Some(RateLimit)
    case AuthReply => Some(AuthFailed)
    case ConnectionReply => Some(ConnectionFailed)
    case UnknownReply => Some(ConnectionFailed)
    case StatusReply(status) =>
      Some(if status == 401 then AuthFailed else if status >= 500 then ServerError else InvalidRequest)
  }

  function AttemptLimit(configured: nat, active: nat): nat {
    var n := if active < configured then active else configured;
    if n < 1 then 1 else n
  }

  function ActiveCount(keys: seq<Key>, deactivated: set<Key>): nat {
    if keys == [] then 0
    else ActiveCount(keys[1..], deactivated) + if keys[0] in deactivated then 0 else 1
  }

  // ----- the call as a function

  /** What other calls leave of the pool. */
  function Meanwhile(p: Pool, actions: seq<Action>): (r: Pool)
    requires p.Valid()
    ensures r.Valid() && r.keys == p.keys && r.deactivated >= p.deactivated
    decreases |actions|
  {
    if actions == [] then p
    else
      var q := Meanwhile(p, actions[..|actions| - 1]);
      match actions[|actions| - 1]
      case Take(now, tried) => q.Acquired(tried, now).0
      case Limit(now, k) => q.RateLimited(k, now)
      case Disable(_, k) => q.Deactivated(k)
  }

  /** The bookkeeping after a failed attempt. */
  function Settled(p: Pool, k: Key, reply: Reply, now: real): Pool {
    if reply.RateLimitReply? then p.RateLimited(k, now)
    else if FailureOf(reply) == Some(AuthFailed) then p.Deactivated(k)
    else p
  }

  function AttemptTimeout(t: Terms, now: real): real {
    Min(t.c.attemptTimeout, t.b.BeforeReserve(now))
  }

  /** What comes of an attempt with a key that begins at `now`. */
  function Tried(t: Terms, attempt: nat, key: Key, now: real): Attempt {
    var step, timeout := t.plan(attempt), AttemptTimeout(t, now);
    Attempt(key, now, now + Min(step.duration, timeout), if step.duration <= timeout then step.reply else ApiTimeout)
  }

  /** The time after the pause behind a failed attempt, if there is one. */
  function Rested(t: Terms, attempt: nat, now: real): real {
    var backoff := ComputeBackoff(attempt, t.c.baseBackoff, t.c.maxBackoff, t.c.maxJitter, t.plan(attempt).random);
    if attempt + 1 < t.limit && backoff < AttemptTimeout(t, now) then now + backoff else now
  }

  function Continue(t: Terms, p: Pool, attempt: nat, tried: set<Key>, last: Option<Failure>, now: real): (r: Call)
    requires p.Valid()
    ensures r.pool.Valid() && r.pool.keys == p.keys && r.pool.deactivated >= p.deactivated
    decreases t.limit - attempt
  {
    if attempt >= t.limit then Call(PoolExhausted(if last.Some? then last.value else ConnectionFailed), now, [], p)
    else if AttemptTimeout(t, now) <= 0.0 then Call(NoBudget, now, [], p)
    else
      var (taken, key) := p.Acquired(tried, now);
      if key.None? then Call(PoolExhausted(ExhaustedCode(p, now)), now, [], taken)
      else if t.plan(attempt).reply.ClientFailure? then Call(RequestError, now, [], taken)
      else
        var busy, entry := Meanwhile(taken, t.plan(attempt).others), Tried(t, attempt, key.value, now);
        if entry.reply.CancelReply? then Call(CallCancelled, entry.end, [entry], busy)
        else if entry.reply.Response? then Call(Answer(entry.reply.text), entry.end, [entry], busy)
        else
          Continue(t, Settled(busy, key.value, entry.reply, entry.end), attempt + 1, tried + {key.value},
                   FailureOf(entry.reply), Rested(t, attempt, entry.end)).After([entry])
  }

  /** The whole call: as many attempts as configured, but no more than there are keys in use. */
  function CallFrom(p: Pool, c: Config, b: TurnBudget, now: real, plan: nat -> AttemptPlan): (r: Call)
    requires p.Valid()
    ensures r.pool.Valid()
  {
    Continue(Terms(c, b, plan, AttemptLimit(c.maxAttempts, ActiveCount(p.keys, p.deactivated))), p, 0, {}, None, now)
  }

  // ----- what a call guarantees

  function KeysOf(trace: seq<Attempt>): set<Key> {
    set i | 0 <= i < |trace| :: trace[i].key
  }

  ghost predicate AllFailed(trace: seq<Attempt>) {
    forall i :: 0 <= i < |trace| ==> FailureOf(trace[i].reply).Some?
  }

  /** Different keys, none of them tried before; inside the budget; refused keys are out of use. */
  ghost predicate Fair(trace: seq<Attempt>, b: TurnBudget, tried: set<Key>, deactivated: set<Key>) {
    && (forall i, j :: 0 <= i < j < |trace| ==> trace[i].key != trace[j].key)
    && (forall i :: 0 <= i < |trace| ==> trace[i].key !in tried)
    && (forall i :: 0 <= i < |trace| ==> trace[i].start <= trace[i].end && b.Whole(trace[i].end))
    && (forall i :: 0 <= i < |trace| && FailureOf(trace[i].reply) == Some(AuthFailed) ==> trace[i].key in deactivated)
  }

  /** Each attempt is the plan's, cut off by its timeout, and all before the last one failed. */
  ghost predicate FollowsPlan(t: Terms, trace: seq<Attempt>, attempt: nat) {
    && (forall i :: 0 <= i < |trace| ==> trace[i] == Tried(t, attempt + i, trace[i].key, trace[i].start))
    && (forall i :: 0 <= i < |trace| - 1 ==> FailureOf(trace[i].reply).Some?)
  }

  /**
   Why a call ended. An answer or a cancellation is the last attempt's. Otherwise all attempts
   failed, and either the limit was reached or, before it: the next client could not be
   made, no time was left in front of the reserve, or no key was eligible any more.
   */
  ghost predicate EndedBecause(t: Terms, r: Call, attempt: nat, tried: set<Key>) {
    var n := |r.trace|;
    match r.result
    case Answer(text) => n > 0 && r.trace[n - 1].reply == Response(text)
    case CallCancelled => n > 0 && r.trace[n - 1].reply.CancelReply?
    case RequestError => AllFailed(r.trace) && attempt + n < t.limit && t.plan(attempt + n).reply.ClientFailure?
    case NoBudget => AllFailed(r.trace) && attempt + n < t.limit && r.end == t.b.deadline - t.b.reserve
    case PoolExhausted(code) =>
      && AllFailed(r.trace) && attempt + n <= t.limit
      && (attempt + n == t.limit && n > 0 ==> FailureOf(r.trace[n - 1].reply) == Some(code))
      && (attempt + n < t.limit ==>
          r.pool.NoneEligible(tried + KeysOf(r.trace), r.end) && code == ExhaustedCode(r.pool, r.end))
  }

  ghost predicate Guaranteed(t: Terms, r: Call, attempt: nat, tried: set<Key>, now: real) {
    && now <= r.end && t.b.Whole(r.end) && attempt + |r.trace| <= t.limit
    && Fair(r.trace, t.b, tried, r.pool.deactivated) && FollowsPlan(t, r.trace, attempt)
        && EndedBecause(t, r, attempt, tried)
  }

  lemma NotTried(p: Pool, tried: set<Key>, now: real)
    requires p.Valid() && p.Acquired(tried, now).1.Some?
    ensures p.Acquired(tried, now).1.value !in tried
  {
    hide Wrap;
  }

  lemma NoneLeft(p: Pool, tried: set<Key>, now: real)
    requires p.Valid() && p.Acquired(tried, now).1.None?
    ensures p.Acquired(tried, now).0.NoneEligible(tried, now)
    ensures ExhaustedCode(p.Acquired(tried, now).0, now) == ExhaustedCode(p, now)
  {
    hide Wrap, ExhaustedCode;
    ScanFindsAny(p, tried, now);
    PrunedCode(p, now);
    forall i | 0 <= i < |p.keys| ensures !p.Pruned(now).Eligible(p.keys[i], tried, now) {
      PrunedEligible(p, now, now, p.keys[i], tried);
    }
  }

  lemma AttemptTakesItsTime(t: Terms, attempt: nat, key: Key, now: real)
    requires t.Valid() && t.b.Whole(now) && AttemptTimeout(t, now) > 0.0
    ensures var e := Tried(t, attempt, key, now);
            e.start == now <= e.end && t.b.Whole(e.end) && e.end <= Rested(t, attempt, e.end)
                && t.b.Whole(Rested(t, attempt, e.end))
  {
    hide ComputeBackoff;
    var e, timeout := Tried(t, attempt, key, now), AttemptTimeout(t, now);
    TimedAwaitKeepsReserve(t.b, now, timeout, e.end - now);
    BackoffBounds(attempt, t.c.baseBackoff, t.c.maxBackoff, t.c.maxJitter, t.plan(attempt).random);
    if Rested(t, attempt, e.end) != e.end {
      TimedAwaitKeepsReserve(t.b, e.end, AttemptTimeout(t, e.end), Rested(t, attempt, e.end) - e.end);
    }
  }

  /** A failed attempt in front of a rest that keeps the guarantees. */
  lemma GuaranteedBefore(t: Terms, entry: Attempt, r: Call, attempt: nat, tried: set<Key>, now: real)
    requires Guaranteed(t, r, attempt + 1, tried + {entry.key}, Rested(t, attempt, entry.end))
    requires entry == Tried(t, attempt, entry.key, now) && FailureOf(entry.reply).Some? && entry.key !in tried
    requires now <= entry.end <= Rested(t, attempt, entry.end) && t.b.Whole(entry.end)
    requires FailureOf(entry.reply) == Some(AuthFailed) ==> entry.key in r.pool.deactivated
    requires r.trace == [] && attempt + 1 == t.limit ==> r.result == PoolExhausted(FailureOf(entry.reply).value)
    ensures Guaranteed(t, r.After([entry]), attempt, tried, now)
  {
    hide Tried, FailureOf, Rested, Fair, FollowsPlan, EndedBecause;
    StartOf(t, attempt, entry.key, now);
    FairBefore(entry, r.trace, t.b, tried, r.pool.deactivated);
    FollowsBefore(t, entry, r.trace, attempt);
    EndedBefore(t, entry, r, attempt, tried);
  }

  lemma FairBefore(entry: Attempt, trace: seq<Attempt>, b: TurnBudget, tried: set<Key>, deactivated: set<Key>)
    requires Fair(trace, b, tried + {entry.key}, deactivated) && entry.key !in tried
    requires entry.start <= entry.end && b.Whole(entry.end)
    requires FailureOf(entry.reply) == Some(AuthFailed) ==> entry.key in deactivated
    ensures Fair([entry] + trace, b, tried, deactivated)
  {
    hide FailureOf;
    var all := [entry] + trace;
    assert forall i :: 0 < i < |all| ==> all[i] == trace[i - 1];
  }

  lemma FollowsBefore(t: Terms, entry: Attempt, trace: seq<Attempt>, attempt: nat)
    requires FollowsPlan(t, trace, attempt + 1) && FailureOf(entry.reply).Some?
    requires entry == Tried(t, attempt, entry.key, entry.start)
    ensures FollowsPlan(t, [entry] + trace, attempt)
  {
    hide Tried, FailureOf;
    var all := [entry] + trace;
    forall i | 0 <= i < |all| ensures all[i] == Tried(t, attempt + i, all[i].key, all[i].start) {
      if i > 0 {
        assert all[i] == trace[i - 1] == Tried(t, attempt + 1 + (i - 1), trace[i - 1].key, trace[i - 1].start);
      }
    }
  }

  lemma EndedBefore(t: Terms, entry: Attempt, r: Call, attempt: nat, tried: set<Key>)
    requires EndedBecause(t, r, attempt + 1, tried + {entry.key}) && FailureOf(entry.reply).Some?
    requires r.trace == [] && attempt + 1 == t.limit ==> r.result == PoolExhausted(FailureOf(entry.reply).value)
    ensures EndedBecause(t, r.After([entry]), attempt, tried)
  {
    hide FailureOf, Pool.NoneEligible, ExhaustedCode;
    var s := r.After([entry]);
    assert forall i :: 0 < i < |s.trace| ==> s.trace[i] == r.trace[i - 1];
    KeysOfStep(entry, r.trace);
    assert tried + KeysOf(s.trace) == tried + {entry.key} + KeysOf(r.trace);
  }

  lemma StartOf(t: Terms, attempt: nat, key: Key, now: real)
    ensures Tried(t, attempt, key, now).start == now
  {
  }

  lemma KeysOfStep(entry: Attempt, trace: seq<Attempt>)
    ensures KeysOf([entry] + trace) == {entry.key} + KeysOf(trace)
  {
    var all := [entry] + trace;
    assert all[0] == entry;
    forall k ensures k in KeysOf(all) <==> k == entry.key || k in KeysOf(trace) {
      if k in KeysOf(trace) {
        var i :| 0 <= i < |trace| && trace[i].key == k;
        assert all[i + 1].key == k;
      }
      if k in KeysOf(all) {
        var i :| 0 <= i < |all| && all[i].key == k;
        assert i == 0 || trace[i - 1].key == k;
      }
    }
  }

  /** A call without a failed attempt at its start. */
  lemma GuaranteedAtOnce(t: Terms, p: Pool, attempt: nat, tried: set<Key>, last: Option<Failure>, now: real)
    requires t.Valid() && p.Valid() && t.b.Whole(now) && attempt < t.limit
    requires |Continue(t, p, attempt, tried, last, now).trace| == 0
    ensures Guaranteed(t, Continue(t, p, attempt, tried, last, now), attempt, tried, now)
  {
    hide Pool.Acquired, ExhaustedCode, Pool.NoneEligible, Tried, Rested, Meanwhile;
    TimeLeft(t.b, now);
    var r := Continue(t, p, attempt, tried, last, now);
    assert tried + KeysOf(r.trace) == tried;
    if AttemptTimeout(t, now) > 0.0 && p.Acquired(tried, now).1.None? {
      NoneLeft(p, tried, now);
    }
  }

  /** An attempt that ends the call. */
  lemma GuaranteedAtLast(t: Terms, entry: Attempt, result: CallResult, pool: Pool, attempt: nat, tried: set<Key>,
      now: real)
    requires entry == Tried(t, attempt, entry.key, now) && entry.start == now <= entry.end && t.b.Whole(entry.end)
    requires attempt < t.limit && entry.key !in tried
    requires entry.reply.Response? || entry.reply.CancelReply?
    requires result == if entry.reply.Response? then Answer(entry.reply.text) else CallCancelled
    ensures Guaranteed(t, Call(result, entry.end, [entry], pool), attempt, tried, now)
  {
    hide Tried;
  }

  /** One turn of the loop, when an attempt takes place. */
  lemma ContinueStep(t: Terms, p: Pool, attempt: nat, tried: set<Key>, last: Option<Failure>, now: real)
    requires p.Valid() && attempt < t.limit && AttemptTimeout(t, now) > 0.0
    requires p.Acquired(tried, now).1.Some? && !t.plan(attempt).reply.ClientFailure?
    ensures var (taken, key) := p.Acquired(tried, now);
            var busy, entry := Meanwhile(taken, t.plan(attempt).others), Tried(t, attempt, key.value, now);
            Continue(t, p, attempt, tried, last, now) ==
            if entry.reply.CancelReply? then Call(CallCancelled, entry.end, [entry], busy)
            else if entry.reply.Response? then Call(Answer(entry.reply.text), entry.end, [entry], busy)
            else Continue(t, Settled(busy, key.value, entry.reply, entry.end), attempt + 1, tried + {key.value},
                          FailureOf(entry.reply), Rested(t, attempt, entry.end)).After([entry])
  {
    hide Pool.Acquired, AttemptTimeout, Tried, Rested, Meanwhile, Settled, FailureOf;
  }

  lemma NoAttempt(t: Terms, p: Pool, attempt: nat, tried: set<Key>, last: Option<Failure>, now: real)
    requires p.Valid() && attempt < t.limit
    requires AttemptTimeout(t, now) <= 0.0 || p.Acquired(tried, now).1.None? || t.plan(attempt).reply.ClientFailure?
    ensures Continue(t, p, attempt, tried, last, now).trace == []
  {
    hide Pool.Acquired, AttemptTimeout, Tried, Rested, Meanwhile, Settled, FailureOf;
  }

  /** Every call, from any point of its loop on, keeps its guarantees. */
  lemma {:induction false} CallsKeepTheirWord(t: Terms, p: Pool, attempt: nat, tried: set<Key>, last: Option<Failure>,
      now: real)
    requires t.Valid() && p.Valid() && t.b.Whole(now) && attempt <= t.limit
    ensures Guaranteed(t, Continue(t, p, attempt, tried, last, now), attempt, tried, now)
    decreases t.limit - attempt
  {
    hide Pool.Acquired, AttemptTimeout, Tried, Rested, Meanwhile, Settled, Continue, Guaranteed, FailureOf;
    if attempt == t.limit {
      AtTheLimit(t, p, attempt, tried, last, now);
    } else if AttemptTimeout(t, now) <= 0.0 || p.Acquired(tried, now).1.None? || t.plan(attempt).reply.ClientFailure? {
      NoAttempt(t, p, attempt, tried, last, now);
      GuaranteedAtOnce(t, p, attempt, tried, last, now);
    } else {
      var (taken, key) := p.Acquired(tried, now);
      var busy, entry := Meanwhile(taken, t.plan(attempt).others), Tried(t, attempt, key.value, now);
      NotTried(p, tried, now);
      AttemptTakesItsTime(t, attempt, key.value, now);
      KeyOf(t, attempt, key.value, now);
      ContinueStep(t, p, attempt, tried, last, now);
      if entry.reply.Response? {
        GuaranteedAtLast(t, entry, Answer(entry.reply.text), busy, attempt, tried, now);
      } else if entry.reply.CancelReply? {
        GuaranteedAtLast(t, entry, CallCancelled, busy, attempt, tried, now);
      } else {
        var settled, next := Settled(busy, key.value, entry.reply, entry.end), Rested(t, attempt, entry.end);
        FailedReply(entry.reply);
        SettledDeactivates(busy, key.value, entry.reply, entry.end);
        CallsKeepTheirWord(t, settled, attempt + 1, tried + {key.value}, FailureOf(entry.reply), next);
        var rest := Continue(t, settled, attempt + 1, tried + {key.value}, FailureOf(entry.reply), next);
        AtTheEnd(t, settled, attempt + 1, tried + {key.value}, FailureOf(entry.reply), next);
        GuaranteedBefore(t, entry, rest, attempt, tried, now);
      }
    }
  }

  lemma FailedReply(reply: Reply)
    requires !reply.Response? && !reply.CancelReply? && !reply.ClientFailure?
    ensures FailureOf(reply).Some?
  {
  }

  lemma AtTheEnd(t: Terms, p: Pool, attempt: nat, tried: set<Key>, last: Option<Failure>, now: real)
    requires p.Valid() && last.Some?
    ensures attempt == t.limit ==> Continue(t, p, attempt, tried, last, now).result == PoolExhausted(last.value)
  {
  }

  lemma AtTheLimit(t: Terms, p: Pool, attempt: nat, tried: set<Key>, last: Option<Failure>, now: real)
    requires p.Valid() && attempt == t.limit && t.b.Whole(now)
    ensures Guaranteed(t, Continue(t, p, attempt, tried, last, now), attempt, tried, now)
  {
  }

  lemma KeyOf(t: Terms, attempt: nat, key: Key, now: real)
    ensures Tried(t, attempt, key, now).key == key
    ensures Tried(t, attempt, key, now).reply.ClientFailure? ==> t.plan(attempt).reply.ClientFailure?
  {
  }

  lemma SettledDeactivates(p: Pool, k: Key, reply: Reply, now: real)
    requires p.Valid()
    ensures Settled(p, k, reply, now).Valid()
    ensures FailureOf(reply) == Some(AuthFailed) ==> k in Settled(p, k, reply, now).deactivated
  {
  }

  // ----- what a call guarantees, without its limit

  /** The positions of the keys in use. */
  function Usable(p: Pool): set<nat> {
    set i: nat | i < |p.keys| && p.keys[i] !in p.deactivated
  }

  lemma {:induction false} ActivePositions(p: Pool, j: nat)
    requires j <= |p.keys|
    ensures ActiveCount(p.keys[j..], p.deactivated) == |set i: nat | j <= i < |p.keys| && p.keys[i] !in p.deactivated|
    decreases |p.keys| - j
  {
    var now := set i: nat | j <= i < |p.keys| && p.keys[i] !in p.deactivated;
    if j == |p.keys| {
      assert now == {};
    } else {
      ActivePositions(p, j + 1);
      assert p.keys[j..][1..] == p.keys[j + 1..];
      var rest := set i: nat | j + 1 <= i < |p.keys| && p.keys[i] !in p.deactivated;
      if p.keys[j] in p.deactivated {
        assert now == rest;
      } else {
        assert now == rest + {j};
      }
    }
  }

  lemma LimitOf(c: Config, p: Pool)
    requires c.maxAttempts >= 1
    ensures var limit := AttemptLimit(c.maxAttempts, ActiveCount(p.keys, p.deactivated));
            && 1 <= limit <= c.maxAttempts
            && (|Usable(p)| > 0 ==> limit <= |Usable(p)| && (limit == c.maxAttempts || limit == |Usable(p)|))
  {
    ActivePositions(p, 0);
    assert p.keys[0..] == p.keys;
    assert Usable(p) == set i: nat | 0 <= i < |p.keys| && p.keys[i] !in p.deactivated;
  }

  /** How a call ends whose last attempt failed, by the reply that it got. */
  function ExhaustedBy(reply: Reply): Option<CallResult> {
    match reply
    case RateLimitReply => Some(PoolExhausted(RateLimit))
    case ApiTimeout => Some(PoolExhausted(Timeout))
    case AuthReply => Some(PoolExhausted(AuthFailed))
    case StatusReply(status) =>
      Some(PoolExhausted(if status == 401 then AuthFailed else if status >= 500 then ServerError else InvalidRequest))
    case ConnectionReply => Some(PoolExhausted(ConnectionFailed))
    case UnknownReply => Some(PoolExhausted(ConnectionFailed))
    case Response(_) => None
    case CancelReply => None
    case ClientFailure => None
  }

  /**
   How many attempts a call makes and why no more. At most as many as configured and as there
   are keys in use. If all of them failed and there were fewer, then the next client could not be
   made, no time was left in front of the reserve, or every key was out of use, cooling down
   or tried; if there were as many, the last failure is the code.
   */
  ghost predicate AsManyAsAllowed(p: Pool, c: Config, b: TurnBudget, plan: nat -> AttemptPlan, r: Call) {
    var n, usable := |r.trace|, |Usable(p)|;
    && n <= c.maxAttempts && n <= usable
    && (AllFailed(r.trace) && n < c.maxAttempts && n < usable ==>
          || (r.result == RequestError && plan(n).reply == ClientFailure)
          || (r.result == NoBudget && r.end == b.deadline - b.reserve)
          || (r.result.PoolExhausted? && forall i :: 0 <= i < |r.pool.keys| ==>
                var k := r.pool.keys[i];
                || k in r.pool.deactivated || (k in r.pool.cooldowns && r.end < r.pool.cooldowns[k])
                || exists j :: 0 <= j < n && r.trace[j].key == k))
    && (AllFailed(r.trace) && n > 0 && (n == c.maxAttempts || n == usable) ==>
          Some(r.result) == ExhaustedBy(r.trace[n - 1].reply))
    && (usable == 0 ==> r.result == NoBudget || r.result == PoolExhausted(AuthFailed))
  }

  lemma CallIsAsLongAsAllowed(p: Pool, c: Config, b: TurnBudget, start: real, plan: nat -> AttemptPlan)
    requires p.Valid() && c.Valid() && b.reserve == c.commitReserve && b.Whole(start) && ValidPlan(plan)
    ensures AsManyAsAllowed(p, c, b, plan, CallFrom(p, c, b, start, plan))
  {
    hide Continue, AttemptLimit, ActiveCount, Usable, Fair, FollowsPlan, ExhaustedCode, FailureOf, EndedBecause,
         AllFailed, KeysOf;
    var limit := AttemptLimit(c.maxAttempts, ActiveCount(p.keys, p.deactivated));
    var t := Terms(c, b, plan, limit);
    LimitOf(c, p);
    CallsKeepTheirWord(t, p, 0, {}, None, start);
    var r := CallFrom(p, c, b, start, plan);
    if |Usable(p)| == 0 {
      NothingUsable(t, p, start);
    }
    if AllFailed(r.trace) {
      ReasonsToEnd(t, r);
    }
  }

  lemma NothingUsable(t: Terms, p: Pool, now: real)
    requires p.Valid() && |Usable(p)| == 0 && t.limit >= 1
    ensures var r := Continue(t, p, 0, {}, None, now);
            r.trace == [] && (r.result == NoBudget || r.result == PoolExhausted(AuthFailed))
  {
    hide Continue, AttemptTimeout;
    forall i | 0 <= i < |p.keys| ensures p.keys[i] in p.deactivated {
      assert i !in Usable(p);
    }
    AcquiresIfAny(p, {}, now);
    EarlyEnd(t, p, 0, {}, None, now);
  }

  lemma ReasonsToEnd(t: Terms, r: Call)
    requires EndedBecause(t, r, 0, {}) && AllFailed(r.trace) && |r.trace| <= t.limit
    ensures var n := |r.trace|;
            && (n < t.limit ==>
                  || (r.result == RequestError && t.plan(n).reply == ClientFailure)
                  || (r.result == NoBudget && r.end == t.b.deadline - t.b.reserve)
                  || (r.result.PoolExhausted? && forall i :: 0 <= i < |r.pool.keys| ==>
                        var k := r.pool.keys[i];
                        || k in r.pool.deactivated || (k in r.pool.cooldowns && r.end < r.pool.cooldowns[k])
                        || exists j :: 0 <= j < n && r.trace[j].key == k))
            && (n == t.limit > 0 ==> Some(r.result) == ExhaustedBy(r.trace[n - 1].reply))
  {
    hide ExhaustedCode;
    assert {} + KeysOf(r.trace) == KeysOf(r.trace);
    if |r.trace| < t.limit && r.result.PoolExhausted? {
      forall i | 0 <= i < |r.pool.keys|
        ensures var k := r.pool.keys[i];
                || k in r.pool.deactivated || (k in r.pool.cooldowns && r.end < r.pool.cooldowns[k])
                || exists j :: 0 <= j < |r.trace| && r.trace[j].key == k
      {
        assert !r.pool.Eligible(r.pool.keys[i], KeysOf(r.trace), r.end);
      }
    }
  }

  // ----- the loop

  /** Other calls use the pool. */
  method Others(pool: KeyManager, actions: seq<Action>)
    requires pool.Valid()
    modifies pool
    ensures pool.Valid() && pool.Contents() == Meanwhile(old(pool.Contents()), actions)
  {
    hide Pool.Acquired, Pool.NoneEligible, Pool.Eligible, ExhaustedCode;
    ghost var p := pool.Contents();
    var i := 0;
    assert actions[..0] == [];
    while i < |actions|
      invariant i <= |actions| && pool.Valid() && pool.Contents() == Meanwhile(p, actions[..i])
    {
      assert actions[..i + 1][..i] == actions[..i];
      match actions[i] {
        case Take(now, tried) => var _ := pool.AcquireNextKey(tried, now);
        case Limit(now, k) => pool.MarkKeyRateLimited(k, now);
        case Disable(_, k) => pool.DeactivateKey(k);
      }
      i := i + 1;
    }
    assert actions[..i] == actions;
  }

  /** The handlers of a failed attempt: which failures deactivate, cool down or only count. */
  method Settle(pool: KeyManager, k: Key, reply: Reply, now: real) returns (failure: Failure)
    requires pool.Valid() && !reply.Response? && !reply.CancelReply? && !reply.ClientFailure?
    modifies pool
    ensures pool.Valid() && FailureOf(reply) == Some(failure)
    ensures pool.Contents() == Settled(old(pool.Contents()), k, reply, now)
    ensures failure == RateLimit <==> reply == RateLimitReply
    ensures failure == Timeout <==> reply == ApiTimeout
    ensures failure == AuthFailed <==> reply == AuthReply || reply == StatusReply(401)
    ensures failure == ServerError <==> reply.StatusReply? && reply.status >= 500
    ensures failure == ConnectionFailed <==> reply == ConnectionReply || reply == UnknownReply
    ensures pool.index == old(pool.index)
    ensures pool.deactivated == old(pool.deactivated) + if failure == AuthFailed then {k} else {}
    ensures pool.cooldowns == if failure == RateLimit then old(pool.cooldowns)[k := now + 10.0] else old(pool.cooldowns)
  {
    match reply {
      case ApiTimeout => failure := Timeout;
      case RateLimitReply =>
        pool.MarkKeyRateLimited(k, now);
        failure := RateLimit;
      case AuthReply =>
        pool.DeactivateKey(k);
        failure := AuthFailed;
      case ConnectionReply => failure := ConnectionFailed;
      case StatusReply(status) =>
        if status == 401 {
          pool.DeactivateKey(k);
          failure := AuthFailed;
        } else if status >= 500 {
          failure := ServerError;
        } else {
          failure := InvalidRequest;
        }
      case UnknownReply => failure := ConnectionFailed;
    }
  }

  /** What is still to come is what the whole call has left. */
  lemma AfterTwice(r: Call, a: seq<Attempt>, b: seq<Attempt>)
    ensures r.After(a).After(b) == r.After(b + a)
  {
    assert b + (a + r.trace) == b + a + r.trace;
  }

  /**
   The call: it computes `Continue`, so it keeps all guarantees. No key is used twice, every
   attempt and backoff ends with the reserve whole, attempts follow the plan, and the end has its reason.
   */
  method ChatCompletion(pool: KeyManager, c: Config, b: TurnBudget, start: real, plan: nat -> AttemptPlan)
    returns (r: CallResult, end: real, ghost trace: seq<Attempt>)
    requires pool.Valid() && c.Valid() && b.reserve == c.commitReserve && b.Whole(start) && ValidPlan(plan)
    modifies pool
    ensures pool.Valid()
    ensures Call(r, end, trace, pool.Contents()) == CallFrom(old(pool.Contents()), c, b, start, plan)
    ensures AsManyAsAllowed(old(pool.Contents()), c, b, plan, Call(r, end, trace, pool.Contents()))
    ensures var t := Terms(c, b, plan, AttemptLimit(c.maxAttempts, ActiveCount(pool.keys, old(pool.deactivated))));
            Guaranteed(t, Call(r, end, trace, pool.Contents()), 0, {}, start)
  {
    hide Pool.Acquired, Wrap, FailureOf, Pool.Scan, Pool.NoneEligible, ExhaustedCode, AttemptLimit, ActiveCount,
         ComputeBackoff,
         Meanwhile, Settled, Guaranteed, Continue, AsManyAsAllowed;
    var limit := AttemptLimit(c.maxAttempts, ActiveCount(pool.keys, pool.deactivated));
    ghost var t, whole := Terms(c, b, plan, limit),
        Continue(Terms(c, b, plan, limit), pool.Contents(), 0, {}, None, start);
    CallsKeepTheirWord(t, pool.Contents(), 0, {}, None, start);
    CallIsAsLongAsAllowed(pool.Contents(), c, b, start, plan);
    var tried: set<Key> := {};
    var lastFailure: Option<Failure> := None;
    end, trace := start, [];
    var attempt := 0;
    while attempt < limit
      invariant pool.Valid() && attempt <= limit
      invariant whole == Continue(t, pool.Contents(), attempt, tried, lastFailure, end).After(trace)
    {
      var timeout := Min(c.attemptTimeout, b.BeforeReserve(end));
      ghost var before := pool.Contents();
      if timeout <= 0.0 {
        EarlyEnd(t, before, attempt, tried, lastFailure, end);
        return NoBudget, end, trace;
      }
      var got := pool.AcquireNextKey(tried, end);
      if got.Exhausted? {
        EarlyEnd(t, before, attempt, tried, lastFailure, end);
        return PoolExhausted(got.code), end, trace;
      }
      var p := plan(attempt);
      if p.reply.ClientFailure? {
        EarlyEnd(t, before, attempt, tried, lastFailure, end);
        return RequestError, end, trace;
      }
      ContinueStep(t, before, attempt, tried, lastFailure, end);
      Others(pool, p.others);
      var reply := if p.duration <= timeout then p.reply else ApiTimeout;
      var finish := end + Min(p.duration, timeout);
      ghost var entry := Attempt(got.key, end, finish, reply);
      assert entry == Tried(t, attempt, got.key, end);
      if reply.CancelReply? {
        return CallCancelled, finish, trace + [entry];
      }
      if reply.Response? {
        return Answer(reply.text), finish, trace + [entry];
      }
      var failure := Settle(pool, got.key, reply, finish);
      end := finish;
      if attempt < limit - 1 {
        var left := Min(c.attemptTimeout, b.BeforeReserve(end));
        var backoff := ComputeBackoff(attempt, c.baseBackoff, c.maxBackoff, c.maxJitter, p.random);
        if backoff < left {
          end := end + backoff;
        }
      }
      AfterTwice(Continue(t, pool.Contents(), attempt + 1, tried + {got.key}, Some(failure), end), [entry], trace);
      tried, lastFailure := tried + {got.key}, Some(failure);
      trace := trace + [entry];
      attempt := attempt + 1;
    }
    EarlyEnd(t, pool.Contents(), attempt, tried, lastFailure, end);
    r := PoolExhausted(if lastFailure.Some? then lastFailure.value else ConnectionFailed);
  }

  /** The loop without a further attempt. */
  lemma EarlyEnd(t: Terms, p: Pool, attempt: nat, tried: set<Key>, last: Option<Failure>, now: real)
    requires p.Valid()
    ensures var r := Continue(t, p, attempt, tried, last, now); var (taken, key) := p.Acquired(tried, now);
            && (attempt >= t.limit ==>
                r == Call(PoolExhausted(if last.Some? then last.value else ConnectionFailed), now, [], p))
            && (attempt < t.limit && AttemptTimeout(t, now) <= 0.0 ==> r == Call(NoBudget, now, [], p))
            && (attempt < t.limit && AttemptTimeout(t, now) > 0.0 && key.None? ==>
                r == Call(PoolExhausted(ExhaustedCode(p, now)), now, [], taken))
            && (attempt < t.limit && AttemptTimeout(t, now) > 0.0 && key.Some? ==>
                t.plan(attempt).reply.ClientFailure? ==> r == Call(RequestError, now, [], taken))
  {
    hide Pool.Acquired, AttemptTimeout, Tried, Rested, Meanwhile, Settled, FailureOf;
  }

  // ----- a refused request is not terminal

  /** Exactly when the loop makes no further attempt. */
  lemma NoAttemptExactly(t: Terms, p: Pool, attempt: nat, tried: set<Key>, last: Option<Failure>, now: real)
    requires p.Valid() && attempt <= t.limit
    ensures Continue(t, p, attempt, tried, last, now).trace == [] <==>
            || attempt == t.limit || AttemptTimeout(t, now) <= 0.0
            || p.NoneEligible(tried, now) || t.plan(attempt).reply.ClientFailure?
  {
    hide Pool.Acquired, AttemptTimeout, Continue, Tried, Rested, Meanwhile, Settled, FailureOf, Pool.NoneEligible;
    AcquiresIfAny(p, tried, now);
    EarlyEnd(t, p, attempt, tried, last, now);
    if attempt < t.limit && AttemptTimeout(t, now) > 0.0 && p.Acquired(tried, now).1.Some?
        && !t.plan(attempt).reply.ClientFailure? {
      ContinueStep(t, p, attempt, tried, last, now);
    }
  }

  lemma AcquiresIfAny(p: Pool, tried: set<Key>, now: real)
    requires p.Valid()
    ensures p.Acquired(tried, now).1.None? <==> p.NoneEligible(tried, now)
  {
    hide Wrap, Pool.NoneEligible;
    ScanFindsAny(p, tried, now);
  }

  /**
   After a client error other than 401 the call goes on. It makes no further attempt exactly if
   it has none left, no time is left after the pause, no other key is eligible by then, or
   the next client can not be made.
   */
  lemma ClientErrorGoesOn(
    t: Terms, p: Pool, attempt: nat, tried: set<Key>, last: Option<Failure>, now: real, status: int)
    requires p.Valid() && attempt < t.limit && AttemptTimeout(t, now) > 0.0
    requires p.Acquired(tried, now).1.Some? && 400 <= status < 500 && status != 401
    requires t.plan(attempt).reply == StatusReply(status) && t.plan(attempt).duration <= AttemptTimeout(t, now)
    ensures var (taken, key) := p.Acquired(tried, now);
            var q := Meanwhile(taken, t.plan(attempt).others);
            var next := Rested(t, attempt, now + t.plan(attempt).duration);
            var trace := Continue(t, p, attempt, tried, last, now).trace;
            && trace != [] && trace[0].key == key.value && trace[0].reply == StatusReply(status)
            && (|trace| == 1 <==>
                  || attempt + 1 == t.limit || AttemptTimeout(t, next) <= 0.0
                  || q.NoneEligible(tried + {key.value}, next) || t.plan(attempt + 1).reply.ClientFailure?)
  {
    hide Pool.Acquired, AttemptTimeout, Rested, Meanwhile, Continue, Pool.NoneEligible;
    ContinueStep(t, p, attempt, tried, last, now);
    var (taken, key) := p.Acquired(tried, now);
    var q := Meanwhile(taken, t.plan(attempt).others);
    var next := Rested(t, attempt, now + t.plan(attempt).duration);
    NoAttemptExactly(t, q, attempt + 1, tried + {key.value}, Some(InvalidRequest), next);
  }
}
