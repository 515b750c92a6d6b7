/** The awaits of a whole turn in order: lock, two reads, two provider calls and the commit, at most twice. */
module TurnTiming {
  import opened Options
  import opened KeyPool
  import opened Deadlines
  import opened ProviderCalls
  import TurnProtocol

  /** How one attempt would go: durations of its awaits, and whether its commit meets a newer revision. */
  datatype Round = Round(
    load: real, context: real, appraise: nat -> AttemptPlan, generate: nat -> AttemptPlan, commit: real, mismatch: bool)

  ghost predicate ValidRound(r: Round) {
    r.load >= 0.0 && r.context >= 0.0 && r.commit >= 0.0 && ValidPlan(r.appraise) && ValidPlan(r.generate)
  }

  // ----- a turn as a function of pool and plan

  /** When a read ends, and whether in time: its timeout never reaches into the reserve. */
  function ReadEnd(c: Config, b: TurnBudget, now: real, duration: real): (bool, real) {
    var timeout := Min(b.BeforeReserve(now), c.supabaseTimeout);
    if timeout <= 0.0 then (false, now) else (duration <= timeout, now + Min(duration, timeout))
  }

  datatype Preparation = Preparation(ok: bool, end: real, pool: Pool)

  /** Everything before the commit: two reads and two calls, as far as it gets. */
  function Prepared(p: Pool, c: Config, b: TurnBudget, now: real, r: Round): (q: Preparation)
    requires p.Valid()
    ensures q.pool.Valid()
  {
    var (loaded, t1) := ReadEnd(c, b, now, r.load);
    if !loaded then Preparation(false, t1, p)
    else
      var (read, t2) := ReadEnd(c, b, t1, r.context);
      if !read then Preparation(false, t2, p)
      else
        var appraised := CallFrom(p, c, b, t2, r.appraise);
        if !appraised.result.Answer? then Preparation(false, appraised.end, appraised.pool)
        else
          var generated := CallFrom(appraised.pool, c, b, appraised.end, r.generate);
          Preparation(generated.result.Answer?, generated.end, generated.pool)
  }

  /** When the commits of a turn start, when it ends, and what it leaves of the pool. */
  datatype Timeline = Timeline(commits: seq<real>, end: real, pool: Pool)

  function FromAttempt(p: Pool, c: Config, b: TurnBudget, rounds: nat -> Round, attempt: nat, now: real): (r: Timeline)
    requires p.Valid()
    ensures r.pool.Valid()
    decreases TurnProtocol.MAX_COMMIT_ATTEMPTS - attempt
  {
    if b.BeforeReserve(now) <= 0.0 then Timeline([], now, p)
    else
      var q := Prepared(p, c, b, now, rounds(attempt));
      var after := q.end + rounds(attempt).commit;
      if !q.ok then Timeline([], q.end, q.pool)
      else if !rounds(attempt).mismatch || attempt >= TurnProtocol.MAX_COMMIT_ATTEMPTS || b.BeforeReserve(after) <= 0.0
      then Timeline([q.end], after, q.pool)
      else
        var rest := FromAttempt(q.pool, c, b, rounds, attempt + 1, after);
        rest.(commits := [q.end] + rest.commits)
  }

  function BudgetOf(c: Config, start: real): TurnBudget {
    TurnBudget(start + c.totalDeadline, c.commitReserve)
  }

  /** The whole turn, from the wait for the user's lock on. */
  function TimelineOf(p: Pool, c: Config, start: real, lockWait: real, rounds: nat -> Round): (r: Timeline)
    requires p.Valid()
    ensures r.pool.Valid()
  {
    var b := BudgetOf(c, start);
    var timeout := b.BeforeReserve(start);
    if lockWait > timeout then Timeline([], start + timeout, p)
    else FromAttempt(p, c, b, rounds, 1, start + lockWait)
  }

  // ----- what every turn guarantees

  lemma ReadKeepsReserve(c: Config, b: TurnBudget, now: real, duration: real)
    requires c.Valid() && b.reserve == c.commitReserve && b.Whole(now) && duration >= 0.0
    ensures now <= ReadEnd(c, b, now, duration).1 && b.Whole(ReadEnd(c, b, now, duration).1)
  {
    var timeout := Min(b.BeforeReserve(now), c.supabaseTimeout);
    if timeout > 0.0 {
      TimedAwaitKeepsReserve(b, now, timeout, Min(duration, timeout));
    }
  }

  lemma CallKeepsReserve(p: Pool, c: Config, b: TurnBudget, now: real, plan: nat -> AttemptPlan)
    requires p.Valid() && c.Valid() && b.reserve == c.commitReserve && b.Whole(now) && ValidPlan(plan)
    ensures now <= CallFrom(p, c, b, now, plan).end && b.Whole(CallFrom(p, c, b, now, plan).end)
  {
    hide Continue, Fair, FollowsPlan, EndedBecause;
    var t := Terms(c, b, plan, AttemptLimit(c.maxAttempts, ActiveCount(p.keys, p.deactivated)));
    CallsKeepTheirWord(t, p, 0, {}, None, now);
  }

  lemma PreparationKeepsReserve(p: Pool, c: Config, b: TurnBudget, now: real, r: Round)
    requires p.Valid() && c.Valid() && b.reserve == c.commitReserve && b.Whole(now) && ValidRound(r)
    ensures now <= Prepared(p, c, b, now, r).end && b.Whole(Prepared(p, c, b, now, r).end)
  {
    hide CallFrom, ReadEnd;
    ReadKeepsReserve(c, b, now, r.load);
    var t1 := ReadEnd(c, b, now, r.load).1;
    ReadKeepsReserve(c, b, t1, r.context);
    var t2 := ReadEnd(c, b, t1, r.context).1;
    CallKeepsReserve(p, c, b, t2, r.appraise);
    var appraised := CallFrom(p, c, b, t2, r.appraise);
    CallKeepsReserve(appraised.pool, c, b, appraised.end, r.generate);
  }

  /** Every commit starts with the reserve whole; the turn ends with it or with its last commit. */
  ghost predicate Timely(r: Timeline, b: TurnBudget, rounds: nat -> Round, attempt: nat) {
    && (forall i :: 0 <= i < |r.commits| ==> b.Whole(r.commits[i]))
    && |r.commits| <= TurnProtocol.MAX_COMMIT_ATTEMPTS + 1 - attempt
    && (b.Whole(r.end) ||
        (r.commits != [] && r.end == r.commits[|r.commits| - 1] + rounds(attempt + |r.commits| - 1).commit))
  }

  lemma {:induction false} AttemptsAreTimely(
    p: Pool, c: Config, b: TurnBudget, rounds: nat -> Round, attempt: nat, now: real)
    requires p.Valid() && c.Valid() && b.reserve == c.commitReserve && b.Whole(now)
    requires 1 <= attempt <= TurnProtocol.MAX_COMMIT_ATTEMPTS
    requires forall n :: ValidRound(rounds(n))
    ensures Timely(FromAttempt(p, c, b, rounds, attempt, now), b, rounds, attempt)
    decreases TurnProtocol.MAX_COMMIT_ATTEMPTS - attempt
  {
    hide Prepared, ValidRound;
    if b.BeforeReserve(now) > 0.0 {
      PreparationKeepsReserve(p, c, b, now, rounds(attempt));
      var q := Prepared(p, c, b, now, rounds(attempt));
      var after := q.end + rounds(attempt).commit;
      if q.ok && rounds(attempt).mismatch && attempt < TurnProtocol.MAX_COMMIT_ATTEMPTS
          && b.BeforeReserve(after) > 0.0 {
        TimeLeft(b, after);
        AttemptsAreTimely(q.pool, c, b, rounds, attempt + 1, after);
        var rest := FromAttempt(q.pool, c, b, rounds, attempt + 1, after);
        assert forall i :: 0 < i < |rest.commits| + 1 ==> ([q.end] + rest.commits)[i] == rest.commits[i - 1];
      }
    }
  }

  /**
   In every turn each commit, the retry included, starts with the whole reserve left, which is
   time for two database calls; if no commit takes longer than one, the turn ends by its deadline.
   */
  lemma CommitsHaveTheReserve(p: Pool, c: Config, start: real, lockWait: real, rounds: nat -> Round)
    requires p.Valid() && c.Valid() && lockWait >= 0.0
    requires forall n :: ValidRound(rounds(n))
    ensures var r, deadline := TimelineOf(p, c, start, lockWait, rounds), start + c.totalDeadline;
            && |r.commits| <= 2
            && (forall i :: 0 <= i < |r.commits| ==>
                deadline - r.commits[i] >= c.commitReserve >= 2.0 * c.supabaseTimeout)
            && ((forall n :: rounds(n).commit <= c.supabaseTimeout) ==> r.end <= deadline)
  {
    hide FromAttempt, ValidRound;
    var b := BudgetOf(c, start);
    var timeout := b.BeforeReserve(start);
    TimeLeft(b, start);
    TimedAwaitKeepsReserve(b, start, timeout, Min(lockWait, timeout));
    if lockWait <= timeout {
      AttemptsAreTimely(p, c, b, rounds, 1, start + lockWait);
    }
    var r := TimelineOf(p, c, start, lockWait, rounds);
    forall i | 0 <= i < |r.commits| ensures b.Remaining(r.commits[i]) >= c.commitReserve {
      TimeLeft(b, r.commits[i]);
    }
  }

  /** A preparation succeeds exactly if both reads are in time and both calls are answered. */
  ghost predicate Answered(p: Pool, c: Config, b: TurnBudget, now: real, r: Round)
    requires p.Valid()
  {
    var (loaded, t1) := ReadEnd(c, b, now, r.load);
    var (read, t2) := ReadEnd(c, b, t1, r.context);
    var appraised := CallFrom(p, c, b, t2, r.appraise);
    loaded && read && appraised.result.Answer?
        && CallFrom(appraised.pool, c, b, appraised.end, r.generate).result.Answer?
  }

  /**
   A turn commits at all exactly if it gets the lock in time, has time left before the reserve
   and is prepared; it commits twice exactly if then the first commit meets a newer revision, time
   is left before the reserve again, and the second attempt is prepared.
   */
  lemma CommitsExactly(p: Pool, c: Config, start: real, lockWait: real, rounds: nat -> Round)
    requires p.Valid()
    ensures var b, r := TurnBudget(start + c.totalDeadline, c.commitReserve), TimelineOf(p, c, start, lockWait, rounds);
            var locked := start + lockWait;
            var q := Prepared(p, c, b, locked, rounds(1));
            var after := q.end + rounds(1).commit;
            && (r.commits != [] <==>
                  lockWait <= b.BeforeReserve(start) && b.BeforeReserve(locked) > 0.0
                      && Answered(p, c, b, locked, rounds(1)))
            && (r.commits != [] ==> r.commits[0] == q.end)
            && (|r.commits| == 1 && (!rounds(1).mismatch || b.BeforeReserve(after) <= 0.0) ==> r.end == after)
            && (|r.commits| >= 2 <==>
                  && r.commits != [] && rounds(1).mismatch && b.BeforeReserve(after) > 0.0
                  && Answered(q.pool, c, b, after, rounds(2)))
            && (|r.commits| >= 2 ==>
                  r.commits[1] == Prepared(q.pool, c, b, after, rounds(2)).end
                      && r.end == r.commits[1] + rounds(2).commit)
  {
    hide CallFrom, ReadEnd;
    var b, locked := BudgetOf(c, start), start + lockWait;
    var q := Prepared(p, c, b, locked, rounds(1));
    var after := q.end + rounds(1).commit;
    AnsweredIsPrepared(p, c, b, locked, rounds(1));
    AnsweredIsPrepared(q.pool, c, b, after, rounds(2));
    SecondAttempt(q.pool, c, b, rounds, after);
  }

  lemma AnsweredIsPrepared(p: Pool, c: Config, b: TurnBudget, now: real, r: Round)
    requires p.Valid()
    ensures Prepared(p, c, b, now, r).ok <==> Answered(p, c, b, now, r)
    ensures Answered(p, c, b, now, r) ==>
              var t1 := ReadEnd(c, b, now, r.load).1;
              var first := CallFrom(p, c, b, ReadEnd(c, b, t1, r.context).1, r.appraise);
              var second := CallFrom(first.pool, c, b, first.end, r.generate);
              Prepared(p, c, b, now, r) == Preparation(true, second.end, second.pool)
  {
    hide CallFrom, ReadEnd;
  }

  lemma SecondAttempt(p: Pool, c: Config, b: TurnBudget, rounds: nat -> Round, now: real)
    requires p.Valid()
    ensures var r, q := FromAttempt(p, c, b, rounds, 2, now), Prepared(p, c, b, now, rounds(2));
            && r.commits == (if b.BeforeReserve(now) > 0.0 && q.ok then [q.end] else [])
            && (r.commits != [] ==> r.end == q.end + rounds(2).commit)
  {
    hide Prepared;
  }

  /** One attempt of the loop. */
  lemma AttemptStep(p: Pool, c: Config, b: TurnBudget, rounds: nat -> Round, attempt: nat, now: real)
    requires p.Valid()
    ensures var r, q := FromAttempt(p, c, b, rounds, attempt, now), Prepared(p, c, b, now, rounds(attempt));
            var after := q.end + rounds(attempt).commit;
            if b.BeforeReserve(now) <= 0.0 then r == Timeline([], now, p)
            else if !q.ok then r == Timeline([], q.end, q.pool)
            else if !rounds(attempt).mismatch || attempt >= TurnProtocol.MAX_COMMIT_ATTEMPTS
                || b.BeforeReserve(after) <= 0.0
            then r == Timeline([q.end], after, q.pool)
            else
              var rest := FromAttempt(q.pool, c, b, rounds, attempt + 1, after);
              r == rest.(commits := [q.end] + rest.commits)
  {
    hide Prepared;
  }

  // ----- the turn as code

  /** `run_blocking_read`. */
  method Read(c: Config, b: TurnBudget, now: real, duration: real) returns (ok: bool, end: real)
    requires c.Valid() && b.reserve == c.commitReserve && b.Whole(now) && duration >= 0.0
    ensures now <= end && b.Whole(end) && (ok, end) == ReadEnd(c, b, now, duration)
    ensures var left := b.deadline - b.reserve - now;
            var timeout := if left < c.supabaseTimeout then left else c.supabaseTimeout;
            && (ok <==> left > 0.0 && duration <= timeout)
            && end == now + if ok then duration else timeout
  {
    ReadKeepsReserve(c, b, now, duration);
    TimeLeft(b, now);
    var timeout := Min(b.BeforeReserve(now), c.supabaseTimeout);
    if timeout <= 0.0 {
      return false, now;
    }
    ok, end := duration <= timeout, now + Min(duration, timeout);
  }

  /** Everything before the commit. */
  method Prepare(pool: KeyManager, c: Config, b: TurnBudget, now: real, r: Round) returns (ok: bool, end: real)
    requires pool.Valid() && c.Valid() && b.reserve == c.commitReserve && b.Whole(now) && ValidRound(r)
    modifies pool
    ensures pool.Valid() && now <= end && b.Whole(end)
    ensures Preparation(ok, end, pool.Contents()) == Prepared(old(pool.Contents()), c, b, now, r)
  {
    hide Guaranteed, Continue, ReadEnd, AttemptLimit, ActiveCount;
    PreparationKeepsReserve(pool.Contents(), c, b, now, r);
    ok, end := Read(c, b, now, r.load);
    if !ok {
      return;
    }
    ok, end := Read(c, b, end, r.context);
    if !ok {
      return;
    }
    CallKeepsReserve(pool.Contents(), c, b, end, r.appraise);
    var result: CallResult;
    ghost var trace;
    result, end, trace := ChatCompletion(pool, c, b, end, r.appraise);
    ok := result.Answer?;
    if ok {
      result, end, trace := ChatCompletion(pool, c, b, end, r.generate);
      ok := result.Answer?;
    }
  }

  /** The turn: it computes `TimelineOf`, so every commit has the whole reserve. */
  method TimedTurn(pool: KeyManager, c: Config, start: real, lockWait: real, rounds: nat -> Round)
    returns (commits: seq<real>, end: real)
    requires pool.Valid() && c.Valid() && lockWait >= 0.0
    requires forall n :: ValidRound(rounds(n))
    modifies pool
    ensures pool.Valid()
    ensures Timeline(commits, end, pool.Contents()) == TimelineOf(old(pool.Contents()), c, start, lockWait, rounds)
    ensures forall i :: 0 <= i < |commits| ==> commits[i] + c.commitReserve <= start + c.totalDeadline
  {
    hide ValidRound, Prepared, FromAttempt;
    var b := BudgetOf(c, start);
    ghost var whole := TimelineOf(pool.Contents(), c, start, lockWait, rounds);
    CommitsHaveTheReserve(pool.Contents(), c, start, lockWait, rounds);
    commits := [];
    var timeout := b.BeforeReserve(start);
    end := start + Min(lockWait, timeout);
    TimedAwaitKeepsReserve(b, start, timeout, Min(lockWait, timeout));
    if lockWait > timeout {
      return;
    }
    var attempt := 1;
    while true
      invariant 1 <= attempt <= TurnProtocol.MAX_COMMIT_ATTEMPTS && pool.Valid() && b.Whole(end)
      invariant var rest := FromAttempt(pool.Contents(), c, b, rounds, attempt, end);
                whole == rest.(commits := commits + rest.commits)
      decreases TurnProtocol.MAX_COMMIT_ATTEMPTS - attempt
    {
      AttemptStep(pool.Contents(), c, b, rounds, attempt, end);
      if b.BeforeReserve(end) <= 0.0 {
        return;
      }
      var r := rounds(attempt);
      var ok;
      ok, end := Prepare(pool, c, b, end, r);
      if !ok {
        return;
      }
      commits := commits + [end];
      end := end + r.commit;
      if !r.mismatch || attempt >= TurnProtocol.MAX_COMMIT_ATTEMPTS || b.BeforeReserve(end) <= 0.0 {
        return;
      }
      TimeLeft(b, end);
      attempt := attempt + 1;
    }
  }
}
