/**
 What whole provider calls do to the pool, when their attempts begin, and that a failed
 first attempt leads to a second one.
 */
module ProviderFacts {
  import opened Options
  import opened KeyPool
  import opened KeyPoolRuns
  import opened Deadlines
  import opened ProviderCalls

  // ----- when attempts begin

  /** How long the pause behind a failed attempt lasts, if a further attempt follows. */
  function Pause(c: Config, b: TurnBudget, attempt: nat, now: real, random: real): real {
    var backoff := ComputeBackoff(attempt, c.baseBackoff, c.maxBackoff, c.maxJitter, random);
    if backoff < c.attemptTimeout && backoff < b.deadline - b.reserve - now then backoff else 0.0
  }

  lemma RestedIsPause(t: Terms, attempt: nat, now: real)
    requires t.Valid() && attempt + 1 < t.limit
    ensures Rested(t, attempt, now) == now + Pause(t.c, t.b, attempt, now, t.plan(attempt).random)
  {
    hide ComputeBackoff;
    BackoffBounds(attempt, t.c.baseBackoff, t.c.maxBackoff, t.c.maxJitter, t.plan(attempt).random);
  }

  lemma {:induction false} StartsFollow(t: Terms, p: Pool, attempt: nat, tried: set<Key>, last: Option<Failure>,
      now: real)
    requires p.Valid() && attempt <= t.limit
    ensures var trace := Continue(t, p, attempt, tried, last, now).trace;
            && attempt + |trace| <= t.limit && (trace != [] ==> trace[0].start == now)
            && forall i :: 0 <= i < |trace| - 1 ==> trace[i + 1].start == Rested(t, attempt + i, trace[i].end)
    decreases t.limit - attempt
  {
    hide Continue, Pool.Acquired, AttemptTimeout, Rested, Meanwhile, Settled, FailureOf;
    EarlyEnd(t, p, attempt, tried, last, now);
    var (taken, key) := p.Acquired(tried, now);
    if attempt < t.limit && AttemptTimeout(t, now) > 0.0 && key.Some? && !t.plan(attempt).reply.ClientFailure? {
      ContinueStep(t, p, attempt, tried, last, now);
      var busy, entry := Meanwhile(taken, t.plan(attempt).others), Tried(t, attempt, key.value, now);
      if !entry.reply.CancelReply? && !entry.reply.Response? {
        var settled, next := Settled(busy, key.value, entry.reply, entry.end), Rested(t, attempt, entry.end);
        SettledDeactivates(busy, key.value, entry.reply, entry.end);
        StartsFollow(t, settled, attempt + 1, tried + {key.value}, FailureOf(entry.reply), next);
        var rest := Continue(t, settled, attempt + 1, tried + {key.value}, FailureOf(entry.reply), next).trace;
        var trace := [entry] + rest;
        forall i | 0 <= i < |trace| - 1 ensures trace[i + 1].start == Rested(t, attempt + i, trace[i].end) {
          assert i == 0 || rest[i].start == Rested(t, attempt + 1 + (i - 1), rest[i - 1].end);
        }
      }
    }
  }

  /**
   The attempts of every call, in time. The first begins at once, a later one after the pause; each
   is the plan's if that ends within its timeout, the configured one or what is left in front
   of the reserve, and else a timeout at that moment.
   */
  lemma AttemptsExactly(p: Pool, c: Config, b: TurnBudget, start: real, plan: nat -> AttemptPlan)
    requires p.Valid() && c.Valid() && b.reserve == c.commitReserve && b.Whole(start) && ValidPlan(plan)
    ensures var trace := CallFrom(p, c, b, start, plan).trace;
            && (trace != [] ==> trace[0].start == start)
            && (forall i :: 0 <= i < |trace| - 1 ==>
                  trace[i + 1].start == trace[i].end + Pause(c, b, i, trace[i].end, plan(i).random))
            && forall i :: 0 <= i < |trace| ==>
                 var e := trace[i];
                 var left := b.deadline - b.reserve - e.start;
                 var timeout := if left < c.attemptTimeout then left else c.attemptTimeout;
                 if plan(i).duration <= timeout then e.reply == plan(i).reply && e.end == e.start + plan(i).duration
                 else e.reply == ApiTimeout && e.end == e.start + timeout
  {
    hide Continue, AttemptLimit, ActiveCount, Pause, Rested, EndedBecause;
    var t := Terms(c, b, plan, AttemptLimit(c.maxAttempts, ActiveCount(p.keys, p.deactivated)));
    CallsKeepTheirWord(t, p, 0, {}, None, start);
    StartsFollow(t, p, 0, {}, None, start);
    var trace := CallFrom(p, c, b, start, plan).trace;
    forall i | 0 <= i < |trace| - 1
      ensures trace[i + 1].start == trace[i].end + Pause(c, b, i, trace[i].end, plan(i).random)
    {
      RestedIsPause(t, i, trace[i].end);
    }
  }

  // ----- what a call leaves of the pool

  /** The reply that takes a key out of use. */
  predicate Unauthorised(reply: Reply) {
    reply == AuthReply || reply == StatusReply(401)
  }

  lemma {:induction false} MeanwhileDisables(p: Pool, actions: seq<Action>)
    requires p.Valid()
    ensures forall k :: k in Meanwhile(p, actions).deactivated <==>
              k in p.deactivated || exists i :: 0 <= i < |actions| && actions[i].Disable? && actions[i].key == k
    decreases |actions|
  {
    hide Pool.Acquired;
    if actions != [] {
      var n := |actions| - 1;
      MeanwhileDisables(p, actions[..n]);
      assert forall i :: 0 <= i < n ==> actions[i] == actions[..n][i];
    }
  }

  /** Key `k` is taken out of use by attempt `i` or by another call during it. */
  ghost predicate DisabledIn(k: Key, e: Attempt, plan: AttemptPlan) {
    (e.key == k && Unauthorised(e.reply))
    || exists j :: 0 <= j < |plan.others| && plan.others[j].Disable? && plan.others[j].key == k
  }

  /** The same of any of the attempts, the first of which has number `attempt`. */
  ghost predicate DisabledDuring(k: Key, trace: seq<Attempt>, plan: nat -> AttemptPlan, attempt: nat) {
    trace != [] && (DisabledIn(k, trace[0], plan(attempt)) || DisabledDuring(k, trace[1..], plan, attempt + 1))
  }

  lemma {:induction false} DisabledSometime(k: Key, trace: seq<Attempt>, plan: nat -> AttemptPlan, attempt: nat)
    ensures DisabledDuring(k, trace, plan, attempt) <==>
            exists n :: attempt <= n < attempt + |trace| && DisabledIn(k, trace[n - attempt], plan(n))
    decreases |trace|
  {
    hide DisabledIn;
    if trace != [] {
      var rest := trace[1..];
      DisabledSometime(k, rest, plan, attempt + 1);
      if DisabledIn(k, trace[0], plan(attempt)) {
        assert DisabledIn(k, trace[attempt - attempt], plan(attempt));
      }
    }
  }

  lemma {:induction false} DisabledFrom(t: Terms, p: Pool, attempt: nat, tried: set<Key>, last: Option<Failure>,
      now: real, k: Key)
    requires p.Valid() && attempt <= t.limit
    ensures var r := Continue(t, p, attempt, tried, last, now);
            k in r.pool.deactivated <==> k in p.deactivated || DisabledDuring(k, r.trace, t.plan, attempt)
    decreases t.limit - attempt
  {
    hide Continue, Pool.Acquired, AttemptTimeout, Rested, Meanwhile, DisabledIn, Settled, FailureOf;
    EarlyEnd(t, p, attempt, tried, last, now);
    var (taken, key) := p.Acquired(tried, now);
    if attempt < t.limit && AttemptTimeout(t, now) > 0.0 && key.Some? && !t.plan(attempt).reply.ClientFailure? {
      ContinueStep(t, p, attempt, tried, last, now);
      var busy, entry := Meanwhile(taken, t.plan(attempt).others), Tried(t, attempt, key.value, now);
      DisabledInAttempt(taken, entry, t.plan(attempt), k);
      if entry.reply.CancelReply? || entry.reply.Response? {
        assert [entry][1..] == [];
      } else {
        var settled, next := Settled(busy, key.value, entry.reply, entry.end), Rested(t, attempt, entry.end);
        SettledDeactivates(busy, key.value, entry.reply, entry.end);
        DisabledFrom(t, settled, attempt + 1, tried + {key.value}, FailureOf(entry.reply), next, k);
        var rest := Continue(t, settled, attempt + 1, tried + {key.value}, FailureOf(entry.reply), next).trace;
        assert ([entry] + rest)[1..] == rest;
      }
    }
  }

  lemma DisabledInAttempt(taken: Pool, e: Attempt, plan: AttemptPlan, k: Key)
    requires taken.Valid()
    ensures var busy := Meanwhile(taken, plan.others);
            && (k in Settled(busy, e.key, e.reply, e.end).deactivated <==>
                k in taken.deactivated || DisabledIn(k, e, plan))
            && (!Unauthorised(e.reply) ==>
                  (k in busy.deactivated <==> k in taken.deactivated || DisabledIn(k, e, plan)))
  {
    hide Meanwhile;
    MeanwhileDisables(taken, plan.others);
  }

  /** Which keys a call leaves out of use: those that were, those refused in it, and those others disabled meanwhile. */
  lemma DisabledExactly(p: Pool, c: Config, b: TurnBudget, start: real, plan: nat -> AttemptPlan, k: Key)
    requires p.Valid()
    ensures var r := CallFrom(p, c, b, start, plan);
            k in r.pool.deactivated <==>
              || k in p.deactivated
              || (exists i :: 0 <= i < |r.trace| && r.trace[i].key == k
                    && (r.trace[i].reply == AuthReply || r.trace[i].reply == StatusReply(401)))
              || (exists i, j :: 0 <= i < |r.trace| && 0 <= j < |plan(i).others|
                    && plan(i).others[j].Disable? && plan(i).others[j].key == k)
  {
    hide Continue, AttemptLimit, ActiveCount;
    var t := Terms(c, b, plan, AttemptLimit(c.maxAttempts, ActiveCount(p.keys, p.deactivated)));
    var r := CallFrom(p, c, b, start, plan);
    DisabledFrom(t, p, 0, {}, None, start, k);
    DisabledSometime(k, r.trace, plan, 0);
    if i :| 0 <= i < |r.trace| && r.trace[i].key == k
            && (r.trace[i].reply == AuthReply || r.trace[i].reply == StatusReply(401)) {
      assert DisabledIn(k, r.trace[i - 0], plan(i));
    }
    if i, j :| 0 <= i < |r.trace| && 0 <= j < |plan(i).others| && plan(i).others[j].Disable?
               && plan(i).others[j].key == k {
      assert DisabledIn(k, r.trace[i - 0], plan(i));
    }
  }

  // ----- a rate-limited key rests

  /** Until `until` the pool keeps the key back, as far as times from `end` on are concerned. */
  ghost predicate Resting(p: Pool, k: Key, until: real, end: real) {
    until <= end || (k in p.cooldowns && p.cooldowns[k] >= until)
  }

  /** Others use the pool at times between two moments. */
  ghost predicate Between(actions: seq<Action>, from: real, to: real) {
    forall i :: 0 <= i < |actions| ==> from <= actions[i].now <= to
  }

  lemma {:induction false} MeanwhileRests(p: Pool, actions: seq<Action>, k: Key, until: real, end: real)
    requires p.Valid() && Resting(p, k, until, end) && Between(actions, until - 10.0, end)
    ensures Resting(Meanwhile(p, actions), k, until, end)
    decreases |actions|
  {
    hide Pool.Scan;
    if actions != [] {
      MeanwhileRests(p, actions[..|actions| - 1], k, until, end);
    }
  }

  lemma AcquiringRests(p: Pool, tried: set<Key>, now: real, k: Key, until: real, end: real)
    requires p.Valid() && Resting(p, k, until, end) && now <= end
    ensures Resting(p.Acquired(tried, now).0, k, until, end)
  {
    hide Pool.Scan;
  }

  /** A key already tried keeps resting through the rest of the call. */
  lemma {:induction false} RestOfCallRests(t: Terms, p: Pool, attempt: nat, tried: set<Key>, last: Option<Failure>,
      now: real, k: Key, until: real)
    requires t.Valid() && p.Valid() && t.b.Whole(now) && attempt <= t.limit && k in tried
    requires var r := Continue(t, p, attempt, tried, last, now);
             && Resting(p, k, until, r.end)
             && forall n :: attempt <= n < attempt + |r.trace| ==> Between(t.plan(n).others, until - 10.0, r.end)
    ensures var r := Continue(t, p, attempt, tried, last, now); Resting(r.pool, k, until, r.end)
    decreases t.limit - attempt
  {
    hide Continue, Pool.Acquired, AttemptTimeout, Rested, Meanwhile, Resting, Between, Tried, Fair, FollowsPlan,
         EndedBecause;
    EarlyEnd(t, p, attempt, tried, last, now);
    CallsKeepTheirWord(t, p, attempt, tried, last, now);
    var r := Continue(t, p, attempt, tried, last, now);
    var (taken, key) := p.Acquired(tried, now);
    if attempt < t.limit && AttemptTimeout(t, now) > 0.0 {
      AcquiringRests(p, tried, now, k, until, r.end);
      if key.Some? && !t.plan(attempt).reply.ClientFailure? {
        ContinueStep(t, p, attempt, tried, last, now);
        NotTried(p, tried, now);
        KeyOf(t, attempt, key.value, now);
        AttemptTakesItsTime(t, attempt, key.value, now);
        var busy, entry := Meanwhile(taken, t.plan(attempt).others), Tried(t, attempt, key.value, now);
        assert r.trace[0] == entry;
        MeanwhileRests(taken, t.plan(attempt).others, k, until, r.end);
        if !entry.reply.CancelReply? && !entry.reply.Response? {
          var settled, next := Settled(busy, key.value, entry.reply, entry.end), Rested(t, attempt, entry.end);
          SettlingAnotherRests(busy, key.value, entry.reply, entry.end, k, until, r.end);
          var rest := Continue(t, settled, attempt + 1, tried + {key.value}, FailureOf(entry.reply), next);
          RestOfCallRests(t, settled, attempt + 1, tried + {key.value}, FailureOf(entry.reply), next, k, until);
        }
      }
    }
  }

  lemma SettlingAnotherRests(p: Pool, key: Key, reply: Reply, now: real, k: Key, until: real, end: real)
    requires p.Valid() && Resting(p, k, until, end) && key != k
    ensures Settled(p, key, reply, now).Valid() && Resting(Settled(p, key, reply, now), k, until, end)
  {
  }

  /** From the attempt that was rate limited on. */
  lemma {:induction false} RestsFrom(t: Terms, p: Pool, attempt: nat, tried: set<Key>, last: Option<Failure>,
      now: real, i: nat)
    requires t.Valid() && p.Valid() && t.b.Whole(now) && attempt <= t.limit
    requires var r := Continue(t, p, attempt, tried, last, now);
             && i < |r.trace| && r.trace[i].reply == RateLimitReply
             && forall n :: attempt + i < n < attempt + |r.trace| ==> Between(t.plan(n).others, r.trace[i].end, r.end)
    ensures var r := Continue(t, p, attempt, tried, last, now);
            Resting(r.pool, r.trace[i].key, r.trace[i].end + 10.0, r.end)
    decreases i
  {
    hide Continue, Pool.Acquired, AttemptTimeout, Rested, Meanwhile, Resting, Between, Tried, Settled;
    EarlyEnd(t, p, attempt, tried, last, now);
    var r := Continue(t, p, attempt, tried, last, now);
    var (taken, key) := p.Acquired(tried, now);
    ContinueStep(t, p, attempt, tried, last, now);
    KeyOf(t, attempt, key.value, now);
    AttemptTakesItsTime(t, attempt, key.value, now);
    var busy, entry := Meanwhile(taken, t.plan(attempt).others), Tried(t, attempt, key.value, now);
    var settled, next := Settled(busy, key.value, entry.reply, entry.end), Rested(t, attempt, entry.end);
    SettledDeactivates(busy, key.value, entry.reply, entry.end);
    assert r.trace[0] == entry;
    if i == 0 {
      JustLimited(busy, key.value, entry.end, r.end);
      RestOfCallRests(t, settled, attempt + 1, tried + {key.value}, FailureOf(entry.reply), next, key.value,
                      entry.end + 10.0);
    } else {
      RestsFrom(t, settled, attempt + 1, tried + {key.value}, FailureOf(entry.reply), next, i - 1);
    }
  }

  lemma JustLimited(p: Pool, k: Key, now: real, end: real)
    ensures Resting(Settled(p, k, RateLimitReply, now), k, now + 10.0, end)
  {
  }

  /**
   A key that was rate limited in a call is not eligible, for anyone, until ten seconds after
   that attempt, in the pool the call leaves; other calls use the pool while this one runs.
   */
  lemma RateLimitedKeyRests(p: Pool, c: Config, b: TurnBudget, start: real, plan: nat -> AttemptPlan, i: nat,
      tried: set<Key>, later: real)
    requires p.Valid() && c.Valid() && b.reserve == c.commitReserve && b.Whole(start) && ValidPlan(plan)
    requires var r := CallFrom(p, c, b, start, plan);
             && i < |r.trace| && r.trace[i].reply == RateLimitReply
             && (forall j, a :: i < j < |r.trace| && a in plan(j).others ==> r.trace[i].end <= a.now <= r.end)
             && r.end <= later < r.trace[i].end + 10.0
    ensures var r := CallFrom(p, c, b, start, plan); !r.pool.Eligible(r.trace[i].key, tried, later)
  {
    hide Continue, AttemptLimit, ActiveCount;
    var t := Terms(c, b, plan, AttemptLimit(c.maxAttempts, ActiveCount(p.keys, p.deactivated)));
    var r := CallFrom(p, c, b, start, plan);
    forall j | i < j < |r.trace| ensures Between(t.plan(j).others, r.trace[i].end, r.end) {
      forall l | 0 <= l < |plan(j).others| ensures r.trace[i].end <= plan(j).others[l].now <= r.end {
        assert plan(j).others[l] in plan(j).others;
      }
    }
    RestsFrom(t, p, 0, {}, None, start, i);
  }

  // ----- a second attempt

  /**
   Two keys, and more than one attempt allowed: whatever failure the first key meets, the second
   is tried, and its answer is the call's, if there is time for both attempts and the pause.
   */
  lemma FailsOver(c: Config, b: TurnBudget, start: real, plan: nat -> AttemptPlan, one: Key, two: Key)
    requires c.Valid() && b.reserve == c.commitReserve && ValidPlan(plan) && c.maxAttempts >= 2 && one != two
    requires start + 2.0 * c.attemptTimeout + c.maxBackoff <= b.deadline - b.reserve
    requires plan(0).others == [] && !plan(0).reply.Response? && !plan(0).reply.CancelReply?
    requires !plan(0).reply.ClientFailure? && plan(1).reply.Response? && plan(1).duration <= c.attemptTimeout
    ensures var r := CallFrom(Pool([one, two], {}, map[], 0), c, b, start, plan);
            && r.result == Answer(plan(1).reply.text) && |r.trace| == 2
            && r.trace[0].key == one && r.trace[1].key == two
  {
    hide Continue, ComputeBackoff, Pool.Acquired, AttemptLimit, ActiveCount, Usable;
    var p := Pool([one, two], {}, map[], 0);
    var t := Terms(c, b, plan, AttemptLimit(c.maxAttempts, ActiveCount(p.keys, p.deactivated)));
    TwoUsable(p);
    LimitOf(c, p);
    FirstOfTwo(p, start);
    ContinueStep(t, p, 0, {}, None, start);
    var taken, entry := p.Acquired({}, start).0, Tried(t, 0, one, start);
    var settled, next := Settled(taken, one, entry.reply, entry.end), Rested(t, 0, entry.end);
    BackoffBounds(0, c.baseBackoff, c.maxBackoff, c.maxJitter, plan(0).random);
    assert {} + {one} == {one};
    SecondOfTwo(settled, next);
    ContinueStep(t, settled, 1, {one}, FailureOf(entry.reply), next);
  }

  lemma TwoUsable(p: Pool)
    requires |p.keys| == 2 && p.deactivated == {}
    ensures |Usable(p)| == 2
  {
    assert Usable(p) == {0, 1};
  }

  lemma FirstOfTwo(p: Pool, now: real)
    requires |p.keys| == 2 && p == Pool(p.keys, {}, map[], 0)
    ensures p.Acquired({}, now) == (p.(index := 1), Some(p.keys[0]))
  {
    assert p.Position(0) == 0;
    assert p.Pruned(now) == p;
  }

  lemma SecondOfTwo(p: Pool, now: real)
    requires |p.keys| == 2 && p.index == 1 && p.keys[1] !in p.deactivated && p.keys[1] !in p.cooldowns
    requires p.keys[0] != p.keys[1]
    ensures p.Acquired({p.keys[0]}, now).1 == Some(p.keys[1])
  {
    assert p.Position(0) == 1;
  }

  const DEFAULTS: Config := Config(45.0, 3.0, 15.0, 5.0, 10.0, 2, 0.25, 0.75, 0.1)

  function RefusedThenAnswered(n: nat): AttemptPlan {
    AttemptPlan([], 1.0, if n == 0 then StatusReply(400) else Response("hello"), 0.0)
  }

  /** With two keys and the default settings: a 400 from the first, and an answer from the second. */
  lemma AnswerAfterA400()
    ensures var b := TurnBudget(45.0, 10.0);
            var r := CallFrom(Pool(["one", "two"], {}, map[], 0), DEFAULTS, b, 0.0, RefusedThenAnswered);
            && DEFAULTS.Valid() && r.result == Answer("hello") && |r.trace| == 2
            && r.trace[0].reply == StatusReply(400) && r.trace[0].key == "one" && r.trace[1].key == "two"
  {
    hide CallFrom;
    FailsOver(DEFAULTS, TurnBudget(45.0, 10.0), 0.0, RefusedThenAnswered, "one", "two");
    AttemptsExactly(Pool(["one", "two"], {}, map[], 0), DEFAULTS, TurnBudget(45.0, 10.0), 0.0, RefusedThenAnswered);
  }
}
