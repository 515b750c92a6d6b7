/** The key pool over whole runs: any calls in any order, with a clock that never goes back. */
module KeyPoolRuns {
  import opened Options
  import opened KeyPool

  datatype Action = Take(now: real, tried: set<Key>) | Limit(now: real, key: Key) | Disable(now: real, key: Key)

  datatype Event = Took(at: real, key: Key) | Limited(at: real, key: Key) | Disabled(at: real, key: Key)

  datatype Machine = Machine(pool: Pool, clock: real, log: seq<Event>)

  function Later(a: real, b: real): real {
    if a < b then b else a
  }

  function Act(m: Machine, a: Action): Machine
    requires m.pool.Valid()
  {
    var now := Later(m.clock, a.now);
    match a
    case Take(_, tried) =>
      var (pool, k) := m.pool.Acquired(tried, now);
      Machine(pool, now, if k.Some? then m.log + [Took(now, k.value)] else m.log)
    case Limit(_, k) => Machine(m.pool.RateLimited(k, now), now, m.log + [Limited(now, k)])
    case Disable(_, k) => Machine(m.pool.Deactivated(k), now, m.log + [Disabled(now, k)])
  }

  function Run(m: Machine, actions: seq<Action>): (r: Machine)
    requires m.pool.Valid()
    ensures r.pool.Valid()
    decreases |actions|
  {
    if actions == [] then m else Act(Run(m, actions[..|actions| - 1]), actions[|actions| - 1])
  }

  /** What an earlier event forbids later ones. */
  predicate Compatible(earlier: Event, later: Event) {
    later.Took? && earlier.key == later.key ==>
      && !earlier.Disabled?
      && (earlier.Limited? ==> later.at >= earlier.at + COOLDOWN)
  }

  ghost predicate Obeyed(log: seq<Event>) {
    forall i, j :: 0 <= i < j < |log| ==> Compatible(log[i], log[j])
  }

  /** The pool remembers every restriction that is still in force. */
  ghost predicate Remembered(m: Machine, e: Event) {
    && e.at <= m.clock
    && (e.Disabled? ==> e.key in m.pool.deactivated)
    && (e.Limited? ==>
          m.clock >= e.at + COOLDOWN || (e.key in m.pool.cooldowns && m.pool.cooldowns[e.key] >= e.at + COOLDOWN))
  }

  ghost predicate Sound(m: Machine) {
    && m.pool.Valid() && Obeyed(m.log)
    && forall i :: 0 <= i < |m.log| ==> Remembered(m, m.log[i])
  }

  lemma StepKeeps(m: Machine, n: Machine, e: Event)
    requires Obeyed(m.log) && n.log == m.log + [e]
    requires forall i :: 0 <= i < |m.log| ==> Remembered(n, m.log[i]) && Compatible(m.log[i], e)
    requires Remembered(n, e) && n.pool.Valid()
    ensures Sound(n)
  {
    hide Compatible, Remembered;
    forall i | 0 <= i < |n.log| ensures Remembered(n, n.log[i]) {
      assert i == |m.log| || n.log[i] == m.log[i];
    }
    forall i, j | 0 <= i < j < |n.log| ensures Compatible(n.log[i], n.log[j]) {
      assert n.log[i] == m.log[i];
      assert j == |m.log| || n.log[j] == m.log[j];
    }
  }

  lemma TakeObeys(m: Machine, tried: set<Key>, now: real, e: Event)
    requires m.pool.Valid() && Remembered(m, e) && now >= m.clock
    ensures var (pool, k) := m.pool.Acquired(tried, now);
            && Remembered(Machine(pool, now, m.log), e)
            && (k.Some? ==> Compatible(e, Took(now, k.value)))
  {
    hide Wrap;
  }

  lemma ActKeepsSound(m: Machine, a: Action)
    requires Sound(m)
    ensures Sound(Act(m, a))
  {
    hide Pool.Acquired, Compatible;
    var n, now := Act(m, a), Later(m.clock, a.now);
    match a {
      case Take(_, tried) =>
        var k := m.pool.Acquired(tried, now).1;
        forall i | 0 <= i < |m.log|
          ensures Remembered(n, m.log[i]) && (k.Some? ==> Compatible(m.log[i], Took(now, k.value)))
        {
          TakeObeys(m, tried, now, m.log[i]);
        }
        if k.Some? {
          StepKeeps(m, n, Took(now, k.value));
        }
      case Limit(_, k) =>
        forall i | 0 <= i < |m.log| ensures Remembered(n, m.log[i]) && Compatible(m.log[i], Limited(now, k)) {
          NotTaken(m.log[i], Limited(now, k));
        }
        StepKeeps(m, n, Limited(now, k));
      case Disable(_, k) =>
        forall i | 0 <= i < |m.log| ensures Remembered(n, m.log[i]) && Compatible(m.log[i], Disabled(now, k)) {
          NotTaken(m.log[i], Disabled(now, k));
        }
        StepKeeps(m, n, Disabled(now, k));
    }
  }

  lemma NotTaken(e: Event, f: Event)
    requires !f.Took?
    ensures Compatible(e, f)
  {
  }

  /**
   In every run, a deactivated key is never handed out again, and a rate-limited key not
   before its cooldown is over.
   */
  lemma {:induction false} RestrictionsAreObeyed(pool: Pool, clock: real, actions: seq<Action>)
    requires pool.Valid()
    ensures Sound(Run(Machine(pool, clock, []), actions))
    decreases |actions|
  {
    hide Act;
    if actions != [] {
      RestrictionsAreObeyed(pool, clock, actions[..|actions| - 1]);
      ActKeepsSound(Run(Machine(pool, clock, []), actions[..|actions| - 1]), actions[|actions| - 1]);
    }
  }
}
