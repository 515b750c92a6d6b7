/**
 The provider key pool of `GroqClientManager`: round robin over the configured keys,
 skipping those that are deactivated, cooling down or already tried by the same call.
 Keys may occur more than once in the configuration; times are seconds.
 */
module KeyPool {
  import opened Options
  import opened Sequences

  type Key = string

  const COOLDOWN := 10.0

  /** `x % n`. */
  function Wrap(x: nat, n: nat): (r: nat)
    requires n > 0
    ensures r < n
  {
    x % n
  }

  datatype Pool = Pool(keys: seq<Key>, deactivated: set<Key>, cooldowns: map<Key, real>, index: nat) {
    predicate Valid() {
      keys != [] && index < |keys|
    }

    predicate Cooling(k: Key, now: real) {
      k in cooldowns && now < cooldowns[k]
    }

    predicate Eligible(k: Key, tried: set<Key>, now: real) {
      k !in deactivated && !Cooling(k, now) && k !in tried
    }

    predicate NoneEligible(tried: set<Key>, now: real) {
      forall i :: 0 <= i < |keys| ==> !Eligible(keys[i], tried, now)
    }

    /** Entries whose time is up are forgotten. */
    function Pruned(now: real): Pool {
      this.(cooldowns := map k | k in cooldowns && now < cooldowns[k] :: cooldowns[k])
    }

    /** The position `i` places after the index, around the end. */
    function Position(i: nat): nat
      requires Valid()
    {
      Wrap(index + i, |keys|)
    }

    /** The next position that is eligible, looking from `i` places after the index. */
    function Scan(tried: set<Key>, now: real, i: nat): (r: Option<nat>)
      requires Valid() && i <= |keys|
      ensures r.Some? ==> i <= r.value < |keys| && Eligible(keys[Position(r.value)], tried, now)
      ensures r.Some? ==> forall j :: i <= j < r.value ==> !Eligible(keys[Position(j)], tried, now)
      ensures r.None? ==> forall j :: i <= j < |keys| ==> !Eligible(keys[Position(j)], tried, now)
      decreases |keys| - i
    {
      if i == |keys| then None
      else if Eligible(keys[Position(i)], tried, now) then Some(i)
      else Scan(tried, now, i + 1)
    }

    function Acquired(tried: set<Key>, now: real): (r: (Pool, Option<Key>))
      requires Valid()
      ensures r.0.Valid() && r.0.keys == keys && r.0.deactivated == deactivated
    {
      var found := Scan(tried, now, 0);
      if found.None? then (Pruned(now), None)
      else
        var at := Position(found.value);
        (Pruned(now).(index := Wrap(at + 1, |keys|)), Some(keys[at]))
    }

    function RateLimited(k: Key, now: real): Pool {
      this.(cooldowns := cooldowns[k := now + COOLDOWN])
    }

    function Deactivated(k: Key): Pool {
      this.(deactivated := deactivated + {k})
    }
  }

  lemma ModUnique(x: nat, q: nat, r: nat, n: nat)
    requires n > 0 && r < n && x == q * n + r
    ensures x % n == r
  {
    var q' := x / n;
    assert x == q' * n + x % n;
    if q > q' {
      AtLeastOnce(q - q', n);
      assert false;
    } else if q < q' {
      AtLeastOnce(q' - q, n);
      assert false;
    }
  }

  lemma AtLeastOnce(k: nat, n: nat)
    requires k >= 1
    ensures k * n >= n
  {
    assert k * n == n + (k - 1) * n;
  }

  lemma WrapSmall(x: nat, n: nat)
    requires x < n
    ensures Wrap(x, n) == x
  {
    ModUnique(x, 0, x, n);
  }

  lemma WrapAround(x: nat, n: nat)
    requires n > 0
    ensures Wrap(x + n, n) == Wrap(x, n)
  {
    var q := x / n;
    assert x + n == (q + 1) * n + x % n;
    ModUnique(x + n, q + 1, x % n, n);
  }

  /** Wrapping early or late is the same. */
  lemma WrapAdd(x: nat, y: nat, n: nat)
    requires n > 0
    ensures Wrap(Wrap(x, n) + y, n) == Wrap(x + y, n)
  {
    var q, z := x / n, x % n + y;
    assert x + y == q * n + z;
    var q' := z / n;
    assert z == q' * n + z % n;
    assert x + y == (q + q') * n + z % n;
    ModUnique(x + y, q + q', z % n, n);
  }

  /** Walking once around the ring meets every position. */
  lemma EveryPosition(p: Pool, at: nat) returns (i: nat)
    requires p.Valid() && at < |p.keys|
    ensures i < |p.keys| && p.Position(i) == at
  {
    hide Wrap;
    i := if at >= p.index then at - p.index else at + |p.keys| - p.index;
    WrapSmall(at, |p.keys|);
    WrapAround(at, |p.keys|);
  }

  lemma ScanFindsAny(p: Pool, tried: set<Key>, now: real)
    requires p.Valid()
    ensures p.Scan(tried, now, 0).None? <==> p.NoneEligible(tried, now)
  {
    if p.Scan(tried, now, 0).None? {
      forall at | 0 <= at < |p.keys| ensures !p.Eligible(p.keys[at], tried, now) {
        var i := EveryPosition(p, at);
      }
    }
  }

  lemma PrunedEligible(p: Pool, now: real, later: real, k: Key, tried: set<Key>)
    requires now <= later
    ensures p.Pruned(now).Eligible(k, tried, later) <==> p.Eligible(k, tried, later)
  {
  }

  lemma PrunedCode(p: Pool, now: real)
    ensures ExhaustedCode(p.Pruned(now), now) == ExhaustedCode(p, now)
  {
    var q := p.Pruned(now);
    assert forall k :: q.Cooling(k, now) <==> p.Cooling(k, now);
    assert q.keys == p.keys && q.deactivated == p.deactivated;
  }

  // ----- the manager

  datatype Failure = AuthFailed | RateLimit | ConnectionFailed | Timeout | ServerError | InvalidRequest

  datatype Acquisition = Got(key: Key) | Exhausted(code: Failure, fallback: bool)

  /** Why a pool has nothing to offer. */
  function ExhaustedCode(p: Pool, now: real): Failure {
    if forall i :: 0 <= i < |p.keys| ==> p.keys[i] in p.deactivated then AuthFailed
    else if forall i :: 0 <= i < |p.keys| && p.keys[i] !in p.deactivated ==> p.Cooling(p.keys[i], now) then RateLimit
    else ConnectionFailed
  }

  /** All keys out of use; else all the others cooling down; else a key is only held back by the call itself. */
  lemma CodeExactly(p: Pool, now: real)
    ensures var all := forall i :: 0 <= i < |p.keys| ==> p.keys[i] in p.deactivated;
            var cooling := forall i :: 0 <= i < |p.keys| && p.keys[i] !in p.deactivated ==>
              p.keys[i] in p.cooldowns && now < p.cooldowns[p.keys[i]];
            && (ExhaustedCode(p, now) == AuthFailed <==> all)
            && (ExhaustedCode(p, now) == RateLimit <==> !all && cooling)
            && (ExhaustedCode(p, now) == ConnectionFailed <==> !all && !cooling)
  {
  }

  class KeyManager {
    const keys: seq<Key>
    var deactivated: set<Key>
    var cooldowns: map<Key, real>
    var index: nat

    function Contents(): Pool
      reads this
    {
      Pool(keys, deactivated, cooldowns, index)
    }

    predicate Valid()
      reads this
    {
      Contents().Valid()
    }

    constructor (ks: seq<Key>)
      requires ks != []
      ensures Valid() && Contents() == Pool(ks, {}, map[], 0)
    {
      keys, deactivated, cooldowns, index := ks, {}, map[], 0;
    }

    /** Drops the cooldowns that are over. */
    method CleanUp(now: real)
      modifies this
      ensures Contents() == old(Contents()).Pruned(now)
    {
      var left := cooldowns.Keys;
      while left != {}
        invariant left <= old(cooldowns).Keys
        invariant deactivated == old(deactivated) && index == old(index)
        invariant cooldowns == map k | k in old(cooldowns)
                    && (k in left || now < old(cooldowns)[k]) :: old(cooldowns)[k]
        decreases |left|
      {
        var k :| k in left;
        left := left - {k};
        if now >= cooldowns[k] {
          cooldowns := cooldowns - {k};
        }
      }
      assert Contents() == old(Contents()).Pruned(now);
    }

    /**
     Returns the first eligible key from the index on and moves the index past it; fails
     exactly when no key is eligible, with the code of the pool's state. The final
     fallback is never reached.
     */
    method AcquireNextKey(tried: set<Key>, now: real) returns (r: Acquisition)
      requires Valid()
      modifies this
      ensures Valid() && Contents() == old(Contents()).Acquired(tried, now).0
      ensures old(Contents()).Acquired(tried, now).1 == if r.Got? then Some(r.key) else None
      ensures r.Exhausted? <==> old(Contents()).NoneEligible(tried, now)
      ensures r.Exhausted? ==> r.code == ExhaustedCode(old(Contents()), now) && !r.fallback
    {
      ghost var p := Contents();
      ScanFindsAny(p, tried, now);
      CleanUp(now);
      var allDeactivated := forall i :: 0 <= i < |keys| ==> keys[i] in deactivated;
      var allCooling := !allDeactivated && forall i :: 0 <= i < |keys| && keys[i] !in deactivated ==>
          keys[i] in cooldowns;
      var allTried := !allDeactivated && !allCooling
        && forall i :: 0 <= i < |keys| && keys[i] !in deactivated && keys[i] !in cooldowns ==> keys[i] in tried;
      var i := 0;
      while i < |keys|
        invariant i <= |keys| && Contents() == p.Pruned(now)
        invariant forall j :: 0 <= j < i ==> !p.Eligible(p.keys[p.Position(j)], tried, now)
      {
        var at := Wrap(index + i, |keys|);
        assert at == p.Position(i);
        var k := keys[at];
        if k !in deactivated && k !in cooldowns && k !in tried {
          index := Wrap(at + 1, |keys|);
          assert p.Scan(tried, now, 0) == Some(i);
          return Got(k);
        }
        i := i + 1;
      }
      assert p.NoneEligible(tried, now);
      if allDeactivated {
        return Exhausted(AuthFailed, false);
      }
      if allCooling {
        return Exhausted(RateLimit, false);
      }
      if allTried {
        return Exhausted(ConnectionFailed, false);
      }
      assert false;
      return Exhausted(ConnectionFailed, true);
    }

    /** Until ten seconds from now the key is not handed out; all other keys are as they were. */
    method MarkKeyRateLimited(k: Key, now: real)
      modifies this
      ensures Contents() == old(Contents()).RateLimited(k, now)
      ensures forall tried, later :: Contents().Eligible(k, tried, later) <==>
                k !in deactivated && k !in tried && later >= now + 10.0
      ensures forall other, tried, later :: other != k ==>
                (Contents().Eligible(other, tried, later) <==> old(Contents()).Eligible(other, tried, later))
    {
      cooldowns := cooldowns[k := now + COOLDOWN];
    }

    /** The key is never eligible again, at any time and for any call; all other keys are as they were. */
    method DeactivateKey(k: Key)
      modifies this
      ensures Contents() == old(Contents()).Deactivated(k)
      ensures forall other, tried, later ::
                Contents().Eligible(other, tried, later) <==>
                    other != k && old(Contents()).Eligible(other, tried, later)
    {
      deactivated := deactivated + {k};
    }
  }

  // ----- fairness

  /** Place `j` of a tour that began at `start`. */
  function Place(start: nat, j: nat, n: nat): (r: nat)
    requires n > 0
    ensures r < n
  {
    Wrap(start + j, n)
  }

  /** Eligible positions met on the rest of one tour that began at `start`. */
  function Tour(p: Pool, start: nat, a: nat, now: real): seq<nat>
    requires p.Valid() && a <= |p.keys|
    decreases |p.keys| - a
  {
    if a == |p.keys| then []
    else
      var at := Place(start, a, |p.keys|);
      (if p.Eligible(p.keys[at], {}, now) then [at] else []) + Tour(p, start, a + 1, now)
  }

  /** Nothing to take from place `a` up to place `b` of the tour. */
  ghost predicate Barren(p: Pool, start: nat, a: nat, b: nat, now: real)
    requires p.Valid()
  {
    forall j :: a <= j < b ==> !p.Eligible(p.keys[Place(start, j, |p.keys|)], {}, now)
  }

  lemma {:induction false} TourSkips(p: Pool, start: nat, a: nat, b: nat, now: real)
    requires p.Valid() && a <= b <= |p.keys| && Barren(p, start, a, b, now)
    ensures Tour(p, start, a, now) == Tour(p, start, b, now)
    decreases b - a
  {
    hide Wrap;
    if a < b {
      TourSkips(p, start, a + 1, b, now);
    }
  }

  /** The tour from `start` has reached place `a`. */
  ghost predicate OnTour(p: Pool, start: nat, a: nat) {
    p.Valid() && a <= |p.keys| && p.index == Place(start, a, |p.keys|)
  }

  lemma ScannedIsBarren(p: Pool, start: nat, a: nat, n: nat, now: real)
    requires OnTour(p, start, a) && n <= |p.keys|
    requires forall j :: 0 <= j < n ==> !p.Eligible(p.keys[p.Position(j)], {}, now)
    ensures Barren(p, start, a, a + n, now)
  {
    hide Wrap;
    forall j | a <= j < a + n ensures !p.Eligible(p.keys[Place(start, j, |p.keys|)], {}, now) {
      WrapAdd(start + a, j - a, |p.keys|);
      assert p.Position(j - a) == Place(start, j, |p.keys|);
    }
  }

  /** The next key taken is the next of the tour, and the tour goes on behind it. */
  lemma NextOfTour(p: Pool, start: nat, a: nat, now: real) returns (b: nat)
    requires OnTour(p, start, a) && Tour(p, start, a, now) != []
    ensures var (p', k) := p.Acquired({}, now); var at := Tour(p, start, a, now)[0];
            && at < |p.keys| && k == Some(p.keys[at]) && OnTour(p', start, b)
            && Tour(p, start, b, now) == Tour(p, start, a, now)[1..]
  {
    hide Wrap;
    var n := |p.keys|;
    var found := p.Scan({}, now, 0);
    ScannedIsBarren(p, start, a, if found.Some? then found.value else n, now);
    if found.None? || a + found.value >= n {
      TourSkips(p, start, a, n, now);
      assert false;
    }
    var c := a + found.value;
    TourSkips(p, start, a, c, now);
    b := c + 1;
    WrapAdd(start + a, found.value, n);
    WrapAdd(start + c, 1, n);
    assert p.Position(found.value) == Place(start, c, n);
  }

  /** The keys taken by one acquisition after another, without tried keys. */
  function TakeAll(p: Pool, times: seq<real>): seq<Option<Key>>
    requires p.Valid()
    decreases |times|
  {
    if times == [] then []
    else
      var (p', k) := p.Acquired({}, times[0]);
      [k] + TakeAll(p', times[1..])
  }

  function KeysAt(p: Pool, positions: seq<nat>): seq<Option<Key>>
    requires forall i :: 0 <= i < |positions| ==> positions[i] < |p.keys|
  {
    seq(|positions|, i requires 0 <= i < |positions| => Some(p.keys[positions[i]]))
  }

  /** Nobody's cooldown ends and nothing else changes between these times. */
  ghost predicate Steady(p: Pool, times: seq<real>) {
    && (forall i, j :: 0 <= i < j < |times| ==> times[i] <= times[j])
    && (forall i, k :: 0 <= i < |times| && k in p.keys ==>
        (p.Eligible(k, {}, times[i]) <==> p.Eligible(k, {}, times[0])))
  }

  lemma {:induction false} TourInRange(p: Pool, start: nat, a: nat, now: real)
    requires p.Valid() && a <= |p.keys|
    ensures forall i :: 0 <= i < |Tour(p, start, a, now)| ==> Tour(p, start, a, now)[i] < |p.keys|
    decreases |p.keys| - a
  {
    hide Wrap;
    if a < |p.keys| {
      TourInRange(p, start, a + 1, now);
    }
  }

  /** A tour depends on the eligible keys only. */
  lemma {:induction false} TourSame(p: Pool, q: Pool, start: nat, a: nat, now: real, later: real)
    requires p.Valid() && q.Valid() && p.keys == q.keys && a <= |p.keys|
    requires forall k :: k in p.keys ==> (p.Eligible(k, {}, now) <==> q.Eligible(k, {}, later))
    ensures Tour(p, start, a, now) == Tour(q, start, a, later)
    decreases |p.keys| - a
  {
    hide Wrap, Pool.Eligible;
    if a < |p.keys| {
      assert p.keys[Place(start, a, |p.keys|)] in p.keys;
      TourSame(p, q, start, a + 1, now, later);
    }
  }

  lemma SteadyAfter(p: Pool, times: seq<real>)
    requires p.Valid() && |times| > 1 && Steady(p, times)
    ensures var p' := p.Acquired({}, times[0]).0;
            && p'.keys == p.keys && Steady(p', times[1..])
            && forall k :: k in p.keys ==> (p.Eligible(k, {}, times[0]) <==> p'.Eligible(k, {}, times[1]))
  {
    hide Wrap;
    var p', rest := p.Acquired({}, times[0]).0, times[1..];
    forall i, k | 0 <= i < |rest| && k in p.keys ensures p'.Eligible(k, {}, rest[i]) <==> p.Eligible(k, {}, times[0]) {
      PrunedEligible(p, times[0], rest[i], k, {});
    }
  }

  /** Consecutive acquisitions follow the tour. */
  lemma {:induction false} TakesFollowTour(p: Pool, start: nat, a: nat, times: seq<real>)
    requires OnTour(p, start, a) && times != [] && Steady(p, times)
    requires |times| <= |Tour(p, start, a, times[0])|
    ensures var tour := Tour(p, start, a, times[0]);
            && (forall i :: 0 <= i < |tour| ==> tour[i] < |p.keys|)
            && TakeAll(p, times) == KeysAt(p, tour[..|times|])
    decreases |times|
  {
    hide Wrap, Pool.Eligible, Steady;
    TourInRange(p, start, a, times[0]);
    var tour := Tour(p, start, a, times[0]);
    var (p', k) := p.Acquired({}, times[0]);
    var b := NextOfTour(p, start, a, times[0]);
    if |times| == 1 {
      assert times[1..] == [];
      assert TakeAll(p, times) == [k] + TakeAll(p', []);
    } else {
      SteadyAfter(p, times);
      TourSame(p, p', start, b, times[0], times[1]);
      TakesFollowTour(p', start, b, times[1..]);
      var rest := Tour(p', start, b, times[1]);
      assert tour[..|times|] == [tour[0]] + rest[..|times| - 1];
      assert KeysAt(p, tour[..|times|]) == [k] + KeysAt(p', rest[..|times| - 1]);
    }
  }

  /** A whole tour meets every eligible position, and no position twice. */
  lemma {:induction false} TourOffsets(p: Pool, start: nat, a: nat, now: real, j: nat)
    requires p.Valid() && a <= j < |p.keys| && p.Eligible(p.keys[Place(start, j, |p.keys|)], {}, now)
    ensures Place(start, j, |p.keys|) in Tour(p, start, a, now)
    decreases |p.keys| - a
  {
    hide Wrap, Pool.Eligible;
    if a < j {
      TourOffsets(p, start, a + 1, now, j);
    }
  }

  lemma {:induction false} TourElement(p: Pool, start: nat, a: nat, now: real, at: nat) returns (j: nat)
    requires p.Valid() && a <= |p.keys| && at in Tour(p, start, a, now)
    ensures a <= j < |p.keys| && at == Place(start, j, |p.keys|) && p.Eligible(p.keys[at], {}, now)
    decreases |p.keys| - a
  {
    hide Wrap, Pool.Eligible;
    var here := Place(start, a, |p.keys|);
    if p.Eligible(p.keys[here], {}, now) && at == here {
      j := a;
    } else {
      j := TourElement(p, start, a + 1, now, at);
    }
  }

  lemma WrapDiffers(start: nat, i: nat, j: nat, n: nat)
    requires start < n && i < j < n
    ensures Place(start, i, n) != Place(start, j, n)
  {
    hide Wrap;
    WrapPlain(start + i, n);
    WrapPlain(start + j, n);
  }

  lemma WrapPlain(x: nat, n: nat)
    requires 0 < n && x < 2 * n
    ensures Wrap(x, n) == if x < n then x else x - n
  {
    hide Wrap;
    if x < n {
      WrapSmall(x, n);
    } else {
      WrapAround(x - n, n);
      WrapSmall(x - n, n);
    }
  }

  lemma {:induction false} TourDistinct(p: Pool, start: nat, a: nat, now: real)
    requires p.Valid() && a <= |p.keys| && start < |p.keys|
    ensures Distinct(Tour(p, start, a, now))
    decreases |p.keys| - a
  {
    hide Wrap, Pool.Eligible;
    if a < |p.keys| {
      TourDistinct(p, start, a + 1, now);
      var here, rest := Place(start, a, |p.keys|), Tour(p, start, a + 1, now);
      if here in rest {
        var j := TourElement(p, start, a + 1, now, here);
        WrapDiffers(start, a, j, |p.keys|);
        assert false;
      }
      var t := Tour(p, start, a, now);
      if p.Eligible(p.keys[here], {}, now) {
        assert t == [here] + rest;
        forall i, j | 0 <= i < j < |t| ensures t[i] != t[j] {
          assert t[j] == rest[j - 1] && (i == 0 || t[i] == rest[i - 1]);
        }
      } else {
        assert t == rest;
      }
    }
  }

  function EligibleKeys(p: Pool, now: real): set<Key> {
    set k | k in p.keys && p.Eligible(k, {}, now)
  }

  /**
   Fairness: with distinct keys and nothing changing meanwhile, as many acquisitions in a
   row as there are eligible keys return each of them exactly once, wherever the index stood.
   */
  lemma RoundRobinIsFair(p: Pool, times: seq<real>, k: Key)
    requires p.Valid() && Distinct(p.keys) && times != [] && Steady(p, times)
    requires |times| == |EligibleKeys(p, times[0])|
    ensures var taken := TakeAll(p, times);
            && |taken| == |times|
            && (forall i :: 0 <= i < |taken| ==> taken[i].Some? && taken[i].value in EligibleKeys(p, times[0]))
            && Distinct(taken)
            && (k in EligibleKeys(p, times[0]) ==> Some(k) in taken)
  {
    hide Wrap, Pool.Eligible, Steady, Tour, TakeAll;
    var n, start, now := |p.keys|, p.index, times[0];
    WrapSmall(start, n);
    var tour := Tour(p, start, 0, now);
    TourInRange(p, start, 0, now);
    TourDistinct(p, start, 0, now);
    TourCovers(p, now);
    TourCount(p, now);
    TakesFollowTour(p, start, 0, times);
    assert tour[..|times|] == tour;
    forall i | 0 <= i < |tour| ensures p.keys[tour[i]] in EligibleKeys(p, now) {
      var j := TourElement(p, start, 0, now, tour[i]);
    }
    if k in EligibleKeys(p, now) {
      var i :| 0 <= i < |tour| && p.keys[tour[i]] == k;
      assert TakeAll(p, times)[i] == Some(k);
    }
  }

  lemma TourCovers(p: Pool, now: real)
    requires p.Valid()
    ensures forall i :: 0 <= i < |Tour(p, p.index, 0, now)| ==> Tour(p, p.index, 0, now)[i] < |p.keys|
    ensures forall k :: k in EligibleKeys(p, now) ==>
              exists i :: 0 <= i < |Tour(p, p.index, 0, now)| && p.keys[Tour(p, p.index, 0, now)[i]] == k
  {
    hide Wrap, Pool.Eligible, Tour;
    TourInRange(p, p.index, 0, now);
    var tour := Tour(p, p.index, 0, now);
    forall k | k in EligibleKeys(p, now) ensures exists i :: 0 <= i < |tour| && p.keys[tour[i]] == k {
      var at :| 0 <= at < |p.keys| && p.keys[at] == k;
      var j := EveryPosition(p, at);
      TourOffsets(p, p.index, 0, now, j);
      var i :| 0 <= i < |tour| && tour[i] == at;
    }
  }

  /** A tour is as long as there are eligible keys. */
  lemma TourCount(p: Pool, now: real)
    requires p.Valid() && Distinct(p.keys)
    ensures |Tour(p, p.index, 0, now)| == |EligibleKeys(p, now)|
  {
    hide Wrap, Pool.Eligible, Tour;
    var tour := Tour(p, p.index, 0, now);
    TourInRange(p, p.index, 0, now);
    TourDistinct(p, p.index, 0, now);
    TourCovers(p, now);
    var keys := seq(|tour|, i requires 0 <= i < |tour| => p.keys[tour[i]]);
    forall i | 0 <= i < |keys| ensures keys[i] in EligibleKeys(p, now) {
      var j := TourElement(p, p.index, 0, now, tour[i]);
    }
    forall k | k in EligibleKeys(p, now) ensures k in keys {
      var i :| 0 <= i < |tour| && p.keys[tour[i]] == k;
      assert keys[i] == k;
    }
    DistinctCount(keys, EligibleKeys(p, now));
  }

  lemma {:induction false} DistinctCount(s: seq<Key>, all: set<Key>)
    requires Distinct(s)
    requires forall k :: k in all <==> k in s
    ensures |s| == |all|
  {
    if s == [] {
      assert all == {};
    } else {
      var n := |s| - 1;
      forall k ensures k in all - {s[n]} <==> k in s[..n] {
      }
      DistinctCount(s[..n], all - {s[n]});
    }
  }
}
