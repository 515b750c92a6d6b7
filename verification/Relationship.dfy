/**
 Relationship snapshots: their validation, with the normalisation of triggers, and the
 transition of one turn. Sums are rounded by an arbitrary arithmetic `f`; literals are
 rounded as well.
 */
module Relationship {
  import opened Sequences
  import opened Rounding

  datatype Result<+T> = Ok(value: T) | Err(error: string)

  // ----- triggers

  /** The characters `str.strip` removes. */
  predicate IsSpace(c: char) {
    var n := c as int;
    || 0x09 <= n <= 0x0D || 0x1C <= n <= 0x20 || n == 0x85 || n == 0xA0 || n == 0x1680
    || 0x2000 <= n <= 0x200A || n == 0x2028 || n == 0x2029 || n == 0x202F || n == 0x205F || n == 0x3000
  }

  function StripLeft(s: string): string {
    if s != "" && IsSpace(s[0]) then StripLeft(s[1..]) else s
  }

  function StripRight(s: string): string {
    if s != "" && IsSpace(s[|s| - 1]) then StripRight(s[..|s| - 1]) else s
  }

  function Strip(s: string): string {
    StripRight(StripLeft(s))
  }

  predicate Trimmed(s: string) {
    s == "" || (!IsSpace(s[0]) && !IsSpace(s[|s| - 1]))
  }

  lemma {:induction false} StripRightEnds(s: string)
    ensures StripRight(s) == "" || !IsSpace(StripRight(s)[|StripRight(s)| - 1])
    ensures |StripRight(s)| <= |s| && StripRight(s) == s[..|StripRight(s)|]
  {
    hide IsSpace;
    if s != "" && IsSpace(s[|s| - 1]) {
      StripRightEnds(s[..|s| - 1]);
    }
  }

  lemma {:induction false} StripLeftBegins(s: string)
    ensures StripLeft(s) == "" || !IsSpace(StripLeft(s)[0])
  {
    hide IsSpace;
    if s != "" && IsSpace(s[0]) {
      StripLeftBegins(s[1..]);
    }
  }

  lemma StripTrims(s: string)
    ensures Trimmed(Strip(s))
  {
    hide IsSpace, StripLeft, StripRight;
    StripLeftBegins(s);
    StripRightEnds(StripLeft(s));
    var left, both := StripLeft(s), Strip(s);
    if both != "" {
      assert both[0] == left[..|both|][0] == left[0];
    }
  }

  lemma StripOfTrimmed(s: string)
    requires Trimmed(s)
    ensures Strip(s) == s
  {
    hide IsSpace;
  }

  function StripAll(raw: seq<string>): (r: seq<string>)
    ensures |r| == |raw|
  {
    seq(|raw|, i requires 0 <= i < |raw| => Strip(raw[i]))
  }

  predicate Acceptable(s: string) {
    s != "" && |s| <= 128
  }

  /** What validation makes of a list: trimmed, each text once, in the order of first occurrence. */
  function Normalised(raw: seq<string>): Result<seq<string>> {
    if |raw| > 32 then Err("too many triggers")
    else if exists i :: 0 <= i < |raw| && !Acceptable(Strip(raw[i])) then Err("invalid trigger")
    else Ok(FirstOccurrences(StripAll(raw)))
  }

  /** `_validate_triggers`: the loop with its set of texts seen. */
  method ValidateTriggers(raw: seq<string>) returns (r: Result<seq<string>>)
    ensures r == Normalised(raw)
  {
    hide Strip, FirstOccurrences, Acceptable;
    if |raw| > 32 {
      return Err("too many triggers");
    }
    var seen: set<string> := {};
    var result: seq<string> := [];
    var i := 0;
    NoneYet(StripAll(raw));
    while i < |raw|
      invariant i <= |raw| && forall j :: 0 <= j < i ==> Acceptable(Strip(raw[j]))
      invariant result == FirstOccurrences(StripAll(raw)[..i])
      invariant forall s :: s in seen <==> s in StripAll(raw)[..i]
    {
      var stripped := Strip(raw[i]);
      if !Acceptable(stripped) {
        return Err("invalid trigger");
      }
      NextOccurrence(StripAll(raw), i);
      if stripped !in seen {
        result := result + [stripped];
      }
      assert StripAll(raw)[..i + 1] == StripAll(raw)[..i] + [stripped];
      seen := seen + {stripped};
      i := i + 1;
    }
    assert StripAll(raw)[..i] == StripAll(raw);
    return Ok(result);
  }

  lemma NoneYet(s: seq<string>)
    ensures FirstOccurrences(s[..0]) == [] && s[..0] == []
  {
  }

  lemma NextOccurrence(s: seq<string>, i: nat)
    requires i < |s|
    ensures FirstOccurrences(s[..i + 1]) == FirstOccurrences(s[..i]) + if s[i] in s[..i] then [] else [s[i]]
  {
    assert s[..i + 1][..i] == s[..i] && s[..i + 1][i] == s[i];
  }

  /** Already in normal form. */
  predicate NormalTriggers(ts: seq<string>) {
    |ts| <= 32 && Distinct(ts) && forall i :: 0 <= i < |ts| ==> Trimmed(ts[i]) && Acceptable(ts[i])
  }

  lemma {:induction false} DistinctAreFirst(s: seq<string>)
    requires Distinct(s)
    ensures FirstOccurrences(s) == s
  {
    if s != [] {
      var n := |s| - 1;
      DistinctAreFirst(s[..n]);
      assert s == s[..n] + [s[n]];
    }
  }

  lemma {:induction false} FirstOccurrencesShorter(s: seq<string>)
    ensures |FirstOccurrences(s)| <= |s|
  {
    if s != [] {
      FirstOccurrencesShorter(s[..|s| - 1]);
    }
  }

  /** Validation is a normal form: what it returns is normal, and exactly the normal lists come back as they are. */
  lemma NormalForm(raw: seq<string>)
    ensures Normalised(raw).Ok? ==> NormalTriggers(Normalised(raw).value)
    ensures Normalised(raw) == Ok(raw) <==> NormalTriggers(raw)
  {
    hide Strip, Trimmed;
    if NormalTriggers(raw) {
      forall i | 0 <= i < |raw| ensures StripAll(raw)[i] == raw[i] {
        StripOfTrimmed(raw[i]);
      }
      assert StripAll(raw) == raw;
      DistinctAreFirst(raw);
    }
    if Normalised(raw).Ok? {
      var ts := FirstOccurrences(StripAll(raw));
      FirstOccurrencesShorter(StripAll(raw));
      forall i | 0 <= i < |ts| ensures Trimmed(ts[i]) && Acceptable(ts[i]) {
        assert ts[i] in StripAll(raw);
        var j :| 0 <= j < |raw| && StripAll(raw)[j] == ts[i];
        StripTrims(raw[j]);
      }
    }
  }

  lemma {:induction false} LeftCut(s: string) returns (a: nat)
    ensures a <= |s| && StripLeft(s) == s[a..] && forall i :: 0 <= i < a ==> IsSpace(s[i])
  {
    hide IsSpace;
    if s != "" && IsSpace(s[0]) {
      a := LeftCut(s[1..]);
      a := a + 1;
    } else {
      a := 0;
    }
  }

  lemma {:induction false} RightCut(s: string) returns (b: nat)
    ensures b <= |s| && StripRight(s) == s[..b] && forall i :: b <= i < |s| ==> IsSpace(s[i])
  {
    hide IsSpace;
    if s != "" && IsSpace(s[|s| - 1]) {
      b := RightCut(s[..|s| - 1]);
    } else {
      b := |s|;
    }
  }

  /** Stripping takes away the spaces at both ends and nothing else. */
  lemma StripExactly(s: string) returns (a: nat, b: nat)
    ensures a <= b <= |s| && Strip(s) == s[a..b] && Trimmed(s[a..b])
    ensures forall i :: 0 <= i < |s| && (i < a || i >= b) ==> IsSpace(s[i])
  {
    hide IsSpace, StripLeft, StripRight;
    a := LeftCut(s);
    var left := s[a..];
    b := RightCut(left);
    assert forall i :: 0 <= i < |left| ==> left[i] == s[a + i];
    b := a + b;
    assert left[..b - a] == s[a..b];
    StripTrims(s);
    forall i | 0 <= i < |s| && (i < a || i >= b) ensures IsSpace(s[i]) {
      assert i >= a ==> s[i] == left[i - a];
    }
  }

  /** Refused exactly for more than 32 triggers or one that is empty or longer than 128 characters once stripped. */
  lemma TriggersExactly(raw: seq<string>)
    ensures Normalised(raw).Err? <==>
            |raw| > 32 || exists i :: 0 <= i < |raw| && (|Strip(raw[i])| == 0 || |Strip(raw[i])| > 128)
    ensures Normalised(raw).Ok? ==>
            && Distinct(Normalised(raw).value)
            && forall t :: t in Normalised(raw).value <==> exists i :: 0 <= i < |raw| && Strip(raw[i]) == t
  {
    hide Strip;
    if Normalised(raw).Ok? {
      forall t ensures t in Normalised(raw).value <==> exists i :: 0 <= i < |raw| && Strip(raw[i]) == t {
        if i :| 0 <= i < |raw| && Strip(raw[i]) == t {
          assert StripAll(raw)[i] == t;
        }
        if t in StripAll(raw) {
          var i :| 0 <= i < |raw| && StripAll(raw)[i] == t;
        }
      }
    }
  }

  // ----- snapshots

  datatype State = State(trust: real, affection: real, tension: real, triggers: seq<string>, timestamp: real) {
    predicate Valid() {
      && 0.0 <= trust <= 1.0 && 0.0 <= affection <= 1.0 && 0.0 <= tension <= 1.0
      && NormalTriggers(triggers) && timestamp > 0.0
    }

    /** The metrics are numbers of the arithmetic. */
    predicate In(f: Arithmetic) {
      f.Has(trust) && f.Has(affection) && f.Has(tension)
    }
  }

  function Create(
    trust: real, affection: real, tension: real, triggers: seq<string>, timestamp: real): Result<State>
  {
    if !(0.0 <= trust <= 1.0) then Err("trust")
    else if !(0.0 <= affection <= 1.0) then Err("affection")
    else if !(0.0 <= tension <= 1.0) then Err("tension")
    else if timestamp <= 0.0 then Err("timestamp")
    else
      var ts := Normalised(triggers);
      if ts.Err? then Err(ts.error) else Ok(State(trust, affection, tension, ts.value, timestamp))
  }

  function Neutral(f: Arithmetic, timestamp: real): Result<State> {
    Create(f.round(0.5), f.round(0.3), 0.0, [], timestamp)
  }

  datatype Bond = InConflict | Tense | Soulmate | Intimate | Friends | Distrustful | Acquaintances

  function BondLabel(f: Arithmetic, s: State): Bond {
    if s.tension > f.round(0.7) then InConflict
    else if s.tension > f.round(0.4) then Tense
    else if s.trust > f.round(0.8) && s.affection > f.round(0.8) then Soulmate
    else if s.trust > f.round(0.7) && s.affection > f.round(0.6) then Intimate
    else if s.trust > f.round(0.5) && s.affection > f.round(0.4) then Friends
    else if s.trust < f.round(0.3) then Distrustful
    else Acquaintances
  }

  // ----- the transition

  datatype Config = Config(
    trustUpAbove: real, trustUp: real, trustDownBelow: real, trustDown: real,
    tendernessAbove: real, tendernessBoost: real, joyAbove: real, joyBoost: real,
    gratitudeAbove: real, gratitudeBoost: real, angerAbove: real, angerSpike: real,
    disgustAbove: real, disgustSpike: real, spikeBelow: real, spike: real,
    reconcileAbove: real, reconcile: real)
  {
    /** The constraints on deltas; thresholds may be anything in their range. */
    predicate Valid() {
      && 0.0 <= trustUp <= 1.0 && -1.0 <= trustDown <= 0.0
      && 0.0 <= tendernessBoost <= 1.0 && 0.0 <= joyBoost <= 1.0 && 0.0 <= gratitudeBoost <= 1.0
      && 0.0 <= angerSpike <= 1.0 && 0.0 <= disgustSpike <= 1.0 && 0.0 <= spike <= 1.0
      && 0.0 <= reconcile <= 1.0
    }

    function MostAffection(): real {
      tendernessBoost + joyBoost + gratitudeBoost
    }

    function MostTension(): real {
      angerSpike + disgustSpike + spike
    }
  }

  function Defaults(f: Arithmetic): Config {
    Config(
      f.round(0.2), f.round(0.02), f.round(-0.3), f.round(-0.05),
      f.round(0.3), f.round(0.03), f.round(0.3), f.round(0.01),
      f.round(0.3), f.round(0.02), f.round(0.3), f.round(0.1),
      f.round(0.3), f.round(0.1), f.round(-0.5), f.round(0.05),
      f.round(0.3), f.round(0.1))
  }

  datatype Appraisal = Appraisal(valence: real, emotions: map<string, real>) {
    function Emotion(name: string): real {
      if name in emotions then emotions[name] else 0.0
    }
  }

  function Clamp(x: real): real {
    if x < 0.0 then 0.0 else if x > 1.0 then 1.0 else x
  }

  function TrustDelta(a: Appraisal, c: Config): real {
    if a.valence > c.trustUpAbove then c.trustUp
    else if a.valence < c.trustDownBelow then c.trustDown
    else 0.0
  }

  /** `sum += amount` under a condition. */
  function Plus(f: Arithmetic, sum: real, condition: bool, amount: real): real {
    if condition then f.Add(sum, amount) else sum
  }

  function AffectionBoost(f: Arithmetic, a: Appraisal, c: Config): real {
    var tender := Plus(f, 0.0, a.Emotion("tenderness") > c.tendernessAbove, c.tendernessBoost);
    var joyful := Plus(f, tender, a.Emotion("joy") > c.joyAbove, c.joyBoost);
    Plus(f, joyful, a.Emotion("gratitude") > c.gratitudeAbove, c.gratitudeBoost)
  }

  function TensionSpike(f: Arithmetic, a: Appraisal, c: Config): real {
    var angry := Plus(f, 0.0, a.Emotion("anger") > c.angerAbove, c.angerSpike);
    var disgusted := Plus(f, angry, a.Emotion("disgust") > c.disgustAbove, c.disgustSpike);
    Plus(f, disgusted, a.valence < c.spikeBelow, c.spike)
  }

  function Reconciled(f: Arithmetic, raised: real, a: Appraisal, c: Config): real {
    if a.valence > c.reconcileAbove && raised > 0.0 then Clamp(f.Add(raised, -c.reconcile)) else raised
  }

  function Transition(f: Arithmetic, s: State, a: Appraisal, now: real, c: Config): Result<State> {
    if now <= 0.0 then Err("current_time")
    else if now < s.timestamp then Err("clock regression")
    else
      var trust := Clamp(f.Add(s.trust, TrustDelta(a, c)));
      var affection := Clamp(f.Add(s.affection, AffectionBoost(f, a, c)));
      var raised := Clamp(f.Add(s.tension, TensionSpike(f, a, c)));
      Create(trust, affection, Reconciled(f, raised, a, c), s.triggers, now)
  }

  /** Three conditional additions of what is between zero and one. */
  lemma PlusBounds(f: Arithmetic, sum: real, condition: bool, amount: real, limit: real)
    requires f.Valid() && 0.0 <= sum <= limit <= 3.0 && 0.0 <= amount <= 1.0
    ensures 0.0 <= Plus(f, sum, condition, amount) <= limit + amount + f.eps
  {
    if condition {
      SumNear(f, sum, amount);
      Ordered(f, 0.0, sum + amount);
    }
  }

  lemma BoostBounds(f: Arithmetic, a: Appraisal, c: Config)
    requires f.Valid() && c.Valid()
    ensures 0.0 <= AffectionBoost(f, a, c) <= c.MostAffection() + 3.0 * f.eps
    ensures 0.0 <= TensionSpike(f, a, c) <= c.MostTension() + 3.0 * f.eps
  {
    hide Plus, Arithmetic.Valid;
    Small(f);
    var tender := Plus(f, 0.0, a.Emotion("tenderness") > c.tendernessAbove, c.tendernessBoost);
    PlusBounds(f, 0.0, a.Emotion("tenderness") > c.tendernessAbove, c.tendernessBoost, 0.0);
    var joyful := Plus(f, tender, a.Emotion("joy") > c.joyAbove, c.joyBoost);
    PlusBounds(f, tender, a.Emotion("joy") > c.joyAbove, c.joyBoost, c.tendernessBoost + f.eps);
    PlusBounds(f, joyful, a.Emotion("gratitude") > c.gratitudeAbove, c.gratitudeBoost,
               c.tendernessBoost + c.joyBoost + 2.0 * f.eps);
    var angry := Plus(f, 0.0, a.Emotion("anger") > c.angerAbove, c.angerSpike);
    PlusBounds(f, 0.0, a.Emotion("anger") > c.angerAbove, c.angerSpike, 0.0);
    var disgusted := Plus(f, angry, a.Emotion("disgust") > c.disgustAbove, c.disgustSpike);
    PlusBounds(f, angry, a.Emotion("disgust") > c.disgustAbove, c.disgustSpike, c.angerSpike + f.eps);
    PlusBounds(f, disgusted, a.valence < c.spikeBelow, c.spike, c.angerSpike + c.disgustSpike + 2.0 * f.eps);
  }

  lemma Small(f: Arithmetic)
    requires f.Valid()
    ensures 0.0 <= f.eps <= 0.0001
  {
  }

  /** Adding what is not negative never takes anything away, whatever the rounding. */
  lemma NeverLess(f: Arithmetic, x: real, y: real)
    requires f.Valid() && f.Has(x) && 0.0 <= x <= 1.0 && 0.0 <= y
    ensures x <= Clamp(f.Add(x, y)) <= 1.0 && f.Has(Clamp(f.Add(x, y)))
  {
    Ordered(f, x, x + y);
  }

  lemma ClampNear(f: Arithmetic, x: real, y: real)
    requires f.Valid() && 0.0 <= x <= 1.0 && -1.0 <= y <= 3.0
    ensures f.Has(Clamp(f.Add(x, y))) && 0.0 <= Clamp(f.Add(x, y)) <= 1.0
    ensures x + y - f.eps <= Clamp(f.Add(x, y)) || Clamp(f.Add(x, y)) == 1.0
    ensures Clamp(f.Add(x, y)) <= x + y + f.eps || Clamp(f.Add(x, y)) == 0.0
  {
    SumNear(f, x, y);
  }

  /** What a transition may make of the state. */
  ghost predicate Step(f: Arithmetic, s: State, t: State, c: Config) {
    && t.Valid() && t.In(f) && t.triggers == s.triggers
    && s.affection <= t.affection <= s.affection + c.MostAffection() + 4.0 * f.eps
    && (s.trust + c.trustDown - f.eps <= t.trust || t.trust == 1.0)
    && t.trust <= s.trust + c.trustUp + f.eps
    && s.tension - c.reconcile - f.eps <= t.tension <= s.tension + c.MostTension() + 4.0 * f.eps
  }

  /**
   A transition fails exactly for a time that goes back, and never because of the state it
   builds; with any rounding it keeps ranges and triggers, never lowers affection, and bounds the gains.
   */
  lemma TransitionStep(f: Arithmetic, s: State, a: Appraisal, now: real, c: Config)
    requires f.Valid() && s.Valid() && s.In(f) && c.Valid()
    ensures var r := Transition(f, s, a, now, c);
            && (r.Ok? <==> now >= s.timestamp)
            && (r.Ok? ==> Step(f, s, r.value, c) && r.value.timestamp == now)
  {
    hide Normalised, NormalTriggers, AffectionBoost, TensionSpike, Arithmetic.Valid, Clamp, Arithmetic.Has;
    NormalForm(s.triggers);
    BoostBounds(f, a, c);
    Small(f);
    var boost, spike := AffectionBoost(f, a, c), TensionSpike(f, a, c);
    NeverLess(f, s.affection, boost);
    Above(f, s.affection, boost);
    TrustBounds(f, s.trust, a, c);
    NeverLess(f, s.tension, spike);
    Above(f, s.tension, spike);
    ReconciledBounds(f, Clamp(f.Add(s.tension, spike)), a, c);
  }

  lemma Above(f: Arithmetic, x: real, y: real)
    requires f.Valid() && 0.0 <= x <= 1.0 && 0.0 <= y <= 3.1
    ensures Clamp(f.Add(x, y)) <= x + y + f.eps
  {
    if x + y <= 4.0 {
      SumNear(f, x, y);
    }
  }

  lemma TrustBounds(f: Arithmetic, x: real, a: Appraisal, c: Config)
    requires f.Valid() && 0.0 <= x <= 1.0 && c.Valid()
    ensures var t := Clamp(f.Add(x, TrustDelta(a, c)));
            && 0.0 <= t <= 1.0 && f.Has(t) && t <= x + c.trustUp + f.eps && (x + c.trustDown - f.eps <= t || t == 1.0)
  {
    ClampNear(f, x, TrustDelta(a, c));
  }

  lemma ReconciledBounds(f: Arithmetic, x: real, a: Appraisal, c: Config)
    requires f.Valid() && f.Has(x) && 0.0 <= x <= 1.0 && c.Valid()
    ensures var t := Reconciled(f, x, a, c);
            0.0 <= t <= x && f.Has(t) && x - c.reconcile - f.eps <= t
  {
    if a.valence > c.reconcileAbove && x > 0.0 {
      ClampNear(f, x, -c.reconcile);
      Ordered(f, x - c.reconcile, x);
      Ordered(f, x - c.reconcile, 1.0);
    }
  }

  datatype Turn = Turn(appraisal: Appraisal, now: real)

  /** A failed transition leaves the snapshot that was there. */
  function Run(f: Arithmetic, s: State, turns: seq<Turn>, c: Config): State
    decreases |turns|
  {
    if turns == [] then s
    else
      var before := Run(f, s, turns[..|turns| - 1], c);
      var r := Transition(f, before, turns[|turns| - 1].appraisal, turns[|turns| - 1].now, c);
      if r.Ok? then r.value else before
  }

  /** Over every run, with any rounding. */
  lemma {:induction false} WhatRunsKeep(f: Arithmetic, s: State, turns: seq<Turn>, c: Config)
    requires f.Valid() && s.Valid() && s.In(f) && c.Valid()
    ensures var n := Run(f, s, turns, c);
            && n.Valid() && n.In(f) && n.triggers == s.triggers && n.timestamp >= s.timestamp
            && s.affection <= n.affection <= s.affection + Scaled(|turns|, c.MostAffection() + 4.0 * f.eps)
            && n.trust <= s.trust + Scaled(|turns|, c.trustUp + f.eps)
    decreases |turns|
  {
    hide Transition, Arithmetic.Valid, Arithmetic.Has, NormalTriggers;
    Small(f);
    if turns != [] {
      var before := turns[..|turns| - 1];
      WhatRunsKeep(f, s, before, c);
      TransitionStep(f, Run(f, s, before, c), turns[|turns| - 1].appraisal, turns[|turns| - 1].now, c);
    }
  }

  /** `n * x`. */
  function Scaled(n: nat, x: real): real {
    if n == 0 then 0.0 else Scaled(n - 1, x) + x
  }

  // ----- how long the top label takes

  function NeutralState(f: Arithmetic, start: real): State {
    State(f.round(0.5), f.round(0.3), 0.0, [], start)
  }

  lemma NeutralIsValid(f: Arithmetic, start: real)
    requires f.Valid() && start > 0.0
    ensures Neutral(f, start) == Ok(NeutralState(f, start))
    ensures NeutralState(f, start).Valid() && NeutralState(f, start).In(f)
    ensures 0.5 - f.eps <= f.round(0.5) <= 0.5 + f.eps && 0.3 - f.eps <= f.round(0.3) <= 0.3 + f.eps
    ensures 0.8 - f.eps <= f.round(0.8) <= 0.8 + f.eps && 0.02 - f.eps <= f.round(0.02) <= 0.02 + f.eps
  {
    hide Normalised;
    NoTriggers();
  }

  lemma DefaultsAreValid(f: Arithmetic)
    requires f.Valid()
    ensures Defaults(f).Valid()
  {
    Ordered(f, -1.0, -0.05);
    Ordered(f, -0.05, 0.0);
    forall x: real | 0.0 <= x <= 1.0 ensures 0.0 <= f.round(x) <= 1.0 {
      Ordered(f, 0.0, x);
      Ordered(f, x, 1.0);
    }
  }

  lemma NoTriggers()
    ensures Normalised([]) == Ok([])
  {
    assert StripAll([]) == [];
  }

  /** Trust after a run from neutral. */
  lemma TrustFromNeutral(f: Arithmetic, start: real, turns: seq<Turn>)
    requires f.Valid() && start > 0.0
    ensures Run(f, NeutralState(f, start), turns, Defaults(f)).trust <= 0.5 + f.eps
              + Scaled(|turns|, 0.02 + 2.0 * f.eps)
  {
    hide Run, Arithmetic.Valid, Arithmetic.Has;
    NeutralIsValid(f, start);
    DefaultsAreValid(f);
    WhatRunsKeep(f, NeutralState(f, start), turns, Defaults(f));
    ScaledMonotone(|turns|, f.round(0.02) + f.eps, 0.02 + 2.0 * f.eps);
  }

  lemma {:induction false} ScaledMonotone(n: nat, x: real, y: real)
    requires x <= y
    ensures Scaled(n, x) <= Scaled(n, y)
  {
    if n > 0 {
      ScaledMonotone(n - 1, x, y);
    }
  }

  lemma {:induction false} ScaledGrows(m: nat, n: nat, x: real)
    requires m <= n && x >= 0.0
    ensures Scaled(m, x) <= Scaled(n, x)
  {
    if m < n {
      ScaledGrows(m, n - 1, x);
    }
  }

  lemma ScaledSmall(x: real)
    ensures Scaled(14, x) == 14.0 * x && Scaled(15, x) == 15.0 * x && Scaled(16, x) == 16.0 * x
  {
    assert Scaled(1, x) == 1.0 * x;
    assert Scaled(2, x) == 2.0 * x;
    assert Scaled(3, x) == 3.0 * x;
    assert Scaled(4, x) == 4.0 * x;
    assert Scaled(5, x) == 5.0 * x;
    assert Scaled(6, x) == 6.0 * x;
    assert Scaled(7, x) == 7.0 * x;
    assert Scaled(8, x) == 8.0 * x;
    assert Scaled(9, x) == 9.0 * x;
    assert Scaled(10, x) == 10.0 * x;
    assert Scaled(11, x) == 11.0 * x;
    assert Scaled(12, x) == 12.0 * x;
    assert Scaled(13, x) == 13.0 * x;
    assert Scaled(14, x) == 14.0 * x;
    assert Scaled(15, x) == 15.0 * x;
    assert Scaled(16, x) == 16.0 * x;
  }

  /** From a neutral snapshot, with the default weights and any rounding, fifteen turns at least. */
  lemma SoulmatesTakeFifteenTurns(f: Arithmetic, start: real, turns: seq<Turn>)
    requires f.Valid() && start > 0.0
    requires BondLabel(f, Run(f, NeutralState(f, start), turns, Defaults(f))).Soulmate?
    ensures |turns| >= 15
  {
    hide Run, Arithmetic.Valid, Scaled;
    Small(f);
    NeutralIsValid(f, start);
    TrustFromNeutral(f, start, turns);
    if |turns| < 15 {
      ScaledGrows(|turns|, 14, 0.02 + 2.0 * f.eps);
      ScaledSmall(0.02 + 2.0 * f.eps);
      assert false;
    }
  }

  /** Over exact real numbers it takes one more. */
  lemma SixteenOverTheReals(start: real, turns: seq<Turn>)
    requires start > 0.0
    requires BondLabel(EXACT, Run(EXACT, NeutralState(EXACT, start), turns, Defaults(EXACT))).Soulmate?
    ensures |turns| >= 16
  {
    hide Run, Arithmetic.Valid, Scaled;
    ExactIsValid();
    TrustFromNeutral(EXACT, start, turns);
    if |turns| < 16 {
      ScaledGrows(|turns|, 15, 0.02);
      ScaledSmall(0.02);
      assert false;
    }
  }

  const KIND: Appraisal := Appraisal(1.0, map["tenderness" := 1.0, "joy" := 1.0, "gratitude" := 1.0])

  function KindTurns(n: nat, start: real): seq<Turn> {
    seq(n, _ => Turn(KIND, start))
  }

  lemma KindEmotions()
    ensures KIND.Emotion("tenderness") == KIND.Emotion("joy") == KIND.Emotion("gratitude") == 1.0
    ensures KIND.Emotion("anger") == KIND.Emotion("disgust") == 0.0
  {
  }

  lemma KindDeltas(f: Arithmetic)
    requires f.Valid()
    ensures var c := Defaults(f);
            && TrustDelta(KIND, c) == f.round(0.02) && TensionSpike(f, KIND, c) == 0.0
            && 0.06 - 6.0 * f.eps <= AffectionBoost(f, KIND, c) <= 0.1
  {
    hide Arithmetic.Valid, Arithmetic.Add, Arithmetic.Has, Appraisal.Emotion;
    var c := Defaults(f);
    Small(f);
    KindEmotions();
    Near(f, 0.2);
    Near(f, 0.3);
    Near(f, -0.5);
    Near(f, 0.03);
    Near(f, 0.01);
    Near(f, 0.02);
    SumNear(f, 0.0, c.tendernessBoost);
    SumNear(f, f.Add(0.0, c.tendernessBoost), c.joyBoost);
    SumNear(f, f.Add(f.Add(0.0, c.tendernessBoost), c.joyBoost), c.gratitudeBoost);
  }

  lemma KindStep(f: Arithmetic, s: State)
    requires f.Valid() && 0.0 <= s.trust <= 0.9 && 0.0 <= s.affection <= 1.0 && s.tension == 0.0
    requires s.triggers == [] && s.timestamp > 0.0
    ensures Transition(f, s, KIND, s.timestamp, Defaults(f)).Ok?
    ensures var t := Transition(f, s, KIND, s.timestamp, Defaults(f)).value;
            && t.tension == 0.0 && t.triggers == [] && t.timestamp == s.timestamp
            && t.trust == f.Add(s.trust, f.round(0.02))
                && s.trust + 0.02 - 2.0 * f.eps <= t.trust <= s.trust + 0.02 + 2.0 * f.eps
            && 0.0 <= t.affection <= 1.0 && (t.affection >= s.affection + 0.06 - 7.0 * f.eps || t.affection == 1.0)
  {
    hide Normalised, AffectionBoost, TensionSpike, Defaults;
    NoTriggers();
    KindDeltas(f);
    Near(f, 0.02);
    Near(f, 0.0);
    SumNear(f, s.trust, f.round(0.02));
    ClampNear(f, s.affection, AffectionBoost(f, KIND, Defaults(f)));
  }

  /** What kindness yields, with any rounding. */
  ghost predicate After(f: Arithmetic, n: nat, s: State, start: real) {
    && s.tension == 0.0 && s.triggers == [] && s.timestamp == start
    && 0.5 - f.eps + Scaled(n, 0.02 - 2.0 * f.eps) <= s.trust <= 0.5 + f.eps + Scaled(n, 0.02 + 2.0 * f.eps)
    && 0.0 <= s.affection <= 1.0
    && (s.affection >= 0.3 - f.eps + Scaled(n, 0.06 - 7.0 * f.eps) || s.affection == 1.0)
  }

  lemma {:induction false} KindnessPays(f: Arithmetic, n: nat, start: real)
    requires f.Valid() && n <= 16 && start > 0.0
    ensures After(f, n, Run(f, NeutralState(f, start), KindTurns(n, start), Defaults(f)), start)
  {
    hide Transition, Arithmetic.Valid, Arithmetic.Add, Defaults;
    Small(f);
    NeutralIsValid(f, start);
    if n > 0 {
      KindnessPays(f, n - 1, start);
      assert KindTurns(n, start)[..n - 1] == KindTurns(n - 1, start);
      var s := Run(f, NeutralState(f, start), KindTurns(n - 1, start), Defaults(f));
      StillRoom(f, n - 1, s, start);
      KindStep(f, s);
    }
  }

  lemma StillRoom(f: Arithmetic, n: nat, s: State, start: real)
    requires f.Valid() && n <= 15 && After(f, n, s, start)
    ensures 0.0 <= s.trust <= 0.9
  {
    hide Arithmetic.Valid, Scaled;
    Small(f);
    ScaledGrows(n, 15, 0.02 + 2.0 * f.eps);
    ScaledSmall(0.02 + 2.0 * f.eps);
    ScaledGrows(0, n, 0.02 - 2.0 * f.eps);
    ScaledNone(0.02 - 2.0 * f.eps);
  }

  lemma ScaledNone(x: real)
    ensures Scaled(0, x) == 0.0
  {
  }

  /** Sixteen turns are enough, with any rounding. */
  lemma SixteenTurnsSuffice(f: Arithmetic, start: real)
    requires f.Valid() && start > 0.0
    ensures BondLabel(f, Run(f, NeutralState(f, start), KindTurns(16, start), Defaults(f))).Soulmate?
  {
    hide Run, Arithmetic.Valid, Scaled;
    Small(f);
    NeutralIsValid(f, start);
    KindnessPays(f, 16, start);
    ScaledSmall(0.02 - 2.0 * f.eps);
    ScaledSmall(0.06 - 7.0 * f.eps);
    Near(f, 0.7);
    Near(f, 0.4);
  }

  // ----- fifteen turns on the grid of binary64

  /** The trust of the code's doubles after n kind turns, in units of 2^-53. */
  function TrustUnits(n: nat): int {
    4503599627370496 + 180143985094820 * n
  }

  lemma GridLiterals()
    ensures OnGrid(0.5) == 4503599627370496.0 / UNITS && OnGrid(0.02) == 180143985094820.0 / UNITS
    ensures OnGrid(0.8) == 7205759403792794.0 / UNITS
  {
    assert Nearest(0.5 * UNITS) == 4503599627370496;
    assert Nearest(0.02 * UNITS) == 180143985094820;
    assert Nearest(0.8 * UNITS) == 7205759403792794;
  }

  lemma {:induction false} TrustOnGrid(n: nat, start: real)
    requires n <= 15 && start > 0.0
    ensures Run(GRID, NeutralState(GRID, start), KindTurns(n, start), Defaults(GRID)).trust ==
              TrustUnits(n) as real / UNITS
  {
    hide Transition, Arithmetic.Valid, OnGrid, Defaults;
    GridIsValid();
    GridLiterals();
    if n > 0 {
      TrustOnGrid(n - 1, start);
      KindnessPays(GRID, n - 1, start);
      StillRoom(GRID, n - 1, Run(GRID, NeutralState(GRID, start), KindTurns(n - 1, start), Defaults(GRID)), start);
      assert KindTurns(n, start)[..n - 1] == KindTurns(n - 1, start);
      var s := Run(GRID, NeutralState(GRID, start), KindTurns(n - 1, start), Defaults(GRID));
      KindStep(GRID, s);
      assert s.trust + OnGrid(0.02) == TrustUnits(n) as real / UNITS;
      GridPoint(TrustUnits(n));
    }
  }

  /**
   On the grid that doubles have between one half and one, where trust stays, fifteen turns
   suffice: the bound of fifteen is the best that holds for every rounding.
   */
  lemma FifteenOnTheGrid(start: real)
    requires start > 0.0
    ensures BondLabel(GRID, Run(GRID, NeutralState(GRID, start), KindTurns(15, start), Defaults(GRID))).Soulmate?
  {
    hide Run, OnGrid, Arithmetic.Valid, Scaled;
    GridIsValid();
    GridLiterals();
    TrustOnGrid(15, start);
    KindnessPays(GRID, 15, start);
    ScaledSmall(0.06 - 7.0 * GRID.eps);
    Near(GRID, 0.7);
    Near(GRID, 0.4);
  }
}
