/**
 `AffectiveEngine.update_state`. What the words of a message trigger and what a perception
 override adds are inputs of a turn and may be anything. Sums and products are rounded
 by an arbitrary arithmetic `f`, and literals are rounded as well.
 */
module EmotionalCore {
  import opened Rounding

  datatype Mode = Healthy | Defensive | Dissociated | Manic

  datatype State = State(
    pleasure: real, arousal: real, dominance: real, libido: real, aggression: real,
    connection: real, energy: real, tension: real, mode: Mode, lastUpdate: real)
  {
    predicate InRange() {
      && -1.0 <= pleasure <= 1.0 && -1.0 <= arousal <= 1.0 && -1.0 <= dominance <= 1.0
      && 0.0 <= libido <= 1.0 && 0.0 <= aggression <= 1.0 && 0.0 <= tension <= 1.0
    }

    /** The values are numbers of the arithmetic. */
    predicate In(f: Arithmetic) {
      && f.Has(pleasure) && f.Has(arousal) && f.Has(dominance)
      && f.Has(libido) && f.Has(aggression) && f.Has(tension)
    }
  }

  /** The three groups of words a message may contain, the override's shifts, and the time. */
  datatype Turn = Turn(
    praise: bool, insult: bool, command: bool,
    valence: real, arousalShift: real, dominanceShift: real, now: real)

  function Clamp(x: real, lo: real, hi: real): real
    requires lo <= hi
  {
    var y := if hi < x then hi else x;
    if y < lo then lo else y
  }

  function ApplyTimeDecay(f: Arithmetic, s: State, now: real): State {
    var decay := if f.Add(now, -s.lastUpdate) > 3600.0 then f.round(0.5) else f.round(0.95);
    s.(pleasure := f.Mul(s.pleasure, decay), arousal := f.Mul(s.arousal, decay),
       dominance := f.Mul(s.dominance, f.round(0.98)),
       tension := if s.mode.Healthy? then f.Mul(s.tension, f.round(0.9)) else s.tension)
  }

  /** `shift += amount` under a condition. */
  function Plus(f: Arithmetic, shift: real, condition: bool, amount: real): real {
    if condition then f.Add(shift, f.round(amount)) else shift
  }

  function PleasureShift(f: Arithmetic, t: Turn): real {
    Plus(f, Plus(f, Plus(f, 0.0, t.praise, 0.3), t.insult, -0.5), t.command, -0.3)
  }

  function ArousalShift(f: Arithmetic, t: Turn, libido: real): real {
    var words := Plus(f, Plus(f, Plus(f, 0.0, t.praise, 0.4), t.insult, 0.5), t.command, 0.3);
    Plus(f, words, libido > f.round(0.7), 0.1)
  }

  function DominanceShift(f: Arithmetic, t: Turn): real {
    Plus(f, Plus(f, Plus(f, 0.0, t.praise, 0.1), t.insult, -0.2), t.command, -0.4)
  }

  function NewTension(f: Arithmetic, tension: real, pleasure: real): real {
    if pleasure < f.round(-0.3) then Clamp(f.Add(tension, f.round(0.05)), 0.0, 1.0)
    else if pleasure > f.round(0.3) then Clamp(f.Add(tension, -f.round(0.05)), 0.0, 1.0)
    else Clamp(tension, 0.0, 1.0)
  }

  function Regulate(f: Arithmetic, s: State): State {
    var tension := NewTension(f, s.tension, s.pleasure);
    if tension > f.round(0.8) then
      if s.dominance > 0.0
      then s.(tension := tension, mode := Defensive, aggression := Clamp(f.Add(s.aggression, f.round(0.1)), 0.0, 1.0))
      else s.(tension := tension, mode := Dissociated, arousal := f.Mul(s.arousal, f.round(0.5)))
    else if tension < f.round(0.3) then s.(tension := tension, mode := Healthy)
    else s.(tension := tension)
  }

  /** A value moved by its shift and the override's. */
  function Moved(f: Arithmetic, value: real, shift: real, override: real): real {
    Clamp(f.Add(value, f.Add(shift, override)), -1.0, 1.0)
  }

  function UpdateState(f: Arithmetic, s: State, t: Turn): State {
    var d := ApplyTimeDecay(f, s, t.now);
    var pleasure := Moved(f, d.pleasure, PleasureShift(f, t), t.valence);
    var arousal := Moved(f, d.arousal, ArousalShift(f, t, d.libido), t.arousalShift);
    var dominance := Moved(f, d.dominance, DominanceShift(f, t), t.dominanceShift);
    var drive := if arousal > f.round(0.5) && pleasure > 0.0 then f.round(0.05) else -f.round(0.01);
    var libido := Clamp(f.Add(d.libido, drive), 0.0, 1.0);
    Regulate(f, d.(pleasure := pleasure, arousal := arousal, dominance := dominance, libido := libido,
        lastUpdate := t.now))
  }

  function Run(f: Arithmetic, s: State, turns: seq<Turn>): State
    decreases |turns|
  {
    if turns == [] then s else UpdateState(f, Run(f, s, turns[..|turns| - 1]), turns[|turns| - 1])
  }

  // ----- ranges

  lemma ClampHas(f: Arithmetic, x: real, lo: real, hi: real)
    requires f.Valid() && lo <= hi && f.Has(lo) && f.Has(hi) && f.Has(x)
    ensures lo <= Clamp(x, lo, hi) <= hi && f.Has(Clamp(x, lo, hi))
  {
  }

  lemma Rounded(f: Arithmetic, x: real)
    requires f.Valid()
    ensures f.Has(f.round(x)) && f.Has(-1.0) && f.Has(0.0) && f.Has(1.0)
  {
  }

  lemma Factor(f: Arithmetic, k: real)
    requires f.Valid() && 0.0 <= k <= 1.0
    ensures 0.0 <= f.round(k) <= 1.0
  {
    Ordered(f, 0.0, k);
    Ordered(f, k, 1.0);
  }

  lemma DecayKeepsRange(f: Arithmetic, s: State, now: real)
    requires f.Valid() && s.InRange() && s.In(f)
    ensures ApplyTimeDecay(f, s, now).InRange() && ApplyTimeDecay(f, s, now).In(f)
    ensures ApplyTimeDecay(f, s, now).tension <= s.tension
  {
    hide Arithmetic.Valid, Arithmetic.Has, Arithmetic.Mul, Arithmetic.Add;
    var decay := if f.Add(now, -s.lastUpdate) > 3600.0 then f.round(0.5) else f.round(0.95);
    Factor(f, 0.5);
    Factor(f, 0.95);
    Factor(f, 0.98);
    Factor(f, 0.9);
    ProductShrinks(f, s.pleasure, decay);
    ProductShrinks(f, s.arousal, decay);
    ProductShrinks(f, s.dominance, f.round(0.98));
    ProductShrinks(f, s.tension, f.round(0.9));
  }

  lemma TensionInRange(f: Arithmetic, tension: real, pleasure: real)
    requires f.Valid() && f.Has(tension)
    ensures 0.0 <= NewTension(f, tension, pleasure) <= 1.0 && f.Has(NewTension(f, tension, pleasure))
  {
    hide Arithmetic.Valid;
    Rounded(f, tension + f.round(0.05));
    Rounded(f, tension - f.round(0.05));
    ClampHas(f, f.Add(tension, f.round(0.05)), 0.0, 1.0);
    ClampHas(f, f.Add(tension, -f.round(0.05)), 0.0, 1.0);
    ClampHas(f, tension, 0.0, 1.0);
  }

  lemma RegulateKeepsRange(f: Arithmetic, s: State)
    requires f.Valid() && s.InRange() && s.In(f)
    ensures Regulate(f, s).InRange() && Regulate(f, s).In(f)
  {
    hide Arithmetic.Valid, Arithmetic.Mul, NewTension;
    TensionInRange(f, s.tension, s.pleasure);
    Rounded(f, s.aggression + f.round(0.1));
    ClampHas(f, f.Add(s.aggression, f.round(0.1)), 0.0, 1.0);
    Factor(f, 0.5);
    ProductShrinks(f, s.arousal, f.round(0.5));
  }

  lemma MovedInRange(f: Arithmetic, value: real, shift: real, override: real)
    requires f.Valid()
    ensures -1.0 <= Moved(f, value, shift, override) <= 1.0 && f.Has(Moved(f, value, shift, override))
  {
    hide Arithmetic.Valid;
    Rounded(f, value + f.Add(shift, override));
    ClampHas(f, f.Add(value, f.Add(shift, override)), -1.0, 1.0);
  }

  lemma UpdateKeepsRange(f: Arithmetic, s: State, t: Turn)
    requires f.Valid() && s.InRange() && s.In(f)
    ensures UpdateState(f, s, t).InRange() && UpdateState(f, s, t).In(f)
  {
    hide Arithmetic.Valid, Moved, Regulate, ApplyTimeDecay, PleasureShift, ArousalShift, DominanceShift;
    var d := ApplyTimeDecay(f, s, t.now);
    DecayKeepsRange(f, s, t.now);
    var pleasure := Moved(f, d.pleasure, PleasureShift(f, t), t.valence);
    var arousal := Moved(f, d.arousal, ArousalShift(f, t, d.libido), t.arousalShift);
    var dominance := Moved(f, d.dominance, DominanceShift(f, t), t.dominanceShift);
    MovedInRange(f, d.pleasure, PleasureShift(f, t), t.valence);
    MovedInRange(f, d.arousal, ArousalShift(f, t, d.libido), t.arousalShift);
    MovedInRange(f, d.dominance, DominanceShift(f, t), t.dominanceShift);
    var drive := if arousal > f.round(0.5) && pleasure > 0.0 then f.round(0.05) else -f.round(0.01);
    Rounded(f, d.libido + drive);
    ClampHas(f, f.Add(d.libido, drive), 0.0, 1.0);
    var libido := Clamp(f.Add(d.libido, drive), 0.0, 1.0);
    RegulateKeepsRange(
      f, d.(pleasure := pleasure, arousal := arousal, dominance := dominance, libido := libido, lastUpdate := t.now));
  }

  /** Every value stays in its range in every run, with any rounding. */
  lemma {:induction false} RunsStayInRange(f: Arithmetic, s: State, turns: seq<Turn>)
    requires f.Valid() && s.InRange() && s.In(f)
    ensures Run(f, s, turns).InRange() && Run(f, s, turns).In(f)
    decreases |turns|
  {
    hide UpdateState;
    if turns != [] {
      RunsStayInRange(f, s, turns[..|turns| - 1]);
      UpdateKeepsRange(f, Run(f, s, turns[..|turns| - 1]), turns[|turns| - 1]);
    }
  }

  // ----- the parts of a turn

  function NextPleasure(f: Arithmetic, s: State, t: Turn): real {
    Moved(f, ApplyTimeDecay(f, s, t.now).pleasure, PleasureShift(f, t), t.valence)
  }

  function NextDominance(f: Arithmetic, s: State, t: Turn): real {
    Moved(f, ApplyTimeDecay(f, s, t.now).dominance, DominanceShift(f, t), t.dominanceShift)
  }

  lemma UpdateParts(f: Arithmetic, s: State, t: Turn)
    ensures UpdateState(f, s, t).pleasure == NextPleasure(f, s, t)
    ensures UpdateState(f, s, t).dominance == NextDominance(f, s, t)
    ensures var tension := NewTension(f, ApplyTimeDecay(f, s, t.now).tension, NextPleasure(f, s, t));
            && UpdateState(f, s, t).tension == tension
            && (UpdateState(f, s, t).mode.Healthy? <==>
                  tension <= f.round(0.8) && (tension < f.round(0.3) || s.mode.Healthy?))
  {
    hide Arithmetic.Mul, NewTension, Moved, PleasureShift, ArousalShift, DominanceShift, Clamp;
  }

  // ----- what words do

  lemma PlusOrdered(f: Arithmetic, x: real, y: real, condition: bool, amount: real)
    requires f.Valid() && x <= y
    ensures Plus(f, x, condition, amount) <= Plus(f, y, condition, amount)
  {
  }

  /** Words that lower a value lower it with any rounding; so do words that raise it. */
  lemma PlusPulls(f: Arithmetic, x: real, amount: real)
    requires f.Valid() && f.Has(x)
    ensures amount <= 0.0 ==> Plus(f, x, true, amount) <= Plus(f, x, false, amount)
    ensures amount >= 0.0 ==> Plus(f, x, true, amount) >= Plus(f, x, false, amount)
  {
    if amount <= 0.0 {
      Ordered(f, amount, 0.0);
      Ordered(f, x + f.round(amount), x);
    } else {
      Ordered(f, 0.0, amount);
      Ordered(f, x, x + f.round(amount));
    }
  }

  lemma PlusHas(f: Arithmetic, x: real, condition: bool, amount: real)
    requires f.Valid() && f.Has(x)
    ensures f.Has(Plus(f, x, condition, amount))
  {
  }

  lemma ZeroIsIn(f: Arithmetic)
    requires f.Valid()
    ensures f.Has(0.0)
  {
  }

  lemma MovedOrdered(f: Arithmetic, value: real, x: real, y: real, override: real)
    requires f.Valid() && x <= y
    ensures Moved(f, value, x, override) <= Moved(f, value, y, override)
  {
    Ordered(f, x + override, y + override);
    Ordered(f, value + f.Add(x, override), value + f.Add(y, override));
  }

  lemma MorePleasureLessTension(f: Arithmetic, tension: real, x: real, y: real)
    requires f.Valid() && f.Has(tension) && x <= y
    ensures NewTension(f, tension, x) >= NewTension(f, tension, y)
  {
    Ordered(f, 0.0, 0.05);
    Ordered(f, tension, tension + f.round(0.05));
    Ordered(f, tension - f.round(0.05), tension);
    Ordered(f, -0.3, 0.3);
  }

  lemma InsultShifts(f: Arithmetic, t: Turn)
    requires f.Valid()
    ensures PleasureShift(f, t.(insult := true)) <= PleasureShift(f, t.(insult := false))
    ensures DominanceShift(f, t.(insult := true)) <= DominanceShift(f, t.(insult := false))
  {
    hide Plus, Arithmetic.Valid;
    ZeroIsIn(f);
    var p, d := Plus(f, 0.0, t.praise, 0.3), Plus(f, 0.0, t.praise, 0.1);
    PlusHas(f, 0.0, t.praise, 0.3);
    PlusHas(f, 0.0, t.praise, 0.1);
    PlusPulls(f, p, -0.5);
    PlusPulls(f, d, -0.2);
    PlusOrdered(f, Plus(f, p, true, -0.5), Plus(f, p, false, -0.5), t.command, -0.3);
    PlusOrdered(f, Plus(f, d, true, -0.2), Plus(f, d, false, -0.2), t.command, -0.4);
  }

  lemma PraiseShifts(f: Arithmetic, t: Turn)
    requires f.Valid()
    ensures PleasureShift(f, t.(praise := true)) >= PleasureShift(f, t.(praise := false))
    ensures DominanceShift(f, t.(praise := true)) >= DominanceShift(f, t.(praise := false))
  {
    hide Plus, Arithmetic.Valid;
    ZeroIsIn(f);
    PlusPulls(f, 0.0, 0.3);
    PlusPulls(f, 0.0, 0.1);
    var p, q := Plus(f, 0.0, false, 0.3), Plus(f, 0.0, true, 0.3);
    PlusOrdered(f, p, q, t.insult, -0.5);
    PlusOrdered(f, Plus(f, p, t.insult, -0.5), Plus(f, q, t.insult, -0.5), t.command, -0.3);
    var d, e := Plus(f, 0.0, false, 0.1), Plus(f, 0.0, true, 0.1);
    PlusOrdered(f, d, e, t.insult, -0.2);
    PlusOrdered(f, Plus(f, d, t.insult, -0.2), Plus(f, e, t.insult, -0.2), t.command, -0.4);
  }

  /** One turn is at most as pleasant as another that differs in its words. */
  ghost predicate Worse(a: State, b: State) {
    a.pleasure <= b.pleasure && a.dominance <= b.dominance && a.tension >= b.tension
  }

  lemma ShiftsDecide(f: Arithmetic, s: State, t: Turn, u: Turn)
    requires f.Valid() && s.InRange() && s.In(f)
    requires t.now == u.now && t.valence == u.valence && t.dominanceShift == u.dominanceShift
    requires PleasureShift(f, t) <= PleasureShift(f, u) && DominanceShift(f, t) <= DominanceShift(f, u)
    ensures Worse(UpdateState(f, s, t), UpdateState(f, s, u))
  {
    hide Arithmetic.Valid, Arithmetic.Has, UpdateState, ApplyTimeDecay, Moved, NewTension, PleasureShift,
         DominanceShift;
    var d := ApplyTimeDecay(f, s, t.now);
    DecayKeepsRange(f, s, t.now);
    UpdateParts(f, s, t);
    UpdateParts(f, s, u);
    MovedOrdered(f, d.pleasure, PleasureShift(f, t), PleasureShift(f, u), t.valence);
    MovedOrdered(f, d.dominance, DominanceShift(f, t), DominanceShift(f, u), t.dominanceShift);
    MorePleasureLessTension(f, d.tension, NextPleasure(f, s, t), NextPleasure(f, s, u));
  }

  /** Words pull their way, with any rounding: insults never please, empower or calm, praise never does the opposite. */
  lemma WordsPullTheirWay(f: Arithmetic, s: State, t: Turn)
    requires f.Valid() && s.InRange() && s.In(f)
    ensures Worse(UpdateState(f, s, t.(insult := true)), UpdateState(f, s, t.(insult := false)))
    ensures Worse(UpdateState(f, s, t.(praise := false)), UpdateState(f, s, t.(praise := true)))
  {
    hide Arithmetic.Valid, Arithmetic.Has, UpdateState, PleasureShift, DominanceShift, Worse;
    InsultShifts(f, t);
    PraiseShifts(f, t);
    ShiftsDecide(f, s, t.(insult := true), t.(insult := false));
    ShiftsDecide(f, s, t.(praise := false), t.(praise := true));
  }

  // ----- staying healthy

  /** `0.9^n * e`. */
  function Decayed(e: real, n: nat): (r: real)
    ensures e >= 0.0 ==> 0.0 <= r <= e
  {
    if n == 0 then e else 0.9 * Decayed(e, n - 1)
  }

  function Excess(t: real): real {
    if t > 0.5 then t - 0.5 else 0.0
  }

  /** The tension from which a healthy state can be upset in one turn: (0.8 - 0.05) / 0.9. */
  const SAFE_TENSION: real := 5.0 / 6.0

  lemma Literals(f: Arithmetic)
    requires f.Valid()
    ensures 0.05 - f.eps <= f.round(0.05) <= 0.05 + f.eps && 0.8 - f.eps <= f.round(0.8) <= 0.8 + f.eps
    ensures 0.3 - f.eps <= f.round(0.3) <= 0.3 + f.eps && -0.3 - f.eps <= f.round(-0.3) <= -0.3 + f.eps
    ensures 0.0 <= f.eps <= 0.0001
  {
  }

  /** The tension of a healthy state after its decay. */
  lemma DecayedTension(f: Arithmetic, s: State, now: real)
    requires f.Valid() && s.mode.Healthy? && 0.0 <= s.tension <= 1.0
    ensures 0.9 * s.tension - 2.0 * f.eps <= ApplyTimeDecay(f, s, now).tension <= 0.9 * s.tension + 2.0 * f.eps
  {
    ProductNear(f, s.tension, 0.9);
  }

  lemma TensionNear(f: Arithmetic, tension: real, pleasure: real)
    requires f.Valid() && -0.1 <= tension <= 1.1
    ensures var n := NewTension(f, tension, pleasure);
            && 0.0 <= n <= 1.0
            && (n <= tension + 0.05 + 2.0 * f.eps || n == 0.0)
            && (n >= tension - 0.05 - 2.0 * f.eps || n == 1.0)
            && (pleasure < f.round(-0.3) ==> n >= tension + 0.05 - 2.0 * f.eps || n == 1.0)
            && (pleasure > f.round(0.3) ==> n <= tension - 0.05 + 2.0 * f.eps || n == 0.0)
  {
    hide Arithmetic.Valid, Arithmetic.Has;
    Literals(f);
    SumNear(f, tension, f.round(0.05));
    SumNear(f, tension, -f.round(0.05));
  }

  lemma HealthyStep(f: Arithmetic, s: State, t: Turn)
    requires f.Valid() && s.mode.Healthy? && 0.0 <= s.tension <= SAFE_TENSION - 6.0 * f.eps
    ensures var n := UpdateState(f, s, t);
            && n.mode.Healthy? && 0.0 <= n.tension <= SAFE_TENSION - 6.0 * f.eps
            && n.tension - 0.5 <= 0.9 * Excess(s.tension) + 4.0 * f.eps
  {
    hide Arithmetic.Valid, UpdateState, ApplyTimeDecay, NewTension, NextPleasure, NextDominance;
    Literals(f);
    UpdateParts(f, s, t);
    DecayedTension(f, s, t.now);
    TensionNear(f, ApplyTimeDecay(f, s, t.now).tension, NextPleasure(f, s, t));
  }

  /**
   With any rounding, tension decays towards one half, whatever is said, and the state stays
   healthy. A tension of at most 0.8 is always safe.
   */
  lemma {:induction false} HealthyForever(f: Arithmetic, s: State, turns: seq<Turn>)
    requires f.Valid() && s.mode.Healthy? && 0.0 <= s.tension <= SAFE_TENSION - 6.0 * f.eps
    ensures var n := Run(f, s, turns);
            && n.mode.Healthy? && 0.0 <= n.tension <= SAFE_TENSION - 6.0 * f.eps
            && n.tension <= 0.5 + Decayed(Excess(s.tension), |turns|) + 40.0 * f.eps
    decreases |turns|
  {
    hide UpdateState, Arithmetic.Valid;
    Literals(f);
    if turns != [] {
      HealthyForever(f, s, turns[..|turns| - 1]);
      HealthyStep(f, Run(f, s, turns[..|turns| - 1]), turns[|turns| - 1]);
    }
  }

  /** A turn that no pleasure survives. */
  const BLOW: Turn := Turn(false, true, false, -2.0, 0.0, 0.0, 0.0)

  lemma BlowHurts(f: Arithmetic, s: State)
    requires f.Valid() && s.InRange() && s.In(f)
    ensures NextPleasure(f, s, BLOW) < f.round(-0.3)
  {
    hide ApplyTimeDecay;
    DecayKeepsRange(f, s, 0.0);
    Literals(f);
    Near(f, -0.5);
    SumNear(f, 0.0, f.round(-0.5));
    SumNear(f, PleasureShift(f, BLOW), -2.0);
    SumNear(f, ApplyTimeDecay(f, s, 0.0).pleasure, f.Add(PleasureShift(f, BLOW), -2.0));
  }

  lemma OneBlow(f: Arithmetic, s: State)
    requires f.Valid() && s.InRange() && s.In(f) && s.mode.Healthy? && s.tension > SAFE_TENSION + 6.0 * f.eps
    ensures !UpdateState(f, s, BLOW).mode.Healthy?
  {
    hide Arithmetic.Valid, UpdateState, ApplyTimeDecay, NewTension, NextPleasure, NextDominance;
    Literals(f);
    UpdateParts(f, s, BLOW);
    DecayedTension(f, s, 0.0);
    BlowHurts(f, s);
    TensionNear(f, ApplyTimeDecay(f, s, 0.0).tension, NextPleasure(f, s, BLOW));
  }

  ghost predicate AlwaysHealthy(f: Arithmetic, s: State) {
    forall turns: seq<Turn> :: Run(f, s, turns).mode.Healthy?
  }

  lemma OneTurn(f: Arithmetic, s: State, t: Turn)
    ensures Run(f, s, [t]) == UpdateState(f, s, t)
  {
    assert [t][..0] == [];
    assert Run(f, s, []) == s;
  }

  /** Up to six rounding errors, a healthy state is safe under all inputs exactly when its tension is at most 5/6. */
  lemma AlwaysHealthyAround(f: Arithmetic, s: State)
    requires f.Valid() && s.InRange() && s.In(f) && s.mode.Healthy?
    ensures s.tension <= SAFE_TENSION - 6.0 * f.eps ==> AlwaysHealthy(f, s)
    ensures s.tension > SAFE_TENSION + 6.0 * f.eps ==> !AlwaysHealthy(f, s)
  {
    hide UpdateState, Arithmetic.Valid;
    Literals(f);
    if s.tension <= SAFE_TENSION - 6.0 * f.eps {
      forall turns: seq<Turn> ensures Run(f, s, turns).mode.Healthy? {
        HealthyForever(f, s, turns);
      }
    } else if s.tension > SAFE_TENSION + 6.0 * f.eps {
      OneBlow(f, s);
      OneTurn(f, s, BLOW);
      assert !Run(f, s, [BLOW]).mode.Healthy?;
    }
  }

  /** Over exact real numbers 5/6 is the exact limit. */
  lemma AlwaysHealthyExactly(s: State)
    requires s.InRange() && s.mode.Healthy?
    ensures AlwaysHealthy(EXACT, s) <==> s.tension <= SAFE_TENSION
  {
    hide Run;
    ExactIsValid();
    AlwaysHealthyAround(EXACT, s);
  }

  // ----- recovering

  lemma UnhealthyStep(f: Arithmetic, s: State, t: Turn)
    requires f.Valid() && !s.mode.Healthy? && 0.0 <= s.tension <= 1.0
    ensures var n := UpdateState(f, s, t);
            && n.tension >= s.tension - 0.05 - 2.0 * f.eps && 0.0 <= n.tension <= 1.0
            && (n.mode.Healthy? ==> n.tension < 0.3 + f.eps)
  {
    hide Arithmetic.Valid, UpdateState, NewTension, NextPleasure, NextDominance;
    Literals(f);
    UpdateParts(f, s, t);
    TensionNear(f, s.tension, NextPleasure(f, s, t));
  }

  function Lowest(t: real, n: nat): real {
    t - 0.05 * (n as real)
  }

  /** What `n` turns and their comparison may be off by. */
  function Slack(f: Arithmetic, n: nat): real {
    f.eps + Errors(f, n)
  }

  /** Two roundings a turn. */
  function Errors(f: Arithmetic, n: nat): real {
    if n == 0 then 0.0 else Errors(f, n - 1) + 2.0 * f.eps
  }

  /** Recovery takes its time: one turn takes off at most 0.05 and two rounding errors. */
  lemma {:induction false} RecoveryIsSlow(f: Arithmetic, s: State, turns: seq<Turn>)
    requires f.Valid() && s.InRange() && !s.mode.Healthy? && Lowest(s.tension, |turns|) >= 0.3 + Slack(f, |turns|)
    ensures !Run(f, s, turns).mode.Healthy?
    ensures Lowest(s.tension, |turns|) - Errors(f, |turns|) <= Run(f, s, turns).tension <= 1.0
    decreases |turns|
  {
    hide UpdateState, Arithmetic.Valid;
    Literals(f);
    if turns != [] {
      var before := turns[..|turns| - 1];
      assert Lowest(s.tension, |turns|) == Lowest(s.tension, |before|) - 0.05;
      RecoveryIsSlow(f, s, before);
      UnhealthyStep(f, Run(f, s, before), turns[|turns| - 1]);
    }
  }

  /** A turn that pleases whatever was before. */
  const COMFORT: Turn := Turn(true, false, false, 2.0, 0.0, 0.0, 0.0)

  function Comforts(n: nat): seq<Turn> {
    seq(n, _ => COMFORT)
  }

  lemma ComfortPleases(f: Arithmetic, s: State)
    requires f.Valid() && s.InRange() && s.In(f)
    ensures NextPleasure(f, s, COMFORT) > f.round(0.3)
  {
    hide ApplyTimeDecay;
    DecayKeepsRange(f, s, 0.0);
    Literals(f);
    Near(f, 0.3);
    SumNear(f, 0.0, f.round(0.3));
    SumNear(f, PleasureShift(f, COMFORT), 2.0);
    SumNear(f, ApplyTimeDecay(f, s, 0.0).pleasure, f.Add(PleasureShift(f, COMFORT), 2.0));
  }

  lemma ComfortStep(f: Arithmetic, s: State)
    requires f.Valid() && s.InRange() && s.In(f)
    ensures var n := UpdateState(f, s, COMFORT);
            && (n.tension <= s.tension - 0.05 + 2.0 * f.eps || n.tension == 0.0)
            && (n.tension < 0.3 - f.eps ==> n.mode.Healthy?)
  {
    hide Arithmetic.Valid, UpdateState, ApplyTimeDecay, NewTension, NextPleasure, NextDominance;
    Literals(f);
    UpdateParts(f, s, COMFORT);
    DecayKeepsRange(f, s, 0.0);
    ComfortPleases(f, s);
    TensionNear(f, ApplyTimeDecay(f, s, 0.0).tension, NextPleasure(f, s, COMFORT));
  }

  lemma {:induction false} ComfortHelps(f: Arithmetic, s: State, n: nat)
    requires f.Valid() && s.InRange() && s.In(f) && n > 0
    ensures var r := Run(f, s, Comforts(n));
            && (r.tension <= Lowest(s.tension, n) + Errors(f, n) || r.tension <= 0.05)
            && (r.tension < 0.3 - f.eps ==> r.mode.Healthy?)
    decreases n
  {
    hide UpdateState, Arithmetic.Valid;
    Literals(f);
    assert Comforts(n)[..n - 1] == Comforts(n - 1);
    RunsStayInRange(f, s, Comforts(n - 1));
    assert Lowest(s.tension, n) == Lowest(s.tension, n - 1) - 0.05;
    if n > 1 {
      ComfortHelps(f, s, n - 1);
    } else {
      assert Run(f, s, []) == s;
    }
    ComfortStep(f, Run(f, s, Comforts(n - 1)));
  }

  ghost predicate CanRecoverIn(f: Arithmetic, s: State, n: nat) {
    exists turns: seq<Turn> :: |turns| == n && Run(f, s, turns).mode.Healthy?
  }

  /**
   With any rounding: an upset state can be healthy after `n` turns if these can bring its
   tension below 0.3 by a margin of the rounding errors, and can not if they miss it by one.
   */
  lemma RecoveryAround(f: Arithmetic, s: State, n: nat)
    requires f.Valid() && s.InRange() && s.In(f) && !s.mode.Healthy?
    ensures n > 0 && Lowest(s.tension, n) < 0.3 - Slack(f, n) ==> CanRecoverIn(f, s, n)
    ensures n == 0 || Lowest(s.tension, n) >= 0.3 + Slack(f, n) ==> !CanRecoverIn(f, s, n)
  {
    hide UpdateState, Arithmetic.Valid;
    Literals(f);
    ErrorsGrow(f, 0, n);
    if n == 0 {
      forall turns: seq<Turn> | |turns| == n ensures !Run(f, s, turns).mode.Healthy? {
        assert turns == [];
      }
    } else if Lowest(s.tension, n) < 0.3 - Slack(f, n) {
      ComfortHelps(f, s, n);
      assert |Comforts(n)| == n && Run(f, s, Comforts(n)).mode.Healthy?;
    } else if Lowest(s.tension, n) >= 0.3 + Slack(f, n) {
      forall turns: seq<Turn> | |turns| == n ensures !Run(f, s, turns).mode.Healthy? {
        RecoveryIsSlow(f, s, turns);
      }
    }
  }

  /** Over exact real numbers there is no margin. */
  lemma RecoveryExactly(s: State, n: nat)
    requires s.InRange() && !s.mode.Healthy?
    ensures CanRecoverIn(EXACT, s, n) <==> n > 0 && Lowest(s.tension, n) < 0.3
  {
    hide Run;
    ExactIsValid();
    NoErrors(n);
    RecoveryAround(EXACT, s, n);
  }

  lemma {:induction false} NoErrors(n: nat)
    ensures Errors(EXACT, n) == 0.0
  {
    if n > 0 {
      NoErrors(n - 1);
    }
  }

  lemma {:induction false} ErrorsGrow(f: Arithmetic, m: nat, n: nat)
    requires m <= n && f.eps >= 0.0
    ensures 0.0 <= Errors(f, m) <= Errors(f, n)
  {
    if m < n {
      ErrorsGrow(f, m, n - 1);
    } else if m > 0 {
      ErrorsGrow(f, m - 1, n - 1);
    }
  }

  lemma NineErrors(f: Arithmetic)
    ensures Errors(f, 9) == 18.0 * f.eps
  {
    assert Errors(f, 1) == 2.0 * f.eps;
    assert Errors(f, 2) == 4.0 * f.eps;
    assert Errors(f, 3) == 6.0 * f.eps;
    assert Errors(f, 4) == 8.0 * f.eps;
    assert Errors(f, 5) == 10.0 * f.eps;
    assert Errors(f, 6) == 12.0 * f.eps;
    assert Errors(f, 7) == 14.0 * f.eps;
    assert Errors(f, 8) == 16.0 * f.eps;
  }

  /** A turn that upset a healthy state. */
  lemma Upset(f: Arithmetic, s: State, t: Turn)
    requires f.Valid() && s.InRange() && s.In(f) && s.mode.Healthy? && !UpdateState(f, s, t).mode.Healthy?
    ensures UpdateState(f, s, t).InRange() && UpdateState(f, s, t).tension > 0.8 - f.eps
  {
    hide Arithmetic.Valid, UpdateState, ApplyTimeDecay, NewTension, NextPleasure, NextDominance;
    Literals(f);
    UpdateKeepsRange(f, s, t);
    UpdateParts(f, s, t);
  }

  /** Once a turn has upset a healthy state, it takes at least ten more to be healthy again, with any rounding. */
  lemma TenTurnsToRecover(f: Arithmetic, s: State, t: Turn, turns: seq<Turn>)
    requires f.Valid() && s.InRange() && s.In(f) && s.mode.Healthy? && !UpdateState(f, s, t).mode.Healthy?
    requires Run(f, UpdateState(f, s, t), turns).mode.Healthy?
    ensures |turns| >= 10
  {
    hide Arithmetic.Valid, UpdateState, Run, Errors;
    Literals(f);
    Upset(f, s, t);
    if |turns| <= 9 {
      ErrorsGrow(f, |turns|, 9);
      NineErrors(f);
      RecoveryIsSlow(f, UpdateState(f, s, t), turns);
      assert false;
    }
  }

  /** Over exact real numbers at least eleven. */
  lemma ElevenOverTheReals(s: State, t: Turn, turns: seq<Turn>)
    requires s.InRange() && s.mode.Healthy? && !UpdateState(EXACT, s, t).mode.Healthy?
    requires Run(EXACT, UpdateState(EXACT, s, t), turns).mode.Healthy?
    ensures |turns| >= 11
  {
    hide Arithmetic.Valid, UpdateState, Run, Errors;
    ExactIsValid();
    Upset(EXACT, s, t);
    if |turns| <= 10 {
      NoErrors(|turns|);
      RecoveryIsSlow(EXACT, UpdateState(EXACT, s, t), turns);
      assert false;
    }
  }

  // ----- fourteen turns on a grid

  /** Tension after n comforting turns from 1, in units of 2^-53. */
  function TensionUnits(n: nat): int {
    9007199254740992 - 450359962737050 * n
  }

  lemma GridLiterals()
    ensures OnGrid(0.05) == 450359962737050.0 / UNITS && OnGrid(0.3) == 2702159776422298.0 / UNITS
  {
    assert Nearest(0.05 * UNITS) == 450359962737050;
    assert Nearest(0.3 * UNITS) == 2702159776422298;
  }

  lemma {:induction false} TensionOnGrid(s: State, n: nat)
    requires s.InRange() && s.In(GRID) && !s.mode.Healthy? && s.tension == 1.0 && n <= 14
    ensures Run(GRID, s, Comforts(n)).tension == TensionUnits(n) as real / UNITS
    ensures Run(GRID, s, Comforts(n)).mode.Healthy? <==> n == 14
  {
    hide UpdateState, Arithmetic.Valid, OnGrid, NextPleasure, NextDominance, ApplyTimeDecay;
    GridIsValid();
    GridLiterals();
    if n == 0 {
      assert Comforts(0) == [];
    } else {
      TensionOnGrid(s, n - 1);
      RunsStayInRange(GRID, s, Comforts(n - 1));
      assert Comforts(n)[..n - 1] == Comforts(n - 1);
      var before := Run(GRID, s, Comforts(n - 1));
      ComfortPleases(GRID, before);
      Literals(GRID);
      UpdateParts(GRID, before, COMFORT);
      UndecayedTension(GRID, before, 0.0);
      assert before.tension - OnGrid(0.05) == TensionUnits(n) as real / UNITS;
      GridPoint(TensionUnits(n));
    }
  }

  lemma UndecayedTension(f: Arithmetic, s: State, now: real)
    requires !s.mode.Healthy?
    ensures ApplyTimeDecay(f, s, now).tension == s.tension
  {
  }

  /** From the largest tension, fourteen turns suffice on the grid, as they do in doubles, but not over the reals. */
  lemma FourteenOnTheGrid(s: State)
    requires s.InRange() && s.In(GRID) && !s.mode.Healthy? && s.tension == 1.0
    ensures CanRecoverIn(GRID, s, 14) && !CanRecoverIn(EXACT, s, 14)
  {
    hide Run;
    TensionOnGrid(s, 14);
    assert |Comforts(14)| == 14;
    RecoveryExactly(s, 14);
  }
}
