/**
 What a transition makes of each metric, by the thresholds it passes, and the label that
 belongs to each region of the metrics.
 */
module RelationshipEffects {
  import opened Rounding
  import opened Relationship

  /** Within one rounding error of `x`, kept in the unit interval. */
  ghost predicate NearClipped(f: Arithmetic, r: real, x: real) {
    0.0 <= r <= 1.0 && (r >= x - f.eps || r == 1.0) && (r <= x + f.eps || r == 0.0)
  }

  /**
   Trust, with any rounding: up by the configured delta above the positive threshold, down by
   the other below the negative one, and exactly as it was between them.
   */
  lemma TrustExactly(f: Arithmetic, s: State, a: Appraisal, now: real, c: Config)
    requires f.Valid() && s.Valid() && s.In(f) && c.Valid() && now >= s.timestamp
    ensures var r := Transition(f, s, a, now, c);
            && r.Ok?
            && (a.valence > c.trustUpAbove ==> NearClipped(f, r.value.trust, s.trust + c.trustUp))
            && (a.valence <= c.trustUpAbove && a.valence < c.trustDownBelow ==>
                  NearClipped(f, r.value.trust, s.trust + c.trustDown))
            && (a.valence <= c.trustUpAbove && a.valence >= c.trustDownBelow ==> r.value.trust == s.trust)
  {
    hide Normalised, NormalTriggers, AffectionBoost, TensionSpike, Reconciled, Arithmetic.Valid;
    TransitionStep(f, s, a, now, c);
    if a.valence > c.trustUpAbove {
      ClampNear(f, s.trust, c.trustUp);
    } else if a.valence < c.trustDownBelow {
      ClampNear(f, s.trust, c.trustDown);
    }
  }

  function Given(condition: bool, amount: real): real {
    if condition then amount else 0.0
  }

  function Clipped(x: real): real {
    if x < 0.0 then 0.0 else if x > 1.0 then 1.0 else x
  }

  lemma SumsExactly(a: Appraisal)
    ensures var c := Defaults(EXACT);
            && AffectionBoost(EXACT, a, c) ==
               Given(a.Emotion("tenderness") > 0.3, 0.03) + Given(a.Emotion("joy") > 0.3, 0.01)
               + Given(a.Emotion("gratitude") > 0.3, 0.02)
            && TensionSpike(EXACT, a, c) ==
               Given(a.Emotion("anger") > 0.3, 0.1) + Given(a.Emotion("disgust") > 0.3, 0.1)
               + Given(a.valence < -0.5, 0.05)
            && TrustDelta(a, c) == if a.valence > 0.2 then 0.02 else if a.valence < -0.3 then -0.05 else 0.0
  {
    hide Appraisal.Emotion;
  }

  lemma ReconciledExactly(raised: real, a: Appraisal)
    requires 0.0 <= raised <= 1.0
    ensures Reconciled(EXACT, raised, a, Defaults(EXACT)) == if a.valence > 0.3 then Clipped(raised - 0.1) else raised
  {
  }

  lemma DefaultsValid()
    ensures Defaults(EXACT).Valid()
  {
  }

  /** A transition from its three sums. */
  lemma TransitionParts(s: State, a: Appraisal, now: real, c: Config)
    requires s.Valid() && now >= s.timestamp && c.Valid()
    ensures var r := Transition(EXACT, s, a, now, c);
            && r.Ok? && r.value.triggers == s.triggers && r.value.timestamp == now
            && r.value.trust == Clipped(s.trust + TrustDelta(a, c))
            && r.value.affection == Clipped(s.affection + AffectionBoost(EXACT, a, c))
            && r.value.tension == Reconciled(EXACT, Clipped(s.tension + TensionSpike(EXACT, a, c)), a, c)
  {
    hide Normalised, NormalTriggers, AffectionBoost, TensionSpike, TrustDelta, Reconciled, Arithmetic.Valid;
    ExactIsValid();
    TransitionStep(EXACT, s, a, now, c);
  }

  /**
   Every metric with the default settings, over the reals. A good turn adds 0.02 to trust and a
   bad one takes 0.05; each warm emotion adds to affection; anger, disgust and a very bad turn add to
   tension, of which a good turn takes 0.1 back.
   */
  lemma TransitionExactly(s: State, a: Appraisal, now: real)
    requires s.Valid() && now >= s.timestamp
    ensures var r := Transition(EXACT, s, a, now, Defaults(EXACT));
            var raised := Clipped(s.tension + Given(a.Emotion("anger") > 0.3, 0.1)
                                  + Given(a.Emotion("disgust") > 0.3, 0.1) + Given(a.valence < -0.5, 0.05));
            && r.Ok? && r.value.triggers == s.triggers && r.value.timestamp == now
            && r.value.trust ==
               Clipped(s.trust + if a.valence > 0.2 then 0.02 else if a.valence < -0.3 then -0.05 else 0.0)
            && r.value.affection ==
               Clipped(s.affection + Given(a.Emotion("tenderness") > 0.3, 0.03) + Given(a.Emotion("joy") > 0.3, 0.01)
                       + Given(a.Emotion("gratitude") > 0.3, 0.02))
            && r.value.tension == if a.valence > 0.3 then Clipped(raised - 0.1) else raised
  {
    hide Transition, AffectionBoost, TensionSpike, TrustDelta, Reconciled, Defaults, Given, Appraisal.Emotion;
    DefaultsValid();
    SumsExactly(a);
    var c := Defaults(EXACT);
    TransitionParts(s, a, now, c);
    ReconciledExactly(Clipped(s.tension + TensionSpike(EXACT, a, c)), a);
  }

  /** The label of each region: tension first, then trust and affection together, then distrust. */
  lemma LabelExactly(f: Arithmetic, s: State)
    requires f.Valid()
    ensures var calm := s.tension <= f.round(0.4);
            var close := calm && s.trust > f.round(0.8) && s.affection > f.round(0.8);
            var warm := calm && s.trust > f.round(0.7) && s.affection > f.round(0.6);
            var kind := calm && s.trust > f.round(0.5) && s.affection > f.round(0.4);
            && (BondLabel(f, s) == InConflict <==> s.tension > f.round(0.7))
            && (BondLabel(f, s) == Tense <==> f.round(0.4) < s.tension <= f.round(0.7))
            && (BondLabel(f, s) == Soulmate <==> close)
            && (BondLabel(f, s) == Intimate <==> warm && !close)
            && (BondLabel(f, s) == Friends <==> kind && !warm)
            && (BondLabel(f, s) == Distrustful <==> calm && s.trust < f.round(0.3))
            && (BondLabel(f, s) == Acquaintances <==> calm && !kind && s.trust >= f.round(0.3))
  {
    Ordered(f, 0.4, 0.7);
    Ordered(f, 0.3, 0.5);
    Ordered(f, 0.5, 0.7);
    Ordered(f, 0.7, 0.8);
    Ordered(f, 0.4, 0.6);
    Ordered(f, 0.6, 0.8);
  }
}
