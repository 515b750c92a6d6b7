/**
 What one turn makes of each value of the emotional state: the mode with any rounding, and
 every amount over the reals.
 */
module EmotionalEffects {
  import opened Rounding
  import opened EmotionalCore

  /**
   The mode after a turn, with any rounding: an upset state is defensive if it ends dominant and
   dissociated if not, a calm one is healthy, and in between the mode stays. A defensive turn
   adds to the aggression, and no other turn changes it.
   */
  lemma ModeExactly(f: Arithmetic, s: State, t: Turn)
    ensures var u := UpdateState(f, s, t);
            && (u.tension > f.round(0.8) && u.dominance > 0.0 ==> u.mode == Defensive)
            && (u.tension > f.round(0.8) && u.dominance <= 0.0 ==> u.mode == Dissociated)
            && (u.tension <= f.round(0.8) && u.tension < f.round(0.3) ==> u.mode == Healthy)
            && (u.tension <= f.round(0.8) && u.tension >= f.round(0.3) ==> u.mode == s.mode)
            && u.aggression == (if u.tension > f.round(0.8) && u.dominance > 0.0
                                then Clamp(f.Add(s.aggression, f.round(0.1)), 0.0, 1.0) else s.aggression)
            && u.connection == s.connection && u.energy == s.energy && u.lastUpdate == t.now
  {
    hide Moved, PleasureShift, ArousalShift, DominanceShift, NewTension, Arithmetic.Mul, Clamp;
  }

  /** What the words of a message add, by their groups. */
  function Words(t: Turn, praise: real, insult: real, command: real): real {
    (if t.praise then praise else 0.0) + (if t.insult then insult else 0.0) + if t.command then command else 0.0
  }

  ghost predicate IsClipped(r: real, x: real, lo: real, hi: real) {
    if x < lo then r == lo else if x > hi then r == hi else r == x
  }

  lemma ShiftsExactly(t: Turn, libido: real)
    ensures PleasureShift(EXACT, t) == Words(t, 0.3, -0.5, -0.3)
    ensures DominanceShift(EXACT, t) == Words(t, 0.1, -0.2, -0.4)
    ensures ArousalShift(EXACT, t, libido) == Words(t, 0.4, 0.5, 0.3) + if libido > 0.7 then 0.1 else 0.0
  {
  }

  lemma DecayExactly(s: State, now: real)
    ensures var d := ApplyTimeDecay(EXACT, s, now);
            var decay := if now - s.lastUpdate > 3600.0 then 0.5 else 0.95;
            && d == s.(pleasure := d.pleasure, arousal := d.arousal, dominance := d.dominance, tension := d.tension)
            && d.pleasure == decay * s.pleasure && d.arousal == decay * s.arousal && d.dominance == 0.98 * s.dominance
            && d.tension == if s.mode == Healthy then 0.9 * s.tension else s.tension
  {
  }

  lemma MovedExactly(value: real, shift: real, override: real)
    ensures IsClipped(Moved(EXACT, value, shift, override), value + shift + override, -1.0, 1.0)
  {
  }

  lemma RegulateExactly(s: State)
    ensures var u := Regulate(EXACT, s);
            var mood := if s.pleasure < -0.3 then 0.05 else if s.pleasure > 0.3 then -0.05 else 0.0;
            var dissociates := u.tension > 0.8 && u.dominance <= 0.0;
            && u.pleasure == s.pleasure && u.dominance == s.dominance && u.libido == s.libido
            && u.arousal == (if dissociates then 0.5 * s.arousal else s.arousal)
            && IsClipped(u.tension, s.tension + mood, 0.0, 1.0)
            && (u.tension > 0.8 && u.dominance > 0.0 ==> IsClipped(u.aggression, s.aggression + 0.1, 0.0, 1.0))
  {
  }

  /** The arousal before a dissociated state halves it. */
  function ArousalBefore(s: State, t: Turn): real {
    var decay := if t.now - s.lastUpdate > 3600.0 then 0.5 else 0.95;
    var x := decay * s.arousal + Words(t, 0.4, 0.5, 0.3) + (if s.libido > 0.7 then 0.1 else 0.0) + t.arousalShift;
    if x < -1.0 then -1.0 else if x > 1.0 then 1.0 else x
  }

  /**
   Every value after a turn, over the reals: after more than an hour half of pleasure and arousal is
   left, else nineteen twentieths; words and override add; tension rises by a twentieth when the
   state ends unhappy and falls by as much when it ends happy, from nine tenths if healthy.
   */
  lemma TurnExactly(s: State, t: Turn)
    ensures var u := UpdateState(EXACT, s, t);
            var decay := if t.now - s.lastUpdate > 3600.0 then 0.5 else 0.95;
            var rest := if s.mode == Healthy then 0.9 * s.tension else s.tension;
            var mood := if u.pleasure < -0.3 then 0.05 else if u.pleasure > 0.3 then -0.05 else 0.0;
            var dissociates := u.tension > 0.8 && u.dominance <= 0.0;
            var drive := if ArousalBefore(s, t) > 0.5 && u.pleasure > 0.0 then 0.05 else -0.01;
            && IsClipped(u.pleasure, decay * s.pleasure + Words(t, 0.3, -0.5, -0.3) + t.valence, -1.0, 1.0)
            && IsClipped(u.dominance, 0.98 * s.dominance + Words(t, 0.1, -0.2, -0.4) + t.dominanceShift, -1.0, 1.0)
            && u.arousal == (if dissociates then 0.5 * ArousalBefore(s, t) else ArousalBefore(s, t))
            && IsClipped(u.libido, s.libido + drive, 0.0, 1.0)
            && IsClipped(u.tension, rest + mood, 0.0, 1.0)
            && (u.tension > 0.8 && u.dominance > 0.0 ==> IsClipped(u.aggression, s.aggression + 0.1, 0.0, 1.0))
  {
    hide ApplyTimeDecay, Moved, Regulate, PleasureShift, ArousalShift, DominanceShift, Words;
    var d := ApplyTimeDecay(EXACT, s, t.now);
    DecayExactly(s, t.now);
    ShiftsExactly(t, d.libido);
    MovedExactly(d.pleasure, PleasureShift(EXACT, t), t.valence);
    MovedExactly(d.arousal, ArousalShift(EXACT, t, d.libido), t.arousalShift);
    MovedExactly(d.dominance, DominanceShift(EXACT, t), t.dominanceShift);
    var pleasure := Moved(EXACT, d.pleasure, PleasureShift(EXACT, t), t.valence);
    var arousal := Moved(EXACT, d.arousal, ArousalShift(EXACT, t, d.libido), t.arousalShift);
    var dominance := Moved(EXACT, d.dominance, DominanceShift(EXACT, t), t.dominanceShift);
    var drive := if arousal > 0.5 && pleasure > 0.0 then 0.05 else -0.01;
    var libido := Clamp(d.libido + drive, 0.0, 1.0);
    RegulateExactly(
      d.(pleasure := pleasure, arousal := arousal, dominance := dominance, libido := libido, lastUpdate := t.now));
  }
}
