/** The composite LFU score, over the reals. */
module LfuScore {

  datatype LfuConfig = LfuConfig(frequencyWeight: real, recencyWeight: real, decaySeconds: real)

  function Max(x: real, y: real): real { if x < y then y else x }

  /** Hits, discounted by how many decay periods the entry has lived. */
  function FreqScore(count: real, ageSeconds: real, decaySeconds: real): real
    requires decaySeconds != 0.0
  {
    count / Max(1.0, ageSeconds / decaySeconds)
  }

  function RecencyScore(ageSeconds: real): real { 1.0 / Max(1.0, ageSeconds) }

  /** Higher is better; the program divides by `decaySeconds`, so its callers must not pass zero. */
  function ComputeLfuScore(accessCount: int, ageSeconds: real, cfg: LfuConfig): (score: real)
    requires cfg.decaySeconds != 0.0
  {
    Weighted(accessCount as real, ageSeconds, cfg)
  }

  function Weighted(count: real, ageSeconds: real, cfg: LfuConfig): (score: real)
    requires cfg.decaySeconds != 0.0
  {
    cfg.frequencyWeight * FreqScore(count, ageSeconds, cfg.decaySeconds)
    + cfg.recencyWeight * RecencyScore(ageSeconds)
  }

  /** A new entry scores its hits and one, weighted; from then on hits count for less with every decay
      period, and being recent with every second. */
  lemma ScoreOfFresh(accessCount: int, ageSeconds: real, cfg: LfuConfig)
    requires 0.0 < cfg.decaySeconds && ageSeconds <= 1.0 && ageSeconds <= cfg.decaySeconds
    ensures ComputeLfuScore(accessCount, ageSeconds, cfg)
         == cfg.frequencyWeight * accessCount as real + cfg.recencyWeight
  {
    var d := cfg.decaySeconds;
    AtMostOne(ageSeconds, d);
    assert FreqScore(accessCount as real, ageSeconds, d) == accessCount as real;
    assert RecencyScore(ageSeconds) == 1.0;
  }

  lemma AtMostOne(x: real, d: real)
    requires x <= d && 0.0 < d
    ensures x / d <= 1.0
  {
  }

  lemma ScoreOfAged(accessCount: int, periods: real, cfg: LfuConfig)
    requires 0.0 < cfg.decaySeconds && 1.0 <= periods && 1.0 <= periods * cfg.decaySeconds
    ensures ComputeLfuScore(accessCount, periods * cfg.decaySeconds, cfg)
         == cfg.frequencyWeight * (accessCount as real / periods)
            + cfg.recencyWeight * (1.0 / (periods * cfg.decaySeconds))
  {
    var d := cfg.decaySeconds;
    DivideBack(periods, d);
    assert FreqScore(accessCount as real, periods * d, d) == accessCount as real / periods;
    assert RecencyScore(periods * d) == 1.0 / (periods * d);
  }

  lemma DivideBack(x: real, d: real)
    requires d != 0.0
    ensures x * d / d == x
  {
  }

  lemma DivideMonotone(x: real, y: real, d: real)
    requires x <= y && 0.0 < d
    ensures x / d <= y / d
  {
  }

  lemma DivideAntitone(x: real, d: real, e: real)
    requires 0.0 <= x && 0.0 < e <= d
    ensures 0.0 <= x / d <= x / e
  {
    var q, r := x / d, x / e;
    assert q * d == r * e;
  }

  lemma FrequencyMonotone(c: real, d: real, older: real, younger: real, decay: real)
    requires c <= d && 0.0 <= d && younger <= older && 0.0 < decay
    ensures FreqScore(c, older, decay) <= FreqScore(d, younger, decay)
  {
    DivideMonotone(younger, older, decay);
    var f, g := Max(1.0, older / decay), Max(1.0, younger / decay);
    DivideMonotone(c, d, f);
    DivideAntitone(d, f, g);
  }

  lemma WeightedSum(w: real, v: real, a: real, b: real, x: real, y: real)
    requires 0.0 <= w && 0.0 <= v && a <= b && x <= y
    ensures w * a + v * x <= w * b + v * y
  {
    assert w * (b - a) >= 0.0;
    assert v * (y - x) >= 0.0;
  }

  /** The score is monotone in the hit count and antitone in the age. */
  lemma ScoreMonotone(c: int, d: int, older: real, younger: real, cfg: LfuConfig)
    requires 0.0 <= cfg.frequencyWeight && 0.0 <= cfg.recencyWeight && 0.0 < cfg.decaySeconds
    requires c <= d && 0 <= d && younger <= older
    ensures ComputeLfuScore(c, older, cfg) <= ComputeLfuScore(d, younger, cfg)
  {
    WeightedMonotone(c as real, d as real, older, younger, cfg);
  }

  lemma WeightedMonotone(c: real, d: real, older: real, younger: real, cfg: LfuConfig)
    requires 0.0 <= cfg.frequencyWeight && 0.0 <= cfg.recencyWeight && 0.0 < cfg.decaySeconds
    requires c <= d && 0.0 <= d && younger <= older
    ensures Weighted(c, older, cfg) <= Weighted(d, younger, cfg)
  {
    FrequencyMonotone(c, d, older, younger, cfg.decaySeconds);
    assert RecencyScore(older) <= RecencyScore(younger) by {
      DivideAntitone(1.0, Max(1.0, older), Max(1.0, younger));
    }
    WeightedSum(cfg.frequencyWeight, cfg.recencyWeight,
                FreqScore(c, older, cfg.decaySeconds), FreqScore(d, younger, cfg.decaySeconds),
                RecencyScore(older), RecencyScore(younger));
  }

  // ----- the score with temporal decay

  /** How the hits of an entry fade: the half-life, and `halving(x)` for two to the power of minus `x`. */
  datatype Decay = Decay(halfLife: real, halving: real -> real)

  /** The score of an entry in `save_cache_lfu_decay_full`: an entry from the future counts as new; a
      half-life that is not positive raises a ValueError, for which the bare hit count stands in. */
  function DecayScore(accessCount: int, ageSeconds: real, cfg: LfuConfig, decay: Decay): (score: real)
    requires decay.halfLife > 0.0 ==> cfg.decaySeconds != 0.0
  {
    var age := Max(0.0, ageSeconds);
    if decay.halfLife <= 0.0 then accessCount as real
    else Weighted(FadedCount(accessCount as real, age / decay.halfLife, decay), age, cfg)
  }

  function FadedCount(count: real, halfLives: real, decay: Decay): real { count * decay.halving(halfLives) }

  /** With decay, an entry one half-life old scores like one with half its hits; an entry from the future
      like a new one; and with no usable half-life the hits alone count. */
  lemma DecayScoreHalves(accessCount: int, ageSeconds: real, cfg: LfuConfig, decay: Decay)
    requires 0.0 < cfg.decaySeconds && decay.halving(0.0) == 1.0 && decay.halving(1.0) == 0.5
    ensures 0.0 < decay.halfLife == ageSeconds ==>
              DecayScore(2 * accessCount, ageSeconds, cfg, decay) == ComputeLfuScore(accessCount, ageSeconds, cfg)
    ensures 0.0 < decay.halfLife && ageSeconds <= 0.0 ==>
              DecayScore(accessCount, ageSeconds, cfg, decay)
              == cfg.frequencyWeight * accessCount as real + cfg.recencyWeight
    ensures decay.halfLife <= 0.0 ==> DecayScore(accessCount, ageSeconds, cfg, decay) == accessCount as real
  {
    if 0.0 < decay.halfLife == ageSeconds {
      DivideBack(1.0, decay.halfLife);
      assert ageSeconds / decay.halfLife == 1.0;
      assert FadedCount((2 * accessCount) as real, 1.0, decay) == accessCount as real;
    }
    if 0.0 < decay.halfLife && ageSeconds <= 0.0 {
      assert 0.0 / decay.halfLife == 0.0;
      assert FadedCount(accessCount as real, 0.0, decay) == accessCount as real;
      ScoreOfFresh(accessCount, 0.0, cfg);
    }
  }

  ghost predicate NeverGrows(halving: real -> real)
  {
    forall x, y :: 0.0 <= x <= y ==> 0.0 <= halving(y) <= halving(x)
  }

  lemma FadesWithAge(c: real, d: real, older: real, younger: real, decay: Decay)
    requires NeverGrows(decay.halving) && c <= d && 0.0 <= d && 0.0 <= younger <= older
    ensures FadedCount(c, older, decay) <= FadedCount(d, younger, decay)
    ensures 0.0 <= FadedCount(d, younger, decay)
  {
    var f, g := decay.halving(older), decay.halving(younger);
    assert 0.0 <= f <= g;
    assert (d - c) * f >= 0.0;
    assert d * (g - f) >= 0.0;
    assert d * f >= 0.0;
  }

  /** So is the faded score, for every way of fading that never grows. */
  lemma DecayScoreMonotone(c: int, d: int, older: real, younger: real, cfg: LfuConfig, decay: Decay)
    requires 0.0 <= cfg.frequencyWeight && 0.0 <= cfg.recencyWeight && 0.0 < cfg.decaySeconds
    requires NeverGrows(decay.halving)
    requires c <= d && 0 <= d && younger <= older
    ensures DecayScore(c, older, cfg, decay) <= DecayScore(d, younger, cfg, decay)
  {
    if decay.halfLife > 0.0 {
      var was, now := Max(0.0, older), Max(0.0, younger);
      DivideMonotone(0.0, now, decay.halfLife);
      DivideMonotone(now, was, decay.halfLife);
      var x, y := was / decay.halfLife, now / decay.halfLife;
      FadesWithAge(c as real, d as real, x, y, decay);
      WeightedMonotone(FadedCount(c as real, x, decay), FadedCount(d as real, y, decay), was, now, cfg);
    }
  }
}
