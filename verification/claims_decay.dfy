/** How much of a quarter an action still pays: the linear decay of the airdrop. */
module ClaimsDecay {
  import opened ClaimsTypes
  import Dec = FixedPoint

  /** The claimable share and the remainder owed to the community pool. */
  function ClaimableAmountForAction(r: ClaimsRecord, action: Action, p: Params, blockTime: int): (int, int)
    requires p.Valid()
  {
    if r.amount == 0 || r.HasClaimedAction(action) then (0, 0)
    else if blockTime <= p.DecayStartTime() then (r.Quarter(), 0)
    else
      var elapsedDecay := TimeSub(blockTime, p.DecayStartTime());
      var elapsedDecayRatio := Dec.QuoInt64(Dec.FromInt(elapsedDecay), p.durationOfDecay);
      var claimableRatio := Dec.ONE - elapsedDecayRatio;
      var claimable := Dec.RoundInt(Dec.Mul(Dec.FromInt(r.Quarter()), claimableRatio));
      (claimable, r.Quarter() - claimable)
  }

  /** The same, guarded by the active window. */
  function GetClaimableAmountForAction(r: ClaimsRecord, action: Action, p: Params, blockTime: int): (int, int)
    requires p.Valid()
  {
    if !p.IsClaimsActive(blockTime) then (0, 0)
    else ClaimableAmountForAction(r, action, p, blockTime)
  }

  /** The decayed value of a quarter, by its arithmetic alone. */
  function Decayed(quarter: nat, elapsed: nat, duration: nat): int
    requires duration > 0
  {
    Dec.ChopAndRound(quarter * (Dec.ONE - elapsed * Dec.ONE / duration))
  }

  function ElapsedDecay(p: Params, blockTime: int): nat {
    if blockTime <= p.DecayStartTime() then 0 else blockTime - p.DecayStartTime()
  }

  lemma CancelFactor(a: int, b: int, d: int)
    requires d > 0 && a * d < (b + 1) * d
    ensures a <= b
  {
  }

  lemma CancelScale(a: real, b: real, scale: real)
    requires scale > 0.0 && a * scale <= b * scale
    ensures a <= b
  {
  }

  lemma ElapsedRatioBounds(elapsed: nat, duration: nat)
    requires 0 < duration && elapsed <= duration
    ensures 0 <= elapsed * Dec.ONE / duration <= Dec.ONE
  {
  }

  lemma ElapsedRatioMonotone(e1: nat, e2: nat, duration: nat)
    requires 0 < duration && e1 <= e2
    ensures e1 * Dec.ONE / duration <= e2 * Dec.ONE / duration
  {
    CancelFactor(e1 * Dec.ONE / duration, e2 * Dec.ONE / duration, duration);
  }

  lemma DecayedWithinQuarter(quarter: nat, elapsed: nat, duration: nat)
    requires 0 < duration && elapsed <= duration
    ensures 0 <= Decayed(quarter, elapsed, duration) <= quarter
  {
    ElapsedRatioBounds(elapsed, duration);
    var ratio := Dec.ONE - elapsed * Dec.ONE / duration;
    assert 0 <= quarter * ratio <= quarter * Dec.ONE;
    Dec.ChopMonotone(0, quarter * ratio);
    Dec.ChopMonotone(quarter * ratio, quarter * Dec.ONE);
    Dec.ChopExact(quarter);
    Dec.ChopExact(0);
  }

  lemma DecayedEnds(quarter: nat, duration: nat)
    requires 0 < duration
    ensures Decayed(quarter, 0, duration) == quarter
    ensures Decayed(quarter, duration, duration) == 0
  {
    assert 0 * Dec.ONE / duration == 0;
    assert duration * Dec.ONE / duration == Dec.ONE;
    Dec.ChopExact(quarter);
    Dec.ChopExact(0);
  }

  lemma DecayedNeverRises(quarter: nat, e1: nat, e2: nat, duration: nat)
    requires 0 < duration && e1 <= e2
    ensures Decayed(quarter, e2, duration) <= Decayed(quarter, e1, duration)
  {
    ElapsedRatioMonotone(e1, e2, duration);
    var r1, r2 := Dec.ONE - e1 * Dec.ONE / duration, Dec.ONE - e2 * Dec.ONE / duration;
    assert quarter * r2 <= quarter * r1;
    Dec.ChopMonotone(quarter * r2, quarter * r1);
  }

  /** The rounding error with every denominator cleared: `f` is the elapsed
      ratio cut to a multiple of 1/one, `c` the nearest integer to the product. */
  lemma ScaledError(one: int, c: int, f: int, quarter: nat, elapsed: nat, duration: nat)
    requires 0 < one && 0 < duration
    requires f * duration <= elapsed * one < f * duration + duration
    requires -one <= 2 * (one * c - quarter * (one - f)) <= one
    ensures var gap := 2 * one * (c * duration - quarter * (duration - elapsed));
            -(one * duration) <= gap <= one * duration + 2 * (quarter * duration)
  {
    var cut := elapsed * one - f * duration;
    var off := 2 * (one * c - quarter * (one - f));
    assert -(one * duration) <= off * duration <= one * duration;
    assert 0 <= quarter * cut <= quarter * duration;
    ErrorIdentity(one, c, f, quarter, elapsed, duration);
  }

  lemma ErrorIdentity(one: int, c: int, f: int, q: int, e: int, d: int)
    ensures 2 * one * (c * d - q * (d - e))
            == 2 * (one * c - q * (one - f)) * d + 2 * (q * (e * one - f * d))
  {
  }

  lemma UnscaledError(one: real, c: real, q: real, e: real, d: real)
    requires 0.0 < one && 0.0 < d
    requires -(one * d) <= 2.0 * one * (c * d - q * (d - e)) <= one * d + 2.0 * (q * d)
    requires 0.0 <= q
    ensures -(0.5 + q / one) <= c - q * (1.0 - e / d) <= 0.5 + q / one
  {
    var error := c - q * (1.0 - e / d);
    var bound := 0.5 + q / one;
    var scale := 2.0 * one * d;
    assert error * scale == 2.0 * one * (c * d - q * (d - e)) by {
      assert (e / d) * d == e;
      assert q * (1.0 - e / d) * d == q * (d - e);
      assert error * d == c * d - q * (d - e);
    }
    assert bound * scale == one * d + 2.0 * (q * d) by {
      assert (q / one) * one == q;
    }
    CancelScale(error, bound, scale);
    CancelScale(-bound, error, scale);
  }

  /** `c` is within 1/2 + q/one of the exact linear decay q * (1 - e/d). */
  ghost predicate NearExact(c: int, q: nat, e: nat, d: nat, one: nat) {
    && 0 < d && 0 < one
    && var exact := q as real * (1.0 - e as real / d as real);
       var bound := 0.5 + q as real / one as real;
       -bound <= c as real - exact <= bound
  }

  lemma NearFromReal(c: int, q: nat, e: nat, d: nat, one: nat)
    requires 0 < one && 0 < d
    requires var (rc, rq, re, rd, r1) := (c as real, q as real, e as real, d as real, one as real);
             -(r1 * rd) <= 2.0 * r1 * (rc * rd - rq * (rd - re)) <= r1 * rd + 2.0 * (rq * rd)
    ensures NearExact(c, q, e, d, one)
  {
    UnscaledError(one as real, c as real, q as real, e as real, d as real);
  }

  lemma NearFromScaled(c: int, q: nat, e: nat, d: nat, one: nat)
    requires 0 < one && 0 < d
    requires 0 - one * d <= 2 * one * (c * d - q * (d - e)) <= one * d + 2 * (q * d)
    ensures NearExact(c, q, e, d, one)
  {
    hide NearExact;
    RealOfScaled(one, c, q, e, d);
    NearFromReal(c, q, e, d, one);
  }

  lemma DecayedIsAccurate(quarter: nat, elapsed: nat, duration: nat)
    requires 0 < duration
    ensures NearExact(Decayed(quarter, elapsed, duration), quarter, elapsed, duration, Dec.ONE)
  {
    hide NearExact;
    var c, f := Decayed(quarter, elapsed, duration), elapsed * Dec.ONE / duration;
    assert elapsed * Dec.ONE == f * duration + elapsed * Dec.ONE % duration;
    Dec.ChopNearest(quarter * (Dec.ONE - f));
    ScaledError(Dec.ONE, c, f, quarter, elapsed, duration);
    NearFromScaled(c, quarter, elapsed, duration, Dec.ONE);
  }

  lemma RealOfScaled(one: int, c: int, q: int, e: int, d: int)
    requires -(one * d) <= 2 * one * (c * d - q * (d - e)) <= one * d + 2 * (q * d)
    ensures var (rc, rq, re, rd, r1) := (c as real, q as real, e as real, d as real, one as real);
            -(r1 * rd) <= 2.0 * r1 * (rc * rd - rq * (rd - re)) <= r1 * rd + 2.0 * (rq * rd)
  {
  }

  /** Inside the window the source's expression is the decayed quarter. */
  lemma ClaimableIsDecayed(r: ClaimsRecord, action: Action, p: Params, blockTime: int)
    requires p.Valid() && p.IsClaimsActive(blockTime)
    requires !r.HasClaimedAction(action)
    ensures ClaimableAmountForAction(r, action, p, blockTime).0
            == Decayed(r.Quarter(), ElapsedDecay(p, blockTime), p.durationOfDecay)
    ensures ElapsedDecay(p, blockTime) <= p.durationOfDecay
  {
    var e, d := ElapsedDecay(p, blockTime), p.durationOfDecay;
    if r.amount == 0 {
      assert 0 * (Dec.ONE - e * Dec.ONE / d) == 0;
    } else if e == 0 {
      DecayedEnds(r.Quarter(), d);
    } else {
      Dec.MulByIntIsExact(r.Quarter(), Dec.ONE - e * Dec.ONE / d);
    }
  }

  /** Inside the window the two shares are non-negative and make up the quarter. */
  lemma ClaimableSplitsQuarter(r: ClaimsRecord, action: Action, p: Params, t: int)
    requires p.Valid() && p.IsClaimsActive(t)
    requires !r.HasClaimedAction(action)
    ensures var (claimable, remainder) := GetClaimableAmountForAction(r, action, p, t);
            0 <= claimable && 0 <= remainder && claimable + remainder == r.Quarter()
  {
    ClaimableIsDecayed(r, action, p, t);
    DecayedWithinQuarter(r.Quarter(), ElapsedDecay(p, t), p.durationOfDecay);
  }

  /** Decay arithmetic: bounded by the quarter, nothing lost between the two
      shares, never rising with time, and within 1/2 + quarter/10^18 of the
      exact linear decay. */
  lemma ClaimableWithinWindow(r: ClaimsRecord, action: Action, p: Params, t: int, later: int)
    requires p.Valid() && p.IsClaimsActive(t) && p.IsClaimsActive(later) && t <= later
    requires !r.HasClaimedAction(action)
    ensures var (claimable, remainder) := GetClaimableAmountForAction(r, action, p, t);
            && 0 <= claimable <= r.Quarter()
            && claimable + remainder == r.Quarter()
            && GetClaimableAmountForAction(r, action, p, later).0 <= claimable
    ensures NearExact(GetClaimableAmountForAction(r, action, p, t).0, r.Quarter(),
                      ElapsedDecay(p, t), p.durationOfDecay, Dec.ONE)
    ensures t <= p.DecayStartTime() ==> GetClaimableAmountForAction(r, action, p, t) == (r.Quarter(), 0)
    ensures t == p.AirdropEndTime() ==> GetClaimableAmountForAction(r, action, p, t).0 == 0
  {
    var q, d := r.Quarter(), p.durationOfDecay;
    ClaimableIsDecayed(r, action, p, t);
    ClaimableIsDecayed(r, action, p, later);
    DecayedWithinQuarter(q, ElapsedDecay(p, t), d);
    DecayedNeverRises(q, ElapsedDecay(p, t), ElapsedDecay(p, later), d);
    DecayedIsAccurate(q, ElapsedDecay(p, t), d);
    DecayedEnds(q, d);
  }
}
