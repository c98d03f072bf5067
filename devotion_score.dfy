/**
 * The per-user devotion record of the staking program and the devotion
 * score computed from it (programs/devotion/src/lib.rs).
 *
 * The score of a record at time `now` is its frozen `residualDevotion` plus
 * what the current stake has accrued since `lastStakeTimestamp`: the elapsed
 * seconds, capped at 180 days, times the staked amount, divided by the token
 * scale 10^9 and by the seconds of a day. All of it is u64 arithmetic: an
 * overflowing product accrues nothing, and an overflowing sum leaves the
 * score at the residual.
 */
module DevotionScore {
  import opened RustInt

  const SECONDS_PER_DAY: int := 86_400
  const MAX_MULTIPLIER_SECONDS: int := SECONDS_PER_DAY * 180
  const TOKEN_DECIMALS: int := 1_000_000_000

  /** A 32-byte public key; the model only compares keys for equality. */
  type Pubkey = nat

  /** `Pubkey::default()`, the all-zero key of a freshly allocated account. */
  const DEFAULT_PUBKEY: Pubkey := 0

  /** The `Devoted` account: one per user, at an address derived from the user's key. */
  datatype Devoted = Devoted(
    user: Pubkey,
    amount: u64,
    residualDevotion: u64,
    lastStakeTimestamp: i64)

  /** The zero-filled record that `init_if_needed` allocates on a first devote. */
  const FRESH_DEVOTED: Devoted := Devoted(DEFAULT_PUBKEY, 0, 0, 0)

  /** The largest accrual one session of `amount` raw units can reach: 180 days' worth. */
  function MaxAccrual(amount: nat): nat
  {
    amount * MAX_MULTIPLIER_SECONDS / TOKEN_DECIMALS / SECONDS_PER_DAY
  }

  /**
   * `min(now.saturating_sub(last), MAX_MULTIPLIER_SECONDS)`: the elapsed
   * seconds counted toward accrual. A clock reading earlier than `last`
   * gives a negative value here.
   */
  function CappedSeconds(now: i64, last: i64): (c: i64)
    ensures c <= MAX_MULTIPLIER_SECONDS
    ensures now >= last ==> c == Min(now - last, MAX_MULTIPLIER_SECONDS) && c >= 0
  {
    Min(SaturatingSub(now, last), MAX_MULTIPLIER_SECONDS)
  }

  /**
   * The devotion accrued by `amount` since `last`. The divisions by the two
   * non-zero constants cannot fail, so their `checked_div(..).unwrap_or(0)`
   * is plain floor division.
   */
  function Accrual(amount: u64, now: i64, last: i64): u64
  {
    match CheckedMul(AsU64(CappedSeconds(now, last)), amount)
    case None => 0
    case Some(p) => p / TOKEN_DECIMALS / SECONDS_PER_DAY
  }

  /**
   * `check_devotion`: the current score of `rec` at clock reading `now`.
   * It never falls below the residual, equals the residual at the
   * checkpoint itself, and exceeds it by at most one capped session.
   */
  function CheckDevotion(rec: Devoted, now: i64): (score: u64)
    ensures score >= rec.residualDevotion
    ensures now == rec.lastStakeTimestamp ==> score == rec.residualDevotion
    ensures now >= rec.lastStakeTimestamp ==>
              score <= rec.residualDevotion + MaxAccrual(rec.amount)
  {
    var devotion := Accrual(rec.amount, now, rec.lastStakeTimestamp);
    assert now >= rec.lastStakeTimestamp ==> devotion <= MaxAccrual(rec.amount) by {
      if now >= rec.lastStakeTimestamp { AccrualCapped(rec.amount, now, rec.lastStakeTimestamp); }
    }
    match CheckedAdd(devotion, rec.residualDevotion)
    case Some(total) => total
    case None => rec.residualDevotion
  }

  // ---------------------------------------------------------------------
  // Arithmetic helpers

  lemma MulLe(a: nat, b: nat, c: nat)
    requires a <= b
    ensures a * c <= b * c
  {
  }

  lemma DivLe(x: nat, y: nat, d: nat)
    requires x <= y && d > 0
    ensures x / d <= y / d
  {
    var qx, qy := x / d, y / d;
    assert d * qx <= x;
    assert y < d * qy + d;
    if qx > qy {
      MulLe(qy + 1, qx, d);
      assert false;
    }
  }

  /** Floor division by the token scale and then by a day is monotone. */
  lemma ScaleLe(x: nat, y: nat)
    requires x <= y
    ensures x / TOKEN_DECIMALS / SECONDS_PER_DAY <= y / TOKEN_DECIMALS / SECONDS_PER_DAY
  {
    DivLe(x, y, TOKEN_DECIMALS);
    DivLe(x / TOKEN_DECIMALS, y / TOKEN_DECIMALS, SECONDS_PER_DAY);
  }

  // ---------------------------------------------------------------------
  // Properties of the score

  /** The counted time never exceeds 180 days, so one session accrues at most `MaxAccrual`. */
  lemma AccrualCapped(amount: u64, now: i64, last: i64)
    requires now >= last
    ensures Accrual(amount, now, last) <= MaxAccrual(amount)
  {
    var c := CappedSeconds(now, last);
    if c * amount <= U64_MAX {
      MulLe(c, MAX_MULTIPLIER_SECONDS, amount);
      ScaleLe(c * amount, MAX_MULTIPLIER_SECONDS * amount);
    }
  }

  /**
   * Without overflow the score is the residual plus
   * floor(floor(min(now - last, 180 days) * amount / 10^9) / 86400).
   */
  lemma CheckDevotionFormula(rec: Devoted, now: i64)
    requires now >= rec.lastStakeTimestamp
    requires Min(now - rec.lastStakeTimestamp, MAX_MULTIPLIER_SECONDS) * rec.amount <= U64_MAX
    requires rec.residualDevotion
             + Min(now - rec.lastStakeTimestamp, MAX_MULTIPLIER_SECONDS) * rec.amount
               / TOKEN_DECIMALS / SECONDS_PER_DAY <= U64_MAX
    ensures CheckDevotion(rec, now)
            == rec.residualDevotion
               + Min(now - rec.lastStakeTimestamp, MAX_MULTIPLIER_SECONDS) * rec.amount
                 / TOKEN_DECIMALS / SECONDS_PER_DAY
  {
  }

  /** A product of capped seconds and amount beyond u64 accrues nothing: the score is the residual. */
  lemma ProductOverflowAccruesNothing(rec: Devoted, now: i64)
    requires now >= rec.lastStakeTimestamp
    requires Min(now - rec.lastStakeTimestamp, MAX_MULTIPLIER_SECONDS) * rec.amount > U64_MAX
    ensures Accrual(rec.amount, now, rec.lastStakeTimestamp) == 0
    ensures CheckDevotion(rec, now) == rec.residualDevotion
  {
  }

  /** When residual plus accrual leaves u64, the score falls back to the residual alone. */
  lemma SumOverflowKeepsResidual(rec: Devoted, now: i64)
    requires rec.residualDevotion + Accrual(rec.amount, now, rec.lastStakeTimestamp) > U64_MAX
    ensures CheckDevotion(rec, now) == rec.residualDevotion
  {
  }

  /**
   * `devote` folds the accrual into the residual with its own copy of the
   * formula, and only when something is staked; what it stores is exactly
   * what `check_devotion` reports at that instant.
   */
  lemma DevoteFoldMatchesQuery(rec: Devoted, now: i64)
    ensures var folded :=
              if rec.amount > 0 then
                match CheckedAdd(rec.residualDevotion, Accrual(rec.amount, now, rec.lastStakeTimestamp))
                case Some(s) => s
                case None => rec.residualDevotion
              else rec.residualDevotion;
            folded == CheckDevotion(rec, now)
  {
  }

  /** A record with nothing staked scores exactly its residual, whatever the clock says. */
  lemma EmptyStakeScoresResidual(rec: Devoted, now: i64)
    requires rec.amount == 0
    ensures CheckDevotion(rec, now) == rec.residualDevotion
  {
  }

  // ---------------------------------------------------------------------
  // The score as the code computes it can drop while time passes, and a
  // clock reading before the checkpoint yields a huge accrual. Below, the
  // two inputs that show it, and the score with the intended arithmetic.

  /**
   * 600,000 tokens staked: after 30,000 seconds the score is 208,333, after
   * one full day it is 0, because 86,400 * 6 * 10^14 no longer fits in u64.
   * The wide computation gives the intended 600,000 for that day.
   */
  lemma ScoreDropsAfterProductOverflow()
    ensures var rec := Devoted(1, 600_000 * TOKEN_DECIMALS, 0, 0);
            && CheckDevotion(rec, 30_000) == 208_333
            && CheckDevotion(rec, SECONDS_PER_DAY) == 0
            && CheckDevotionWide(rec, SECONDS_PER_DAY) == 600_000
  {
  }

  /**
   * One raw unit staked at time 100 and queried at time 99: the elapsed
   * time -1 is cast to 2^64 - 1 and the score jumps to 213,503, where the
   * corrected score counts no time at all.
   */
  lemma RegressingClockInflatesScore()
    ensures var rec := Devoted(1, 1, 0, 100);
            && CheckDevotion(rec, 99) == 213_503
            && CheckDevotionWide(rec, 99) == 0
  {
  }

  /**
   * The accrual with the product formed in a wide (128-bit) integer, which
   * cannot overflow for a u64 amount and at most 180 days, and with
   * elapsed time counted as zero when the clock reads before `last`.
   */
  function WideAccrual(amount: u64, now: i64, last: i64): (d: u64)
    ensures d <= MaxAccrual(amount)
  {
    var elapsed := if now <= last then 0 else Min(now - last, MAX_MULTIPLIER_SECONDS);
    MulLe(elapsed, MAX_MULTIPLIER_SECONDS, amount);
    ScaleLe(elapsed * amount, MAX_MULTIPLIER_SECONDS * amount);
    MulLe(amount, U64_MAX, MAX_MULTIPLIER_SECONDS);
    ScaleLe(MAX_MULTIPLIER_SECONDS * amount, MAX_MULTIPLIER_SECONDS * U64_MAX);
    elapsed * amount / TOKEN_DECIMALS / SECONDS_PER_DAY
  }

  /** The corrected score: residual plus the wide accrual, the sum still checked as in the code. */
  function CheckDevotionWide(rec: Devoted, now: i64): (score: u64)
    ensures score >= rec.residualDevotion
    ensures now <= rec.lastStakeTimestamp ==> score == rec.residualDevotion
    ensures score <= rec.residualDevotion + MaxAccrual(rec.amount)
  {
    match CheckedAdd(WideAccrual(rec.amount, now, rec.lastStakeTimestamp), rec.residualDevotion)
    case Some(total) => total
    case None => rec.residualDevotion
  }

  /** Without a sum overflow the corrected score is exactly the intended formula, for any amount. */
  lemma WideFormula(rec: Devoted, now: i64)
    requires now >= rec.lastStakeTimestamp
    requires rec.residualDevotion
             + Min(now - rec.lastStakeTimestamp, MAX_MULTIPLIER_SECONDS) * rec.amount
               / TOKEN_DECIMALS / SECONDS_PER_DAY <= U64_MAX
    ensures CheckDevotionWide(rec, now)
            == rec.residualDevotion
               + Min(now - rec.lastStakeTimestamp, MAX_MULTIPLIER_SECONDS) * rec.amount
                 / TOKEN_DECIMALS / SECONDS_PER_DAY
  {
  }

  /** Wherever the code's product fits in u64, the code and the corrected score agree. */
  lemma WideAgreesWithoutOverflow(rec: Devoted, now: i64)
    requires now >= rec.lastStakeTimestamp
    requires Min(now - rec.lastStakeTimestamp, MAX_MULTIPLIER_SECONDS) * rec.amount <= U64_MAX
    ensures CheckDevotionWide(rec, now) == CheckDevotion(rec, now)
  {
  }

  /** The corrected score never decreases as the clock advances (while the sum fits in u64). */
  lemma {:induction false} WideMonotone(rec: Devoted, t1: i64, t2: i64)
    requires t1 <= t2
    requires rec.residualDevotion + WideAccrual(rec.amount, t2, rec.lastStakeTimestamp) <= U64_MAX
    ensures CheckDevotionWide(rec, t1) <= CheckDevotionWide(rec, t2)
  {
    var last := rec.lastStakeTimestamp;
    var e1 := if t1 <= last then 0 else Min(t1 - last, MAX_MULTIPLIER_SECONDS);
    var e2 := if t2 <= last then 0 else Min(t2 - last, MAX_MULTIPLIER_SECONDS);
    MulLe(e1, e2, rec.amount);
    ScaleLe(e1 * rec.amount, e2 * rec.amount);
  }
}
