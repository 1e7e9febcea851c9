/** Linear vesting in machine integers, and the exact schedule it computes. */
module Vesting {
  import opened Primitives
  import opened Accounts

  /** `as u128` on an i64: negative values wrap. */
  function AsU128(n: i64): nat {
    if n >= 0 then n else n + TWO_128
  }

  function CheckedSub(a: i64, b: i64): Result<i64, Error> {
    if I64_MIN <= a - b <= I64_MAX then Ok(a - b) else Err(ArithmeticError)
  }

  function CheckedMul128(a: nat, b: nat): Result<nat, Error> {
    if a * b < TWO_128 then Ok(a * b) else Err(ArithmeticError)
  }

  function CheckedDiv(a: nat, b: nat): Result<nat, Error> {
    if b == 0 then Err(ArithmeticError) else Ok(a / b)
  }

  /** `ClaimStatus::unlocked_amount`, with its checks and casts. */
  function UnlockedAmount(locked: u64, now: i64, start: i64, end: i64): Result<u64, Error> {
    if now >= start then
      if now >= end then Ok(locked)
      else
        var timeIntoUnlock :- CheckedSub(now, start);
        var totalUnlockTime :- CheckedSub(end, start);
        var product :- CheckedMul128(AsU128(timeIntoUnlock), locked);
        var amount :- CheckedDiv(product, AsU128(totalUnlockTime));
        Ok(amount % TWO_64)
    else Ok(0)
  }

  /** `ClaimStatus::amount_withdrawable`. */
  function AmountWithdrawable(status: StatusData, now: i64, start: i64, end: i64): Result<u64, Error> {
    var unlocked :- UnlockedAmount(status.lockedAmount, now, start, end);
    :- Need(status.lockedAmountWithdrawn <= unlocked, ArithmeticError);
    Ok(unlocked - status.lockedAmountWithdrawn)
  }

  lemma DivideBounds(p: nat, q: nat)
    requires q > 0
    ensures p / q * q <= p < (p / q + 1) * q
  {
  }

  lemma MulMonotone(a: nat, b: nat, c: nat)
    requires a <= b
    ensures a * c <= b * c
  {
  }

  lemma DivideMonotone(p: nat, p': nat, q: nat)
    requires q > 0 && p <= p'
    ensures p / q <= p' / q
  {
    DivideBounds(p, q);
    DivideBounds(p', q);
    if p / q > p' / q {
      MulMonotone(p' / q + 1, p / q, q);
    }
  }

  lemma WholeShare(q: nat, locked: nat)
    requires q > 0
    ensures q * locked / q == locked
  {
    DivideBounds(q * locked, q);
    var d := q * locked / q;
    if d < locked {
      MulMonotone(d + 1, locked, q);
    }
  }

  /** The share of the locked amount vested after t of q seconds, rounded down. */
  function Share(t: nat, q: nat, locked: nat): (share: nat)
    requires t <= q && q > 0
    ensures share <= locked
  {
    MulMonotone(t, q, locked);
    DivideMonotone(t * locked, q * locked, q);
    WholeShare(q, locked);
    t * locked / q
  }

  lemma ShareMonotone(t: nat, t': nat, q: nat, locked: nat)
    requires t <= t' <= q && q > 0
    ensures Share(t, q, locked) <= Share(t', q, locked)
  {
    MulMonotone(t, t', locked);
    DivideMonotone(t * locked, t' * locked, q);
  }

  /** The schedule itself, over unbounded integers. */
  function Vested(locked: nat, now: int, start: int, end: int): (vested: nat)
    ensures vested <= locked
  {
    if now < start then 0
    else if now >= end then locked
    else Share(now - start, end - start, locked)
  }

  /** During vesting the payout is the exact linear share, rounded down by less than one token. */
  lemma VestedRoundsDown(locked: nat, now: int, start: int, end: int)
    requires start <= now < end
    ensures var vested, period := Vested(locked, now, start, end), end - start;
            vested * period <= (now - start) * locked < (vested + 1) * period
  {
    DivideBounds((now - start) * locked, end - start);
  }

  /** The schedule never takes tokens back. */
  lemma VestedMonotone(locked: nat, now: int, later: int, start: int, end: int)
    requires now <= later
    ensures Vested(locked, now, start, end) <= Vested(locked, later, start, end)
  {
    if start <= later < end {
      ShareMonotone(if start <= now then now - start else 0, later - start, end - start, locked);
    }
  }

  /**
   * The machine arithmetic is exact: it errs only when the vesting period itself overflows, and
   * otherwise no check fires and no cast loses anything. Holds for every i64 time, also start >= end.
   */
  lemma VestingExact(locked: u64, now: i64, start: i64, end: i64)
    ensures UnlockedAmount(locked, now, start, end)
         == if start <= now < end && end - start > I64_MAX then Err(ArithmeticError)
            else Ok(Vested(locked, now, start, end))
  {
    if start <= now < end && end - start <= I64_MAX {
      CheckedArithmeticIsExact(now - start, end - start, locked);
    }
  }

  lemma CheckedArithmeticIsExact(t: nat, q: nat, locked: u64)
    requires t < q <= I64_MAX
    ensures CheckedMul128(t, locked) == Ok(t * locked)
    ensures CheckedDiv(t * locked, q) == Ok(Share(t, q, locked))
    ensures Share(t, q, locked) % TWO_64 == Share(t, q, locked)
  {
    ProductFits(t, locked);
  }

  lemma ProductFits(t: nat, locked: u64)
    requires t <= I64_MAX
    ensures t * locked < TWO_128
  {
    MulMonotone(t, I64_MAX, locked);
    MulMonotone(locked, U64_MAX, I64_MAX);
  }
}
