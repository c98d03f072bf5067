/**
 * The staking ledger of programs/devotion/src/lib.rs: the singleton state
 * and `TotalDevoted` aggregate that `initialize` creates, and the `devote`
 * and `waver` instructions that move tokens between a user's wallet and
 * the user's vault while keeping the user's `Devoted` record and the
 * aggregate in step.
 *
 * Each instruction either commits all of its writes or aborts with an
 * error and leaves every account as it was: the host ledger rolls back a
 * failed transaction. The record and the vault of a user live at addresses
 * derived from that user's key, so an instruction can reach no other
 * user's accounts; the model keys both maps by the user.
 */
module DevotionLedger {
  import opened RustInt
  import opened DevotionScore

  datatype Error =
    | NotInitialized          // the state account does not exist yet
    | AlreadyInUse            // `init` on an account that exists
    | MintMismatch            // `constraint = state.stake_mint == stake_mint.key()`
    | ConstraintSeeds         // the supplied accounts are not derived from the caller's key
    | AccountNotInitialized   // the vault is required but closed or never created
    | InsufficientFunds       // the token transfer's source holds too little
    | Overflow                // a u64 sum overflowed: the token program's or `checked_add(..).unwrap()`
    | Panic                   // `checked_sub(..).unwrap()` on the record's amount panicked
    | NonZeroAccountBalance   // `close_account` refuses a token account that still holds tokens

  datatype Outcome = Ok | Err(error: Error)

  /** The sum of the staked amounts of all records. */
  ghost function TotalAmount(m: map<Pubkey, Devoted>): nat
    decreases |m|
  {
    if m == map[] then 0
    else
      var k :| k in m;
      m[k].amount + TotalAmount(m - {k})
  }

  /** Any record can be split off the sum, not only the one `TotalAmount` happens to pick. */
  lemma {:induction false} TotalAmountRemove(m: map<Pubkey, Devoted>, k: Pubkey)
    requires k in m
    ensures TotalAmount(m) == m[k].amount + TotalAmount(m - {k})
    decreases |m|
  {
    var j :| j in m && TotalAmount(m) == m[j].amount + TotalAmount(m - {j});
    if j != k {
      assert (m - {j}) - {k} == (m - {k}) - {j};
      TotalAmountRemove(m - {j}, k);
      TotalAmountRemove(m - {k}, j);
    }
  }

  /** Replacing or adding one record changes the sum by exactly that record's change of amount. */
  lemma TotalAmountUpdate(m: map<Pubkey, Devoted>, k: Pubkey, r: Devoted)
    ensures k in m ==> TotalAmount(m[k := r]) + m[k].amount == TotalAmount(m) + r.amount
    ensures k !in m ==> TotalAmount(m[k := r]) == TotalAmount(m) + r.amount
  {
    TotalAmountRemove(m[k := r], k);
    if k in m {
      TotalAmountRemove(m, k);
      assert m[k := r] - {k} == m - {k};
    } else {
      assert m[k := r] - {k} == m;
    }
  }

  /** A record's amount is part of the sum, so it never exceeds it. */
  lemma AmountWithinTotal(m: map<Pubkey, Devoted>, k: Pubkey)
    requires k in m
    ensures m[k].amount <= TotalAmount(m)
  {
    TotalAmountRemove(m, k);
  }

  /** `m'` agrees with `m` on every key other than `k`: no other user's account was touched. */
  ghost predicate SameElsewhere<V>(m: map<Pubkey, V>, m': map<Pubkey, V>, k: Pubkey)
  {
    forall j | j != k :: (j in m <==> j in m') && (j in m ==> m[j] == m'[j])
  }

  /**
   * The aggregate is the sum of all staked amounts; every record belongs
   * to the user it is keyed by; an open vault holds at least its user's
   * staked amount (anyone may send tokens to a vault, whose address is
   * public), and a positive stake always has an open vault.
   */
  ghost predicate Consistent(records: map<Pubkey, Devoted>, vaults: map<Pubkey, u64>, total: int)
  {
    && total == TotalAmount(records)
    && (forall k | k in records :: records[k].user == k)
    && (forall k | k in vaults :: k in records && vaults[k] >= records[k].amount)
    && (forall k | k in records && records[k].amount > 0 :: k in vaults)
  }

  /**
   * Writing one user's record, with the aggregate moved by the change of
   * that record's amount and the user's vault either holding `vault`, at
   * least the new amount, or closed when the new amount is zero, keeps the
   * ledger consistent.
   */
  lemma UpdateKeepsConsistent(
    records: map<Pubkey, Devoted>, vaults: map<Pubkey, u64>, total: int,
    k: Pubkey, rec: Devoted, vault: u64, close: bool, total': int)
    requires Consistent(records, vaults, total)
    requires rec.user == k
    requires total' == total - (if k in records then records[k].amount else 0) + rec.amount
    requires if close then rec.amount == 0 else vault >= rec.amount
    ensures Consistent(records[k := rec], if close then vaults - {k} else vaults[k := vault], total')
    ensures SameElsewhere(records, records[k := rec], k)
    ensures SameElsewhere(vaults, if close then vaults - {k} else vaults[k := vault], k)
  {
    TotalAmountUpdate(records, k, rec);
  }

  /** A user's vault, open or not, covers that user's staked amount. */
  lemma VaultCoversStake(records: map<Pubkey, Devoted>, vaults: map<Pubkey, u64>, total: int, k: Pubkey)
    requires Consistent(records, vaults, total)
    ensures (if k in records then records[k].amount else 0) <= (if k in vaults then vaults[k] else 0)
  {
  }

  class Ledger {
    /** Whether `initialize` has created the state and `TotalDevoted` accounts. */
    var initialized: bool
    var admin: Pubkey
    var stakeMint: Pubkey
    /** `TotalDevoted.total_tokens`. */
    var totalTokens: u64
    /** The `Devoted` account of each user that has one. */
    var records: map<Pubkey, Devoted>
    /** The token balance of each user's vault that is open. */
    var vaults: map<Pubkey, u64>

    ghost predicate Valid()
      reads this
    {
      && (!initialized ==> records == map[] && vaults == map[])
      && Consistent(records, vaults, totalTokens)
    }

    /** The record the `devote` instruction works on: the existing one, or a zero-filled new one. */
    function RecordOf(user: Pubkey): Devoted
      reads this
    {
      if user in records then records[user] else FRESH_DEVOTED
    }

    /** The balance of a user's vault; a vault that `init_if_needed` creates starts empty. */
    function VaultOf(user: Pubkey): u64
      reads this
    {
      if user in vaults then vaults[user] else 0
    }

    /**
     * The writes a successful instruction makes at its end: user `k`'s
     * record becomes `rec`, `k`'s vault holds `vault` or is closed, and the
     * aggregate moves by the change of `k`'s amount.
     */
    method Commit(k: Pubkey, rec: Devoted, vault: u64, close: bool, total: u64)
      requires Valid() && initialized
      requires rec.user == k
      requires total == totalTokens - RecordOf(k).amount + rec.amount
      requires if close then rec.amount == 0 else vault >= rec.amount
      modifies this
      ensures Valid()
      ensures initialized == old(initialized) && admin == old(admin) && stakeMint == old(stakeMint)
      ensures records == old(records)[k := rec]
      ensures vaults == if close then old(vaults) - {k} else old(vaults)[k := vault]
      ensures totalTokens == total
      ensures SameElsewhere(old(records), records, k) && SameElsewhere(old(vaults), vaults, k)
    {
      UpdateKeepsConsistent(records, vaults, totalTokens, k, rec, vault, close, total);
      records := records[k := rec];
      vaults := if close then vaults - {k} else vaults[k := vault];
      totalTokens := total;
    }

    /** The program before `initialize`: none of its accounts exist. */
    constructor ()
      ensures Valid()
      ensures !initialized && records == map[] && vaults == map[] && totalTokens == 0
    {
      initialized := false;
      admin, stakeMint := DEFAULT_PUBKEY, DEFAULT_PUBKEY;
      totalTokens := 0;
      records, vaults := map[], map[];
    }

    /**
     * `initialize`: creates the state and `TotalDevoted` accounts with a
     * zero aggregate; both are `init` accounts, so a second call fails.
     */
    method Initialize(caller: Pubkey, mint: Pubkey) returns (r: Outcome)
      requires Valid()
      modifies this
      ensures Valid()
      ensures r == if old(initialized) then Err(AlreadyInUse) else Ok
      ensures r.Err? ==> initialized == old(initialized) && admin == old(admin)
                         && stakeMint == old(stakeMint) && totalTokens == old(totalTokens)
      ensures r.Ok? ==> initialized && admin == caller && stakeMint == mint && totalTokens == 0
      ensures records == old(records) && vaults == old(vaults)
    {
      if initialized {
        return Err(AlreadyInUse);
      }
      admin := caller;
      stakeMint := mint;
      totalTokens := 0;
      initialized := true;
      r := Ok;
    }

    /**
     * `devote(amount)` by `caller`, who supplies the accounts derived from
     * `target`'s key, the mint `mint`, and holds `available` tokens.
     * The score accrued so far is frozen into the residual, then `a`
     * tokens move into the vault and the checkpoint moves to `now`.
     */
    method Devote(caller: Pubkey, target: Pubkey, mint: Pubkey, a: u64, available: nat, now: i64)
      returns (r: Outcome)
      requires Valid()
      modifies this
      ensures Valid()
      ensures initialized == old(initialized) && admin == old(admin) && stakeMint == old(stakeMint)
      ensures r == if !old(initialized) then Err(NotInitialized)
                   else if mint != old(stakeMint) then Err(MintMismatch)
                   else if target != caller then Err(ConstraintSeeds)
                   else if a > available then Err(InsufficientFunds)
                   else if old(VaultOf(caller)) + a > U64_MAX || old(totalTokens) + a > U64_MAX
                   then Err(Overflow)
                   else Ok
      ensures r.Err? ==> records == old(records) && vaults == old(vaults)
                         && totalTokens == old(totalTokens)
      ensures r.Ok? ==>
                && old(RecordOf(caller)).amount + a <= U64_MAX
                && records == old(records)[caller := Devoted(
                     caller,
                     old(RecordOf(caller)).amount + a,
                     CheckDevotion(old(RecordOf(caller)), now),
                     now)]
                && vaults == old(vaults)[caller := old(VaultOf(caller)) + a]
                && totalTokens == old(totalTokens) + a
      ensures r.Ok? ==> CheckDevotion(records[caller], now) == records[caller].residualDevotion
      ensures r.Ok? ==> records[caller].residualDevotion >= old(RecordOf(caller)).residualDevotion
      ensures r.Ok? && old(RecordOf(caller)).amount == 0 ==>
                records[caller].residualDevotion == old(RecordOf(caller)).residualDevotion
      ensures SameElsewhere(old(records), records, caller) && SameElsewhere(old(vaults), vaults, caller)
    {
      if !initialized {
        return Err(NotInitialized);
      }
      if mint != stakeMint {
        return Err(MintMismatch);
      }
      if target != caller {
        return Err(ConstraintSeeds);
      }
      // init_if_needed
      var devoted := if caller in records then records[caller] else FRESH_DEVOTED;
      var vault: u64 := if caller in vaults then vaults[caller] else 0;
      ghost var before := devoted;

      if devoted.amount > 0 {
        var devotion := Accrual(devoted.amount, now, devoted.lastStakeTimestamp);
        var sum := CheckedAdd(devoted.residualDevotion, devotion);
        devoted := devoted.(residualDevotion := if sum.Some? then sum.value else devoted.residualDevotion);
      } else {
        devoted := devoted.(user := caller);
      }
      assert devoted.residualDevotion == CheckDevotion(before, now) by {
        DevoteFoldMatchesQuery(before, now);
      }

      // The token program's transfer: the source must hold `a`, and the
      // destination's balance must stay within u64.
      if a > available {
        return Err(InsufficientFunds);
      }
      var newVault := CheckedAdd(vault, a);
      if newVault.None? {
        return Err(Overflow);
      }
      assert devoted.amount <= vault by {
        VaultCoversStake(records, vaults, totalTokens, caller);
      }
      var newAmount := CheckedAdd(devoted.amount, a);
      assert newAmount.Some?;
      var newTotal := CheckedAdd(totalTokens, a);
      if newTotal.None? {
        return Err(Overflow);
      }

      devoted := devoted.(amount := newAmount.value, lastStakeTimestamp := now);
      Commit(caller, devoted, newVault.value, false, newTotal.value);
      r := Ok;
    }

    /**
     * `waver(amount)` by `caller`: `a` tokens leave the vault, the
     * residual is forfeited, the checkpoint moves to `now`, and the vault
     * is closed once the record's amount reaches zero. The record itself
     * stays open. Closing a vault that still holds tokens sent to it by
     * others fails, and the whole instruction with it.
     */
    method Waver(caller: Pubkey, target: Pubkey, mint: Pubkey, a: u64, now: i64)
      returns (r: Outcome)
      requires Valid()
      modifies this
      ensures Valid()
      ensures initialized == old(initialized) && admin == old(admin) && stakeMint == old(stakeMint)
      ensures r == if !old(initialized) then Err(NotInitialized)
                   else if mint != old(stakeMint) then Err(MintMismatch)
                   else if target != caller then Err(ConstraintSeeds)
                   else if caller !in old(vaults) then Err(AccountNotInitialized)
                   else if a > old(vaults[caller]) then Err(InsufficientFunds)
                   else if a > old(records[caller].amount) then Err(Panic)
                   else if a == old(records[caller].amount) && old(vaults[caller]) > a
                   then Err(NonZeroAccountBalance)
                   else Ok
      ensures r.Err? ==> records == old(records) && vaults == old(vaults)
                         && totalTokens == old(totalTokens)
      ensures r.Ok? ==>
                && caller in old(records)
                && records == old(records)[caller := Devoted(
                     caller, old(records[caller].amount) - a, 0, now)]
                && vaults == (if old(records[caller].amount) == a
                              then old(vaults) - {caller}
                              else old(vaults)[caller := old(vaults[caller]) - a])
                && totalTokens == old(totalTokens) - a
      ensures r.Ok? ==> CheckDevotion(records[caller], now) == 0
      ensures SameElsewhere(old(records), records, caller) && SameElsewhere(old(vaults), vaults, caller)
    {
      if !initialized {
        return Err(NotInitialized);
      }
      if mint != stakeMint {
        return Err(MintMismatch);
      }
      if target != caller {
        return Err(ConstraintSeeds);
      }
      if caller !in vaults {
        return Err(AccountNotInitialized);
      }
      // The token program refuses to move more than the vault holds.
      if a > vaults[caller] {
        return Err(InsufficientFunds);
      }
      var vault := vaults[caller] - a;
      var devoted := records[caller];
      var newAmount := CheckedSub(devoted.amount, a);
      if newAmount.None? {
        return Err(Panic);
      }
      devoted := devoted.(amount := newAmount.value, lastStakeTimestamp := now, residualDevotion := 0);
      if devoted.amount == 0 && vault > 0 {
        return Err(NonZeroAccountBalance);
      }
      assert a <= totalTokens by {
        AmountWithinTotal(records, caller);
      }
      var newTotal := CheckedSub(totalTokens, a);

      Commit(caller, devoted, vault, devoted.amount == 0, newTotal.value);
      r := Ok;
    }

    /**
     * `waver` as evidently intended: when the record's amount reaches zero,
     * whatever else the vault holds is paid out to the user too, so closing
     * the vault cannot fail. `paid` is what the user receives.
     */
    method WaverSweeping(caller: Pubkey, target: Pubkey, mint: Pubkey, a: u64, now: i64)
      returns (r: Outcome, paid: nat)
      requires Valid()
      modifies this
      ensures Valid()
      ensures initialized == old(initialized) && admin == old(admin) && stakeMint == old(stakeMint)
      ensures r == if !old(initialized) then Err(NotInitialized)
                   else if mint != old(stakeMint) then Err(MintMismatch)
                   else if target != caller then Err(ConstraintSeeds)
                   else if caller !in old(vaults) then Err(AccountNotInitialized)
                   else if a > old(records[caller].amount) then Err(Panic)
                   else Ok
      ensures r.Err? ==> records == old(records) && vaults == old(vaults)
                         && totalTokens == old(totalTokens) && paid == 0
      ensures r.Ok? ==>
                && caller in old(records)
                && records == old(records)[caller := Devoted(
                     caller, old(records[caller].amount) - a, 0, now)]
                && (if old(records[caller].amount) == a
                    then vaults == old(vaults) - {caller} && paid == old(vaults[caller])
                    else vaults == old(vaults)[caller := old(vaults[caller]) - a] && paid == a)
                && totalTokens == old(totalTokens) - a
      ensures SameElsewhere(old(records), records, caller) && SameElsewhere(old(vaults), vaults, caller)
    {
      paid := 0;
      if !initialized {
        return Err(NotInitialized), 0;
      }
      if mint != stakeMint {
        return Err(MintMismatch), 0;
      }
      if target != caller {
        return Err(ConstraintSeeds), 0;
      }
      if caller !in vaults {
        return Err(AccountNotInitialized), 0;
      }
      var devoted := records[caller];
      var newAmount := CheckedSub(devoted.amount, a);
      if newAmount.None? {
        return Err(Panic), 0;
      }
      devoted := devoted.(amount := newAmount.value, lastStakeTimestamp := now, residualDevotion := 0);
      paid := if devoted.amount == 0 then vaults[caller] else a;
      var vault := vaults[caller] - paid;
      assert a <= totalTokens by {
        AmountWithinTotal(records, caller);
      }
      var newTotal := CheckedSub(totalTokens, a);

      Commit(caller, devoted, vault, devoted.amount == 0, newTotal.value);
      r := Ok;
    }

    /**
     * A token-program transfer of `d` tokens into `owner`'s vault by any
     * holder of `available` tokens: the vault's address is derived from
     * public seeds, so nothing stops it. Records and the aggregate stay.
     */
    method TransferToVault(owner: Pubkey, d: u64, available: nat) returns (r: Outcome)
      requires Valid()
      modifies this
      ensures Valid()
      ensures initialized == old(initialized) && admin == old(admin) && stakeMint == old(stakeMint)
      ensures records == old(records) && totalTokens == old(totalTokens)
      ensures r == if owner !in old(vaults) then Err(AccountNotInitialized)
                   else if d > available then Err(InsufficientFunds)
                   else if old(vaults[owner]) + d > U64_MAX then Err(Overflow)
                   else Ok
      ensures vaults == if r.Ok? then old(vaults)[owner := old(vaults[owner]) + d] else old(vaults)
    {
      if owner !in vaults {
        return Err(AccountNotInitialized);
      }
      if d > available {
        return Err(InsufficientFunds);
      }
      var newVault := CheckedAdd(vaults[owner], d);
      if newVault.None? {
        return Err(Overflow);
      }
      vaults := vaults[owner := newVault.value];
      r := Ok;
    }
  }

  /**
   * The test suite's repeated `devote` on an existing record: 100,000
   * tokens (at its 10^6 scale), then a zero devote a second later. The
   * record is not reset: the amount stays, the checkpoint moves forward and
   * the residual does not decrease.
   */
  method ReDevoteScenario() returns (first: Devoted, second: Devoted, total: int)
    ensures first == Devoted(1, 100_000_000_000, 0, 1_000)
    ensures second == Devoted(1, 100_000_000_000, 0, 1_001)
    ensures total == 100_000_000_000
  {
    var ledger := new Ledger();
    var r := ledger.Initialize(9, 7);
    r := ledger.Devote(1, 1, 7, 100_000_000_000, 2_000_000_000_000, 1_000);
    assert r == Ok;
    first := ledger.records[1];
    assert CheckDevotion(first, 1_001) == 0 by { CheckDevotionFormula(first, 1_001); }
    r := ledger.Devote(1, 1, 7, 0, 1_900_000_000_000, 1_001);
    assert r == Ok;
    second := ledger.records[1];
    total := ledger.totalTokens;
  }

  /**
   * The test suite's staking session: on top of 100,000 tokens, 600,000
   * more are devoted a second later. The amount, the vault and the
   * aggregate all grow by exactly the deposit.
   */
  method StakingScenario() returns (rec: Devoted, vault: int, total: int)
    ensures rec == Devoted(1, 700_000_000_000, 0, 1_002)
    ensures vault == 700_000_000_000 && total == 700_000_000_000
  {
    var ledger := new Ledger();
    var r := ledger.Initialize(9, 7);
    r := ledger.Devote(1, 1, 7, 100_000_000_000, 2_000_000_000_000, 1_001);
    assert r == Ok;
    assert CheckDevotion(ledger.records[1], 1_002) == 0 by {
      CheckDevotionFormula(ledger.records[1], 1_002);
    }
    r := ledger.Devote(1, 1, 7, 600_000_000_000, 1_900_000_000_000, 1_002);
    assert r == Ok;
    rec := ledger.records[1];
    vault := ledger.vaults[1];
    total := ledger.totalTokens;
  }

  /**
   * The test suite's second deposit: 400,000 tokens on top of the 700,000
   * staked a second earlier, then the score queried one day on, which is
   * one day's worth of 1,100,000 tokens.
   */
  method TopUpScenario() returns (rec: Devoted, dayScore: int, total: int)
    ensures rec == Devoted(1, 1_100_000_000_000, 0, 1_003)
    ensures dayScore == 1_100
    ensures total == 1_100_000_000_000
  {
    var ledger := new Ledger();
    var r := ledger.Initialize(9, 7);
    r := ledger.Devote(1, 1, 7, 700_000_000_000, 1_300_000_000_000, 1_002);
    assert r == Ok;
    assert CheckDevotion(ledger.records[1], 1_003) == 0 by {
      CheckDevotionFormula(ledger.records[1], 1_003);
    }
    r := ledger.Devote(1, 1, 7, 400_000_000_000, 600_000_000_000, 1_003);
    assert r == Ok;
    rec := ledger.records[1];
    total := ledger.totalTokens;
    dayScore := CheckDevotion(rec, 1_003 + SECONDS_PER_DAY);
    assert dayScore == 1_100 by { CheckDevotionFormula(rec, 1_003 + SECONDS_PER_DAY); }
  }

  /**
   * The test suite's withdrawal: from the 1,100,000 tokens the staking
   * session leaves, half is wavered a second later. The record keeps the
   * other half with no residual, and the vault and the aggregate match it.
   */
  method WaverScenario() returns (rec: Devoted, vault: int, total: int)
    ensures rec == Devoted(1, 550_000_000_000, 0, 1_004)
    ensures vault == 550_000_000_000 && total == 550_000_000_000
  {
    var ledger := new Ledger();
    var r := ledger.Initialize(9, 7);
    r := ledger.Devote(1, 1, 7, 1_100_000_000_000, 1_100_000_000_000, 1_003);
    assert r == Ok;
    r := ledger.Waver(1, 1, 7, 550_000_000_000, 1_004);
    assert r == Ok;
    rec := ledger.records[1];
    vault := ledger.vaults[1];
    total := ledger.totalTokens;
  }

  /**
   * A second user (key 2) supplies the first user's accounts to `devote`
   * and to `waver`; both are refused, and the first user's record and
   * vault are as before.
   */
  method IntruderScenario() returns (devoteAttempt: Outcome, waverAttempt: Outcome, victim: Devoted, vault: int)
    ensures devoteAttempt == Err(ConstraintSeeds) && waverAttempt == Err(ConstraintSeeds)
    ensures victim == Devoted(1, 100_000_000_000, 0, 1_000) && vault == 100_000_000_000
  {
    var ledger := new Ledger();
    var r := ledger.Initialize(9, 7);
    r := ledger.Devote(1, 1, 7, 100_000_000_000, 100_000_000_000, 1_000);
    assert r == Ok;
    devoteAttempt := ledger.Devote(2, 1, 7, 50_000_000_000, 100_000_000_000, 1_010);
    waverAttempt := ledger.Waver(2, 1, 7, 50_000_000_000, 1_020);
    victim := ledger.records[1];
    vault := ledger.vaults[1];
  }

  /**
   * 100 raw units staked, then one more sent into the vault by someone
   * else. Withdrawing the full stake fails at closing the vault, one unit
   * more fails at the amount's `checked_sub`, and after a withdrawal of 99
   * the last unit is again stuck. The sweeping `waver` releases it.
   */
  method DonationBlocksFullWaver()
    returns (full: Outcome, over: Outcome, partial: Outcome, last: Outcome, swept: Outcome, paid: nat)
    ensures full == Err(NonZeroAccountBalance) && over == Err(Panic)
    ensures partial == Ok && last == Err(NonZeroAccountBalance)
    ensures swept == Ok && paid == 2
  {
    var ledger := new Ledger();
    var r := ledger.Initialize(9, 7);
    r := ledger.Devote(1, 1, 7, 100, 1_000, 1_000);
    assert r == Ok;
    r := ledger.TransferToVault(1, 1, 1_000);
    assert r == Ok && ledger.vaults[1] == 101 && ledger.records[1].amount == 100;
    full := ledger.Waver(1, 1, 7, 100, 1_001);
    over := ledger.Waver(1, 1, 7, 101, 1_001);
    partial := ledger.Waver(1, 1, 7, 99, 1_001);
    assert ledger.vaults[1] == 2 && ledger.records[1].amount == 1;
    last := ledger.Waver(1, 1, 7, 1, 1_002);
    swept, paid := ledger.WaverSweeping(1, 1, 7, 1, 1_002);
  }
}
