# Devotion staking ledger in Dafny

This project models the Devotion staking program on Solana. Users "devote"
(stake) a token into a vault of their own and accrue a devotion score. The
score grows with the staked amount and with the time since their last
checkpoint, capped at 180 days per session. Users can "waver" (withdraw)
part or all of their stake, and doing so forfeits the score frozen so far.
The model covers three pieces:

- `rust_int.dfy`: the Rust integer semantics the program relies on. It
  defines u8, u64 and i64, the `checked_*` operations, i64 `saturating_sub`
  and the wrapping `as u64` cast.
- `devotion_score.dfy`: the `Devoted` record and the `check_devotion` score
  with its u64 overflow rules. It also holds two inputs that expose the
  arithmetic's defects, and a corrected score (see Findings).
- `devotion_ledger.dfy`: the `Ledger` class with `initialize`, `devote` and
  `waver`. It covers the `TotalDevoted` aggregate, the per-user records and
  vault balances, and the account checks each instruction makes.
  - Each instruction returns `Ok`, or an `Err` that leaves every account
    unchanged.
  - The class invariant `Consistent` states four things:
    - the aggregate equals the sum of all staked amounts;
    - each record belongs to the key it is stored under;
    - every open vault holds at least its owner's staked amount (anyone
      may send tokens to a vault, whose address is derived from public
      seeds);
    - a positive stake always has an open vault.
- `counter.dfy`: the u8 counter scaffold program (`initialize`, `increment`,
  `decrement`, `set`, `close`).
- `ellipsify.dfy`: the string-shortening helper of the web UI, using
  JavaScript `substring` semantics.

The repository's test suite and web UI expect a richer program than the
one in programs/devotion/src/lib.rs. The model follows lib.rs:

- tests/devotion.ts:133-135 and src/components/devotion/devotion-ui.tsx:13-23
  pass an `interval` and a `maxDevotionCharge` to `initialize`, and
  tests/devotion.ts:709-714 reads a stored `decimals`. In lib.rs:17-29
  `initialize` takes neither, and lib.rs:9-11 hard-codes a 10^9 token
  scale, 86,400 seconds per day and a 180-day cap.
- tests/devotion.ts:486-552 and 662-706 call a `heresy` instruction, which
  lib.rs does not define.
- lib.rs:174-178 returns the residual plus the accrual, with no cap on the
  total score.
- A full `waver` closes the vault but leaves the `Devoted` record open,
  because the code that would close it (lib.rs:137-147) is commented out.
- The elapsed time is not clamped at zero. A clock reading before the
  checkpoint gives a negative i64, which the `as u64` cast wraps.

## Model

| member | source | states |
|---|---|---|
| `DevotionScore.CappedSeconds` | programs/devotion/src/lib.rs:37-40 | The counted time is at most 15,552,000 seconds (180 days). With a non-regressing clock it is exactly min(now - last, 180 days) and not negative. |
| `DevotionScore.CheckDevotion` | programs/devotion/src/lib.rs:157-178 | The score never falls below the residual. It equals the residual when queried at the checkpoint. With a non-regressing clock it exceeds the residual by at most one capped session, `MaxAccrual(amount)`. |
| `DevotionScore.AccrualCapped` | programs/devotion/src/lib.rs:9-11 | Because counted time never exceeds 180 days, one session accrues at most floor(floor(amount * 15,552,000 / 10^9) / 86,400). |
| `DevotionScore.CheckDevotionFormula` | programs/devotion/src/lib.rs:160-176 | If neither the product nor the sum overflows u64, the score is residual + floor(floor(min(now - last, 180 days) * amount / 10^9) / 86,400). |
| `DevotionScore.ProductOverflowAccruesNothing` | programs/devotion/src/lib.rs:166-168 | If capped seconds * amount exceeds u64, the accrual is 0, not a wrapped value, and the score is just the residual. |
| `DevotionScore.SumOverflowKeepsResidual` | programs/devotion/src/lib.rs:174-176 | If residual + accrual exceeds u64, the score is the residual alone. |
| `DevotionScore.EmptyStakeScoresResidual` | programs/devotion/src/lib.rs:166-176 | A record with nothing staked scores exactly its residual, whatever the clock reads. |
| `DevotionScore.DevoteFoldMatchesQuery` | programs/devotion/src/lib.rs:35-58 | `devote` folds accrual into the residual with its own copy of the formula, and only when something is staked. The value it stores equals `check_devotion` at that instant, in both branches. |
| `DevotionScore.ScoreDropsAfterProductOverflow` | programs/devotion/src/lib.rs:166-172 | For 600,000 tokens the code's score is 208,333 after 30,000 s and 0 after one day. The corrected score gives 600,000 for that day. |
| `DevotionScore.RegressingClockInflatesScore` | programs/devotion/src/lib.rs:160-166 | One raw unit queried one second before its checkpoint: the code scores 213,503, the corrected score 0. |
| `DevotionScore.WideAccrual` | programs/devotion/src/lib.rs:163-172 | The accrual computed with a wide product and non-negative elapsed time always fits in u64 and never exceeds `MaxAccrual(amount)`. |
| `DevotionScore.CheckDevotionWide` | programs/devotion/src/lib.rs:157-178 | The corrected score lies between the residual and the residual plus `MaxAccrual(amount)`. It is exactly the residual for a clock at or before the checkpoint. |
| `DevotionScore.WideFormula` | programs/devotion/src/lib.rs:165-176 | If the sum fits in u64, the corrected score equals the intended formula for every amount, with no requirement that the product fits. |
| `DevotionScore.WideAgreesWithoutOverflow` | programs/devotion/src/lib.rs:166-168 | Wherever the code's u64 product does not overflow, the code and the corrected score agree. |
| `DevotionScore.WideMonotone` | programs/devotion/src/lib.rs:160-176 | The corrected score never decreases as the clock advances, as long as the sum fits in u64. |
| `DevotionLedger.TotalAmountRemove` | programs/devotion/src/lib.rs:202-205 | The sum of staked amounts equals any one record's amount plus the sum over the others. |
| `DevotionLedger.TotalAmountUpdate` | programs/devotion/src/lib.rs:72-77 | Writing one record moves the sum of staked amounts by exactly that record's change of amount. |
| `DevotionLedger.AmountWithinTotal` | programs/devotion/src/lib.rs:107-152 | No record's amount exceeds the aggregate. So when the aggregate's `checked_sub` in `waver` is reached, it cannot fail. |
| `DevotionLedger.UpdateKeepsConsistent` | programs/devotion/src/lib.rs:72-77 | Writing one user's record, moving the aggregate by the change of that record's amount, and leaving the vault with at least the new amount (or closing it when the amount is zero) preserves conservation, ownership and vault backing. No other user's record or vault changes. |
| `DevotionLedger.VaultCoversStake` | programs/devotion/src/lib.rs:60-72 | Under the invariant, a user's vault balance, open or not, is never below that user's staked amount. So when the vault's sum fits in u64, the record's `checked_add` in `devote` cannot fail. |
| `DevotionLedger.Ledger.Commit` | programs/devotion/src/lib.rs:72-77 | A successful instruction's writes: the record, the vault (new balance or closed) and the aggregate change together, the invariant is kept, and no other user's account changes. |
| `DevotionLedger.Ledger.constructor` | programs/devotion/src/lib.rs:214-241 | Before `initialize` no account exists: no records, no vaults, aggregate 0. |
| `DevotionLedger.Ledger.Initialize` | programs/devotion/src/lib.rs:17-29 | The first call records admin and mint and sets `total_tokens` to 0. A second call fails with `AlreadyInUse` and changes nothing. |
| `DevotionLedger.Ledger.Devote` | programs/devotion/src/lib.rs:31-80 | Every failure leaves all accounts unchanged. When several failures apply, the model reports one fixed choice: missing state, wrong mint, accounts not derived from the caller, insufficient wallet balance, then u64 overflow of the vault or the aggregate. On success, residual := the old record's score at `now`; amount, vault and aggregate grow by `a`; timestamp := `now`; user := caller. The residual never decreases, and is untouched when nothing was staked. A query at `now` returns the residual. No other user's record or vault changes. |
| `DevotionLedger.Ledger.Waver` | programs/devotion/src/lib.rs:82-155 | Every failure leaves all accounts unchanged. When several apply, the model reports one fixed choice: missing state, wrong mint, accounts not the caller's, vault closed, withdrawal above the vault balance, the amount's `checked_sub` panic, then `close_account` refusing a vault that still holds tokens once the amount reaches zero. On success, amount, vault and aggregate drop by `a`, residual := 0 and timestamp := `now`. The vault is closed exactly when the amount reaches zero, and the record stays. No other user's record or vault changes. |
| `DevotionLedger.Ledger.WaverSweeping` | programs/devotion/src/lib.rs:107-135 | The corrected `waver`: on a full withdrawal the user is paid the whole vault balance, tokens sent by others included, and the vault is closed, so this step never fails. Otherwise it behaves as `Waver` and pays `a`. |
| `DevotionLedger.Ledger.TransferToVault` | programs/devotion/src/lib.rs:256-263 | Anyone holding enough tokens can transfer `d` into an open vault, whose address comes from public seeds. The vault grows by `d`, and no record and not the aggregate change. It fails on a closed vault, an insufficient balance or a u64 overflow of the vault. |
| `DevotionLedger.ReDevoteScenario` | tests/devotion.ts:210-277 | 100,000 tokens (at the test's 10^6 scale) devoted, then a zero devote a second later: the record is not reset, the checkpoint moves forward and the residual stays 0. |
| `DevotionLedger.StakingScenario` | tests/devotion.ts:279-323 | 600,000 tokens devoted on top of 100,000: the amount, the vault and the aggregate are all 700,000 tokens. |
| `DevotionLedger.TopUpScenario` | tests/devotion.ts:325-400 | 400,000 tokens devoted on top of 700,000: the amount and the aggregate are 1,100,000 tokens, the residual 0, and the score one day later is 1,100. |
| `DevotionLedger.WaverScenario` | tests/devotion.ts:402-484 | Half of 1,100,000 tokens wavered: the record, the vault and the aggregate keep 550,000 tokens, and the residual is 0. |
| `DevotionLedger.IntruderScenario` | tests/devotion.ts:554-660 | A second user's `devote` and `waver` on the first user's accounts both fail with `ConstraintSeeds`, and the first user's record and vault are unchanged. |
| `DevotionLedger.DonationBlocksFullWaver` | programs/devotion/src/lib.rs:107-135 | 100 raw units staked and 1 more sent into the vault by someone else. A full `waver` fails at `close_account`, one unit more panics at `checked_sub`, and after withdrawing 99 the last unit is stuck again. `WaverSweeping` releases it, paying 2. |
| `Counter.DevotionCounter.constructor` | anchor/programs/devotion/src/lib.rs:25-27 | `initialize` creates the account with count 0. |
| `Counter.DevotionCounter.Increment` | anchor/programs/devotion/src/lib.rs:20-23 | Count + 1, or abort with count unchanged when it is 255. Fails on a closed account. |
| `Counter.DevotionCounter.Decrement` | anchor/programs/devotion/src/lib.rs:15-18 | Count - 1, or abort with count unchanged when it is 0. Fails on a closed account. |
| `Counter.DevotionCounter.Set` | anchor/programs/devotion/src/lib.rs:29-32 | Count := value, and nothing else changes. Fails on a closed account. |
| `Counter.DevotionCounter.Close` | anchor/programs/devotion/src/lib.rs:11-13 | The account is removed and the count is not written. Closing twice fails. |
| `Counter.CounterScenario` | anchor/tests/devotion.spec.ts:16-75 | The sequence initialize, increment, increment, decrement, set(42), close yields counts 0, 1, 2, 1, 42, and the account is gone. |
| `UiLayout.Ellipsify` | src/components/ui/ui-layout.tsx:294-299 | Strings of at most 30 characters come back unchanged. A longer string with 0 <= len <= its length becomes its first `len` characters, "..", then its last `len` characters. |
| `UiLayout.EllipsifyDefault` | src/components/ui/ui-layout.tsx:294-299 | With the default len = 4, a long string becomes 10 characters: its first 4, "..", its last 4. |
| `UiLayout.EllipsifyEmpty` | src/components/ui/ui-layout.tsx:294 | `ellipsify()` with both defaults, `str = ''` and `len = 4`, returns the empty string. |
| `UiLayout.EllipsifyShape` | src/components/ui/ui-layout.tsx:296 | For every `len`, a long string becomes a prefix of it, "..", and a suffix of it. Both have length k = `len` clamped to [0, length], so the result is 2k + 2 characters. |
| `UiLayout.EllipsifyShortens` | src/components/ui/ui-layout.tsx:295-296 | For len <= 14 a long string comes out at most 30 characters, which is strictly shorter. |
| `UiLayout.EllipsifyIdempotent` | src/components/ui/ui-layout.tsx:294-299 | For len <= 14, ellipsifying twice gives the same result as once. |

## Findings

| source | as written | input that shows it | evidently intended | confidence | as-written member | corrected member |
|---|---|---|---|---|---|---|
| programs/devotion/src/lib.rs:166-172 | `capped_seconds * amount` is formed in u64. On overflow `unwrap_or(0)` makes the accrual 0. With 10^9 decimals this happens after one day for any stake above about 213,503 tokens. | amount = 600,000 * 10^9, residual 0, checkpoint 0: score 208,333 at t = 30,000, then 0 at t = 86,400 | the product is taken in a wide integer, and the score for that day is 600,000 | high for the arithmetic; not executed | `DevotionScore.ScoreDropsAfterProductOverflow` | `DevotionScore.CheckDevotionWide` |
| programs/devotion/src/lib.rs:107-135 | When the amount reaches zero, `waver` moves only `amount` out of the vault and then calls `close_account`, which refuses a token account that still holds tokens. Anyone can send tokens to the vault, whose address is derived from public seeds. | 100 raw units staked, 1 raw unit sent to the vault by another wallet: `waver(100)` fails, `waver(101)` panics, and after `waver(99)` the last unit cannot be withdrawn | a full withdrawal pays out the whole vault balance before closing it | medium: needs a third-party transfer; not executed | `DevotionLedger.DonationBlocksFullWaver` | `DevotionLedger.Ledger.WaverSweeping` |
| programs/devotion/src/lib.rs:160-166 | A clock earlier than the checkpoint gives a negative elapsed time, which `as u64` turns into nearly 2^64 seconds. | amount = 1, checkpoint 100, now = 99: score 213,503 | a regressing clock counts as zero elapsed time | low: needs the host clock to move backwards; not executed | `DevotionScore.RegressingClockInflatesScore` | `DevotionScore.CheckDevotionWide` |

`Ledger.Devote` keeps the code's arithmetic (`CheckDevotion`), and
`Ledger.Waver` keeps the code's vault closing, because they model the
deployed instructions. `WaverSweeping` is the corrected withdrawal.
`CheckDevotionWide` is the corrected query, proved monotone in time (`WideMonotone`), and it agrees with the
code wherever the code's product fits (`WideAgreesWithoutOverflow`).

## Left out

- Token transfers, vault creation and vault closing are calls into the SPL
  token program. The model replaces them with a balance per open vault.
  The caller's wallet balance is the parameter `available` of `Devote` and
  `TransferToVault`, and wallets are not updated. `Waver` does not model the
  case where the vault is open but the user's record is not: the invariant
  rules it out.
- Address derivation, bumps, signer seeds and rent are not modelled; records
  and vaults are keyed by the user's key. `ConstraintSeeds` stands for
  supplying accounts derived from a key other than the signer's.
  `MintMismatch` stands for the `stake_mint` constraint. Existence of the
  caller's token account is not checked.
- `Clock::get()` is the parameter `now`.
- Lamport refunds and the storage deposit of closed accounts are not modelled.
- `initialize` stores no bump values; the bumps are address-derivation data.
- Reinitialising a counter account after `close` is not modelled: each
  `DevotionCounter` object is one account.
- `Ellipsify` treats a string as a sequence of characters. JavaScript
  counts UTF-16 code units. The default `len = 4` appears as
  `EllipsifyDefault`, and the call with both defaults as `EllipsifyEmpty`.
  A non-integer `len` is not modelled.
- The deploy script, the test scripts that run against a network, the
  wallet scripts and the rest of the web UI are not part of this model.
