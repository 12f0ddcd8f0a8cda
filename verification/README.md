# dangi-dongi expense splitter, modelled in Dafny

dangi-dongi keeps a shared-expense ledger. The model has three parts.

**The ledger.** Users are registered by name and transactions are recorded
in order. Each transaction has an amount and a list of participants. Every
participant has a `u8` weight and, once the transaction is recorded, a fair
share of the amount.

**Settlement.** `calculate_total_payments` turns the ledger into a plan of
transfers:
1. It recomputes every user's balance as amount paid less fair shares.
2. It splits users into creditors, sorted descending, and debtors, sorted
   ascending. A balance within `1e-6` of zero counts as neither.
3. It matches them greedily with two cursors.
4. It snaps near-zero balances to zero.

**The other two cores.** The terminal front end's key handler is a small
state machine over an input mode, two prompt buffers and the ledger. The
older equal-split ledger of `main.rs` stores users in a vector and charges
everybody the same share.

Modelling conventions:
- Money is `real`.
- The hash map is a `map<string, User>`. Its unspecified iteration order is
  an explicit parameter `order`, which must list every key once
  (`Collections.IsEnumeration`).
- Rust's stable `sort_by` is a stable insertion sort.
- Preconditions exclude the inputs the source cannot handle:
  - a `u8` overflow of the weight sum (a panic in debug builds);
  - a zero total weight (no panic, but every share NaN).
- Messages printed to the console are dropped. A rejected mutation returns
  the ledger unchanged.

Modules, one file each:
- `Wrappers`: `Option` and `Result`.
- `Collections`: duplicate-free sequences, enumerations of a key set, and a
  sum over finite sets.
- `Ledger`: the mutators of `src/lib.rs`.
- `Settlement`: `calculate_total_payments`.
- `Plan`: what the settlement plan promises.
- `Invariants`: well-formedness, the conservation law and its preservation.
- `Tui`: `src/tui.rs`.
- `EqualSplit`: `src/main.rs`.

A user that a transaction does not list is meant to owe no share of it.
`calculate_total_payments` instead looks each user's share up with `unwrap`,
which panics on such a user. Both readings are modelled
(`Ledger.ShareOf` as written, `Ledger.ShareOrZero` corrected), and
`Settlement.CalculateTotalPayments` uses the corrected one; see Findings.

## Model

| member | source | states |
|---|---|---|
| Ledger.Find | src/lib.rs:163-166 | the participant found is the first one carrying the name; none exactly when no participant carries it |
| Ledger.ShareOf | src/lib.rs:163-169 | as written, the share lookup is defined only when the transaction lists the user (otherwise `unwrap` panics); the share read is that of the first participant carrying the name, and a missing fair share reads as zero |
| Ledger.ShareOrZero | src/lib.rs:163-169 | corrected lookup: zero for an unlisted user, and equal to the as-written lookup whenever that one is defined |
| Ledger.New | src/lib.rs:50-55 | the new ledger has no users and no transactions |
| Ledger.AddUser | src/lib.rs:57-69 | an existing name leaves the ledger unchanged; a new name gets zero paid and zero balance; the key set gains the name; transactions are untouched |
| Ledger.ListUsers | src/lib.rs:71-73 | the returned names list every user exactly once |
| Ledger.RemoveUser | src/lib.rs:75-82 | an unknown name changes nothing; otherwise exactly that key goes, the other users and all transactions stay |
| Ledger.EqualSplit | src/lib.rs:88-98 | the participants of a plain payment are the given names in order, each with weight one and the same share |
| Ledger.RecordPayment | src/lib.rs:84-105 | unknown payer: no change; otherwise only the payer's paid amount rises by the amount, and one transaction is appended that lists every user once with weight one and share amount / user count |
| Ledger.CalculateFairShares | src/lib.rs:265-275 | names and weights are kept, each participant's share is `amount * weight / total_weight` (`Ledger.FairShare`), and for a non-empty list the shares add up to the amount |
| Ledger.WithShares | src/lib.rs:272-274 | each participant gets `amount * weight / total` and nothing else changes |
| Ledger.SharesProportional | src/lib.rs:265-275 | the shares times the divisor `total` add up to the amount times the total weight |
| Ledger.SharesSumToAmount | src/lib.rs:265-275 | with a positive total weight the fair shares add up to the amount exactly |
| Ledger.RecordWeightedPayment | src/lib.rs:107-135 | as written: invalid participants (wrong count, or a name that is no user) or an unknown payer leave the ledger unchanged; otherwise the payer's paid amount rises by the amount and the transaction with computed shares is appended |
| Ledger.RecordWeightedPaymentExact | src/lib.rs:116-121 | corrected check that also rejects repeated names; whenever it accepts, it agrees with the as-written operation, and the appended transaction lists every user once with shares adding up to the amount |
| Ledger.RemovePayment | src/lib.rs:137-151 | unknown payer: no change; otherwise the payer's paid amount drops by the amount, or to zero if it would go negative; nothing else changes |
| Ledger.SettleUp | src/lib.rs:236-243 | every user is reset to zero paid and zero balance, the users stay, and the transactions are cleared |
| Ledger.AddUserIdempotent | src/lib.rs:57-69 | adding a name twice equals adding it once, and the name is then present |
| Ledger.AddRemoveInverse | src/lib.rs:57-82 | removing a just-added user restores the ledger; re-adding a removed user restores it except for that user's totals |
| Ledger.RemovePaymentUndoesRecord | src/lib.rs:84-151 | removing a payment just recorded restores every user's totals, as long as nothing was clamped |
| Ledger.SettleUpIdempotent | src/lib.rs:236-243 | settling twice is settling once |
| Settlement.Balances | src/lib.rs:161-172 | every user gets a balance and no one else does |
| Settlement.UnlistedBalance | src/lib.rs:161-172 | a user that no transaction lists has a balance equal to what they paid |
| Settlement.Select | src/lib.rs:177-199 | the filtered pairs are exactly the users on one side of the tolerance, each with their balance, with no repeats |
| Settlement.Insert | src/lib.rs:201-202 | inserting into a sorted list keeps it sorted and adds exactly the one element |
| Settlement.Sort | src/lib.rs:201-202 | the result is sorted (creditors descending, debtors ascending) and is a permutation of the input |
| Settlement.Classify | src/lib.rs:177-202 | creditors, or debtors, list each user beyond the tolerance exactly once, with their balance, in sorted order |
| Settlement.ClassifiedNamesDistinct | src/lib.rs:177-199 | no user appears twice among the creditors, or among the debtors |
| Settlement.Match | src/lib.rs:204-225 | reference matcher: the first debtor pays the first creditor as much as both allow, and whoever is within the tolerance of zero leaves; the plan is empty exactly when one side is |
| Settlement.GreedyMatch | src/lib.rs:204-225 | the two-cursor loop produces exactly the plan of the reference matcher `Settlement.Match` |
| Settlement.CalculateTotalPayments | src/lib.rs:153-233 | fewer than two users: an error and no change; otherwise a plan, with paid amounts, keys and transactions kept and every net balance set to paid minus shares, snapped to zero within the tolerance |
| Plan.MatchLength | src/lib.rs:204-225 | the plan has at most creditors + debtors - 1 transfers, and none when either side is empty |
| Plan.StepKeepsSides | src/lib.rs:207-224 | after one transfer the remaining creditors and debtors stay beyond the tolerance, under names they already had |
| Plan.MatchTransfers | src/lib.rs:204-225 | every transfer exceeds the tolerance and goes from a listed debtor to a listed creditor |
| Plan.StepSums | src/lib.rs:207-224 | one transfer lowers the total credit and the total debt by its amount, plus at most the tolerance per entry dropped |
| Plan.MatchTotalsAtMost | src/lib.rs:204-225 | the plan moves no more than the creditors are owed and no more than the debtors owe |
| Plan.MatchTotalsAtLeast | src/lib.rs:204-225 | the plan reaches the total credit, or the total debt, less the tolerance per creditor or per debtor respectively |
| Plan.MatchPerUser | src/lib.rs:204-225 | per person: no creditor receives more than their balance and no debtor pays more than they owe; either every creditor receives their balance or every debtor pays what they owe, each up to the tolerance |
| Plan.MatchExample | src/lib.rs:204-225 | A owed 50, B owing 30 and C owing 20 gives "B pays A 30" then "C pays A 20" |
| Plan.PlanIsMatch | src/lib.rs:153-233 | with at least two users, the computed plan is the greedy match of the ledger's sorted creditors and debtors |
| Plan.ClassifiedTransfers | src/lib.rs:177-225 | each transfer of the plan goes from a user whose balance is below minus the tolerance to one whose balance is above it |
| Plan.ClassifiedPerUser | src/lib.rs:177-225 | per user of the balance map: a creditor receives at most their balance and pays nothing; a debtor pays at most what they owe and receives nothing; a user within the tolerance of zero takes no part; all creditors or all debtors are settled up to the tolerance each |
| Plan.PlanProperties | src/lib.rs:153-233 | for the whole computation: the transfer facts, the length bound, both total bounds, and the per-user facts of `Plan.ClassifiedPerUser` over the ledger's balances |
| Plan.SettledPlanIsEmpty | src/lib.rs:236-243 | after settling up the plan is empty |
| Plan.RecalculationStable | src/lib.rs:153-233 | recomputing immediately gives the same plan and the same ledger |
| Invariants.ShareSumOverKeys | src/lib.rs:161-172 | summed over all users, one transaction's shares give its total of shares, when no name is listed twice |
| Invariants.SharesOverUsers | src/lib.rs:161-172 | over the users of a well-formed ledger, everybody's shares add up to the total of the transaction amounts |
| Invariants.BalancesSum | src/lib.rs:161-172 | on a well-formed ledger the balances add up to the total paid less the total of the amounts |
| Invariants.ConservationLaw | src/lib.rs:161-172 | on a well-formed, balanced ledger the balances add up to zero |
| Invariants.SettledSum | src/lib.rs:161-225 | transfers between users create no money: on a well-formed, balanced ledger, each balance less what the user receives plus what they pay still adds up to zero |
| Invariants.PlanSettlesEveryone | src/lib.rs:153-233 | on a well-formed, balanced ledger, once the computed plan is carried out every user is within (number of users - 1) times the tolerance of even |
| Invariants.NewWellFormed | src/lib.rs:50-55 | the new ledger is well formed and balanced |
| Invariants.AddUserPreserves | src/lib.rs:57-69 | adding a user keeps the ledger well formed and balanced |
| Invariants.RemoveUserPreserves | src/lib.rs:75-82 | removing a user that no transaction lists and that has paid nothing keeps the invariant |
| Invariants.TotalSharesConstant | src/lib.rs:96 | equal shares add up to their number times the share |
| Invariants.EqualSplitWellFormed | src/lib.rs:88-98 | the equal split lists each user once, and its shares add up to the amount |
| Invariants.RecordPaymentPreserves | src/lib.rs:84-105 | a plain payment keeps the ledger well formed and balanced |
| Invariants.RecordWeightedPaymentExactPreserves | src/lib.rs:107-135 | the corrected weighted payment keeps the ledger well formed and balanced |
| Invariants.RemovePaymentWellFormed | src/lib.rs:137-151 | removing a payment keeps the ledger well formed |
| Invariants.SettleUpPreserves | src/lib.rs:236-243 | settling up yields a well-formed, balanced ledger |
| Invariants.CalculateTotalPaymentsPreserves | src/lib.rs:153-233 | computing the plan keeps the invariant |
| Invariants.LateUserPanics | src/lib.rs:163-168 | a user added after a payment is missing from that payment's transaction, so the as-written lookup panics; the corrected lookup reads zero |
| Invariants.DuplicateParticipantsAccepted | src/lib.rs:116-121 | a transaction listing one user twice and another not at all is accepted as written, so the ledger left is not well formed; as written, computing payments then panics on the unlisted user; with the corrected lookup the balances add up to half the amount, not zero; the corrected check refuses the transaction |
| Tui.Start | src/tui.rs:27-33 | the app starts not exiting, in normal mode, with empty prompts and an empty ledger |
| Tui.TrimStart | src/tui.rs:81 | the result is a suffix of the input; only whitespace was removed, and it does not start with whitespace |
| Tui.TrimEnd | src/tui.rs:81 | the result is a prefix of the input; only whitespace was removed, and it does not end with whitespace |
| Tui.Trim | src/tui.rs:81 | the result is a slice with only whitespace outside it and no whitespace at its ends |
| Tui.TrimEmpty | src/tui.rs:81-82 | the trimmed name is empty exactly when the typed name is all whitespace |
| Tui.TrimIdempotent | src/tui.rs:81 | trimming twice is trimming once |
| Tui.TypeAmount | src/tui.rs:111-117 | a character is appended exactly when it is a digit, or a decimal point when there is none yet; a valid amount stays valid |
| Tui.Pop | src/tui.rs:101-104 | popping removes the last character, and does nothing to an empty string |
| Tui.PopValidAmount | src/tui.rs:103-105 | deleting the last character keeps the amount valid |
| Tui.Commit | src/tui.rs:78-98 | Enter in the user prompt adds the trimmed name if it is not blank, then clears the prompt and returns to normal mode; in the amount prompt it only clears and returns; in normal mode nothing happens |
| Tui.TypeChar | src/tui.rs:108-119 | a plain character goes into the user prompt as is, into the amount prompt under the amount rule, and is ignored in normal mode |
| Tui.HandleKeyEvent | src/tui.rs:54-124 | only presses act; the app exits exactly on `q` in normal mode and never un-exits; the amount prompt stays valid; the ledger changes only by adding the trimmed name on Enter in the user prompt; Enter always returns to normal mode; Esc only returns to normal mode; Backspace pops the open prompt's buffer and does nothing in normal mode; `q` in either prompt is appended to the user buffer; any other character goes through the generic character arm; other keys do nothing |
| Tui.PressU | src/tui.rs:64-67 | `u` opens an empty user prompt, except where the corrected keymap types it into the user prompt |
| Tui.PressT | src/tui.rs:68-74 | `t` opens an empty amount prompt, except where the corrected keymap types it into the user prompt |
| Tui.PressEnter | src/tui.rs:78-98 | Enter commits the open prompt, and does nothing in normal mode |
| Tui.PressEsc | src/tui.rs:75-77 | Esc returns to normal mode and keeps both buffers and the ledger |
| Tui.PressBackspace | src/tui.rs:99-107 | Backspace pops the last character of the open prompt's buffer, and does nothing in normal mode |
| Tui.PressQ | src/tui.rs:57-63 | `q` exits in normal mode; in either prompt it is appended to the user buffer, even in the amount prompt |
| Tui.Run | src/tui.rs:41-52 | an exited app ignores further events; transactions never change; users are never lost |
| Tui.RunStopsAtExit | src/tui.rs:41-52 | once the loop has exited, later events make no difference |
| Tui.RunSplit | src/tui.rs:41-52 | running two batches of events is running one after the other |
| Tui.RunKeepsValidAmount | src/tui.rs:108-119 | the amount prompt holds digits and at most one decimal point in every reachable state |
| Tui.RunKeepsLedgerInvariant | src/tui.rs:78-87 | whatever keys are pressed, the ledger stays well formed and balanced |
| Tui.AsWrittenUserInput | src/tui.rs:54-124 | as written, one event clears, keeps or pops the user prompt, or appends a character other than `u` and `t` |
| Tui.AsWrittenStepDropsUT | src/tui.rs:57-74 | as written, one event adds no `u` or `t` to the user prompt or to the user names |
| Tui.AsWrittenDropsUT | src/tui.rs:57-74 | as written, no user name typed at the prompt can contain `u` or `t` |
| Tui.AsWrittenLosesUT | src/tui.rs:64-74 | as written, pressing `u`, then typing `ut`, then Enter adds no user |
| Tui.CorrectedTypes | src/tui.rs:108-110 | corrected: every typed character is appended to the open user prompt |
| Tui.CorrectedAddsTypedName | src/tui.rs:64-87 | corrected: pressing `u`, typing a name without surrounding whitespace, then Enter adds exactly that name |
| EqualSplit.AddUser | src/main.rs:14-28 | a taken name changes nothing; a new one is appended with zero totals; names stay distinct |
| EqualSplit.Adjust | src/main.rs:30-56 | every user carrying the name has their paid amount changed by the amount; all else stays |
| EqualSplit.RecordPayment | src/main.rs:30-42 | the loop adds the amount to every matching user, and reports a match exactly when some user carries the name |
| EqualSplit.RemovePayment | src/main.rs:44-56 | the loop subtracts the amount, with no clamping, from every matching user, and reports whether any matched |
| EqualSplit.RemoveUndoesRecord | src/main.rs:30-56 | removing a recorded payment restores every user |
| EqualSplit.AdjustUnknown | src/main.rs:39-41 | a payment for an unknown name changes nothing |
| EqualSplit.Charge | src/main.rs:66-68 | each net balance becomes paid minus the share; names and payments are kept |
| EqualSplit.ChargeSum | src/main.rs:63-68 | charging everybody a share leaves net balances adding up to the total paid less that share per user |
| EqualSplit.CalculateTotalPayments | src/main.rs:58-74 | no users: no change; otherwise the net balances add up to zero, everybody is charged the same, and names and payments are kept |
| EqualSplit.MainScenario | src/main.rs:77-88 | the scripted run ends with balances 70/3, 10/3 and -80/3 |

## Left out

- Persistence (`save_to_file`, `load_from_file`): JSON file I/O with serde, outside the ledger logic.
- Console messages of every operation, and the `Debug` dumps of `main`: output only.
- Drawing the terminal UI (`draw`), terminal setup and restore, and reading events: rendering and I/O. `Tui.Run` takes the event sequence as a parameter.
- Formatting of the plan: the source returns strings such as `"B should pay A 30.00"`, rounded to two decimals. The model returns `Settlement.Transfer` records with the exact amount.
- `Transaction::new` and `Participant::new` are plain constructors. The datatype constructors take their place; a new participant has no fair share.
- Floating point: money is exact `real`. Rounding, NaN and infinities are not modelled. The sorts' `partial_cmp(...).unwrap()` cannot panic: a NaN balance is neither above the tolerance nor below minus the tolerance, so it never reaches the creditors or debtors being sorted.
- Ledger.CalculateFairShares: requires the weights to fit (`Ledger.WeightsFit`). The model does not cover a `u8` weight sum above 255, which panics in debug builds and wraps in release builds. Nor does it cover a zero total weight, which makes every share NaN.
- Ledger.RecordWeightedPayment: inherits that precondition for a transaction that passes the participant check.
- Tui.Commit: the amount prompt's Enter records nothing, because the source has only a placeholder there.
- Settlement.CalculateTotalPayments: reads missing shares as zero through `Ledger.ShareOrZero` where the source panics; see Findings.

## Findings

| source | as written | input that shows it | evidently intended | confidence | as-written member | corrected member |
|---|---|---|---|---|---|---|
| src/lib.rs:163-168 | each user's share is looked up in every transaction with `unwrap` | add users A and B, record a payment by A, add user C, then compute payments: C is not listed in the payment, so the lookup panics | a user not listed in a transaction owes no share of it | high, not executed | Invariants.LateUserPanics | Ledger.ShareOrZero |
| src/lib.rs:116-121 | participants are checked only for count and membership | users A and B, and a transaction listing A twice (weight 1 each) for 10 paid by A: accepted; as written, computing payments then panics on B, who is not listed; with the corrected lookup A's balance is 5 and B's is 0, so balances add up to 5, not 0 | every user listed exactly once | medium, not executed | Invariants.DuplicateParticipantsAccepted | Invariants.RecordWeightedPaymentExactPreserves |
| src/tui.rs:64-74 | the `u` and `t` arms come before the generic character arm in every mode | press `u`, then `u`, `t` and Enter: no user is added, and the amount prompt was opened and closed instead | in the user prompt, every character is typed into the name, as the `q` arm already does | medium, not executed | Tui.AsWrittenLosesUT | Tui.CorrectedAddsTypedName |
