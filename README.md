# Payment gateway command services, in Dafny

This project models the services of the payment gateway that change money or
accounts:

- the top-up, withdraw, transfer and transaction (purchase) command services, each with `create` and `update`;
- `AuthService`: `register_user`, `login_user` with its failed-attempt counter, and `refresh_token`;
- `UserCommandService`: `create`, `update`, `trashed`, `restore` and `delete_permanent`.

The store the balance services share is one object, `Ledger.Db`. It holds:

- the cards;
- the saldo rows (balance plus last-withdrawal metadata), keyed by card number;
- the merchants, keyed by API key;
- the card each user owns;
- one map of operation records keyed by id.

Records are typed by `Ledger.Operation`, so a table's `find_by_id` sees only its own rows. New ids come from a serial counter.

Users, roles and role assignments live in `Users.UserStore`. The login counters and the refresh-token rows live in `Auth.SessionStore`.

Each repository call takes a `fail` flag, which stands for the database
returning an error at that call. Each service method takes `fails`, the set
of its call sites that error. Every rollback and every uncompensated path is
therefore reachable.

Each service is specified as a pair:

- a function `XOutcome` mirrors the source branch by branch. It gives the store the call leaves behind and the value it returns.
- a `method` of the same name performs the calls on the store object, in the source's order. Its `ensures` ties the new state and the result to `XOutcome` of the old state.

The lemmas state what each service promises in terms of `XOutcome`:

- which checks come before any write;
- when the call succeeds (as an if-and-only-if) and what it then leaves;
- which failures are compensated, and which are left as they are.

Balances are unbounded integers. The two places where the source narrows a
balance or an amount with `as i32` use `Common.ToI32` (two's-complement wrap-around):

- the saldo write of withdraw;
- the amount stored by transaction `update`.

Email comparison in user `update` uses `Emails.Normalize`. This is `trim()`,
which strips Unicode White_Space, followed by a lower-casing of the ASCII
capitals.

## Model

Source paths are relative to the repository root.

| member | source | states |
|---|---|---|
| Common.ToI32 | backend/crates/shared/src/service/withdraw/command.rs:250-251 | `x as i32`: the result is in the 32-bit range, congruent to `x` modulo 2^32, and equal to `x` when `x` already fits |
| Balances.SetBalance | backend/crates/shared/src/service/topup/command.rs:235-257 | an `update_balance` changes only the written card's balance: keys, the other rows and this row's withdrawal metadata are kept |
| Balances.SetBalanceUndo | backend/crates/shared/src/service/transfer/command.rs:274-305 | writing back the balance read before a write restores the rows exactly (the basis of every rollback) |
| Balances.TotalSetBalance | backend/crates/shared/src/service/transfer/command.rs:253-305 | one balance write changes the money held by all cards by exactly the difference written |
| TopupService.Create | backend/crates/shared/src/service/topup/command.rs:166-306 | leaves the store and returns what `CreateOutcome` gives: card lookup, "pending" record, saldo read, credit, status marks, in this order |
| TopupService.CreateChecksCard | backend/crates/shared/src/service/topup/command.rs:194-206 | a missing card is reported before any record exists, and nothing changes |
| TopupService.CreateMarksFailed | backend/crates/shared/src/service/topup/command.rs:218-257 | a failed saldo read or balance write leaves every balance unchanged and the new record "failed" (or "pending" if that mark errors) |
| TopupService.CreateSucceeds | backend/crates/shared/src/service/topup/command.rs:194-306 | success iff every call went through; then the card holds exactly `amount` more, the money held by all cards grows by `amount`, no other row changes, and the record is "success" |
| TopupService.Update | backend/crates/shared/src/service/topup/command.rs:307-500 | leaves the store and returns what `UpdateOutcome` gives |
| TopupService.Apply | backend/crates/shared/src/service/topup/command.rs:390-475 | leaves the store and returns what `ApplyOutcome` gives |
| TopupService.UpdateChecksCard | backend/crates/shared/src/service/topup/command.rs:340-352 | a missing card marks the top-up "failed" and changes nothing else |
| TopupService.UpdateMovesByDifference | backend/crates/shared/src/service/topup/command.rs:390-437 | the only balance written is the request card's, moved by new amount minus recorded amount; a card change leaves the card first credited untouched |
| TopupService.UpdateSucceeds | backend/crates/shared/src/service/topup/command.rs:340-475 | success iff every call went through, with no lower bound on the new balance; the row then holds the request's fields with status "success" |
| TopupService.UpdateRevertsAmount | backend/crates/shared/src/service/topup/command.rs:407-437 | a failed balance write changes no balance, puts the recorded amount back and marks the row "failed" (each unless that call errors) |
| WithdrawService.Create | backend/crates/shared/src/service/withdraw/command.rs:169-355 | leaves the store and returns what `CreateOutcome` gives |
| WithdrawService.CreateChecksBeforeWriting | backend/crates/shared/src/service/withdraw/command.rs:194-244 | nothing is written unless the card and saldo exist and `amount <= balance`; a shortfall returns "insufficient balance" with no change |
| WithdrawService.CreateSucceeds | backend/crates/shared/src/service/withdraw/command.rs:235-328 | success iff all calls up to the "success" mark went through and the funds check passed; then, within 32 bits, the balance drops by `amount`, the row records this withdrawal, and the record is "success" |
| WithdrawService.CreateRestoresBalance | backend/crates/shared/src/service/withdraw/command.rs:274-302 | a failed record writes the balance read before back (keeping this withdrawal's amount and time on the row) and leaves no record |
| WithdrawService.CreateKeepsDebit | backend/crates/shared/src/service/withdraw/command.rs:304-328 | a failed "success" mark does not reverse the debit; the record is marked "failed" (or stays "pending") |
| WithdrawService.Update | backend/crates/shared/src/service/withdraw/command.rs:356-580 | leaves the store and returns what `UpdateOutcome` gives |
| WithdrawService.UpdateDebitsFullAmount | backend/crates/shared/src/service/withdraw/command.rs:434-565 | a balance below the whole new amount is refused with nothing changed; success iff every call went through and the funds check passed; then, within 32 bits, the whole new amount is debited (the replaced withdrawal's amount is never credited back) and the row holds the request's fields with "success" |
| WithdrawService.Debit | backend/crates/shared/src/service/withdraw/command.rs:467-565 | leaves the store and returns what `DebitOutcome` gives: the debit, the record update and the "success" mark, each failure compensated as the source does |
| WithdrawService.UpdateCompensates | backend/crates/shared/src/service/withdraw/command.rs:467-535 | a failed saldo write marks the row "failed" with no balance change; a failed record update writes the old balance back and marks it "failed" |
| TransferService.Moved | backend/crates/shared/src/service/transfer/command.rs:253-305 | the two legs of `create`: sender −amount, receiver +amount, both computed from the balances read before either write; other rows kept |
| TransferService.Rebalanced | backend/crates/shared/src/service/transfer/command.rs:488-589 | the two legs of `update`: sender −difference, then receiver +difference on the row read after the sender's write; other rows kept |
| TransferService.BothUndone | backend/crates/shared/src/service/transfer/command.rs:323-343 | writing back the two balances read before undoes the two legs, whether on two cards or twice on one |
| TransferService.MovedConservesTotal | backend/crates/shared/src/service/transfer/command.rs:253-305 | between two distinct cards the two legs move money and create none |
| TransferService.SelfTransferAddsAmount | backend/crates/shared/src/service/transfer/command.rs:191-305 | from a card to itself, both balances are read before either write, so the card ends `amount` richer |
| TransferService.RebalancedConservesTotal | backend/crates/shared/src/service/transfer/command.rs:488-589 | an update's two legs keep the money held by all cards, self-transfers included |
| TransferService.Create | backend/crates/shared/src/service/transfer/command.rs:166-392 | leaves the store and returns what `CreateOutcome` gives |
| TransferService.WriteLegs | backend/crates/shared/src/service/transfer/command.rs:253-362 | leaves the store and returns what `LegsOutcome` gives |
| TransferService.RecordTransfer | backend/crates/shared/src/service/transfer/command.rs:307-362 | leaves the store and returns what `RecordOutcome` gives |
| TransferService.CreateChecksBeforeWriting | backend/crates/shared/src/service/transfer/command.rs:191-251 | a balance is written only after both cards and saldo rows are found and the sender holds `amount` |
| TransferService.CreateSucceeds | backend/crates/shared/src/service/transfer/command.rs:191-362 | success iff every call went through and the funds check passed; then sender −amount, receiver +amount, total unchanged, record "success" |
| TransferService.CreateRestoresSender | backend/crates/shared/src/service/transfer/command.rs:274-305 | a failed credit writes the sender's balance back, leaving the store unchanged when that write goes through |
| TransferService.CreateCompensates | backend/crates/shared/src/service/transfer/command.rs:307-343 | a failed record writes both balances back, a self-transfer included, leaving the store unchanged when those writes go through |
| TransferService.CreateLeavesUncompensated | backend/crates/shared/src/service/transfer/command.rs:290-362 | a failed sender restore leaves the sender debited; a failed "success" mark leaves both legs written and the record "pending" |
| TransferService.Update | backend/crates/shared/src/service/transfer/command.rs:394-671 | leaves the store and returns what `UpdateOutcome` gives |
| TransferService.UpdateCredit | backend/crates/shared/src/service/transfer/command.rs:514-589 | leaves the store and returns what `CreditOutcome` gives |
| TransferService.UpdateFinish | backend/crates/shared/src/service/transfer/command.rs:591-645 | leaves the store and returns what `FinishOutcome` gives |
| TransferService.UpdateChecksBeforeWriting | backend/crates/shared/src/service/transfer/command.rs:423-486 | no balance is written unless the transfer and its sender's row exist and the sender's new balance is not negative; a negative one marks the transfer "failed" |
| TransferService.UpdateSucceeds | backend/crates/shared/src/service/transfer/command.rs:450-645 | success iff every call went through; the recorded sender gives and the receiver gets exactly the difference, total unchanged, the record takes the request's fields and "success" |
| TransferService.UpdateRestoresSender | backend/crates/shared/src/service/transfer/command.rs:514-544 | a receiver lookup failing after the sender's write puts the sender back |
| TransferService.UpdateRestoresBothNoWrite | backend/crates/shared/src/service/transfer/command.rs:546-589 | between distinct cards, a failed receiver write puts both balances back |
| TransferService.UpdateRestoresBothNoUpdate | backend/crates/shared/src/service/transfer/command.rs:591-625 | between distinct cards, a failed record update puts both balances back |
| TransferService.UpdateSelfTransferLosesDifferenceNoWrite | backend/crates/shared/src/service/transfer/command.rs:546-589 | on a transfer from a card to itself, a failed receiver write followed by both restores leaves the card the difference below where it started |
| TransferService.UpdateSelfTransferLosesDifferenceNoUpdate | backend/crates/shared/src/service/transfer/command.rs:591-625 | on a transfer from a card to itself, a failed record update followed by both restores leaves the card the difference below where it started |
| TransferService.UpdateMarksFailed | backend/crates/shared/src/service/transfer/command.rs:514-625 | every failure between the sender's write and the record update (receiver lookup, receiver write, record update) marks the transfer "failed" |
| TransferService.UpdateLeavesOnMarkFailure | backend/crates/shared/src/service/transfer/command.rs:627-645 | a failed "success" mark is not compensated: both legs stay written, the record keeps the request's cards and amount, and its status is left as it was |
| TransactionService.Create | backend/crates/shared/src/service/transaction/command.rs:173-437 | leaves the store and returns what `CreateOutcome` gives |
| TransactionService.Settle | backend/crates/shared/src/service/transaction/command.rs:333-406 | leaves the store and returns what `SettleOutcome` gives |
| TransactionService.CreateChecksBeforeWriting | backend/crates/shared/src/service/transaction/command.rs:203-282 | nothing is written unless the merchant, card and saldo exist and `amount <= balance`; a shortfall returns "insufficient balance" |
| TransactionService.CreateSucceeds | backend/crates/shared/src/service/transaction/command.rs:203-406 | success iff every lookup and write went through (including the merchant's card and saldo) and the funds check passed |
| TransactionService.CreatePaysMerchant | backend/crates/shared/src/service/transaction/command.rs:284-406 | on success the record is "success" with the merchant's id; for distinct cards the customer loses and the merchant gains exactly `amount`, total unchanged |
| TransactionService.CreateAcceptsWholeBalance | backend/crates/shared/src/service/transaction/command.rs:272-282 | only a balance below the amount is refused: spending the whole balance succeeds and leaves the card at zero |
| TransactionService.CreateRestoresOnRecordFailure | backend/crates/shared/src/service/transaction/command.rs:305-331 | a failed record writes the balance back, leaving the store unchanged when that write goes through |
| TransactionService.CreateLeavesDebit | backend/crates/shared/src/service/transaction/command.rs:333-406 | failures from the "success" mark on keep the customer debited and the record, and the merchant is not credited |
| TransactionService.Update | backend/crates/shared/src/service/transaction/command.rs:438-709 | leaves the store and returns what `UpdateOutcome` gives; the record takes the request's amount and payment method |
| TransactionService.Charge | backend/crates/shared/src/service/transaction/command.rs:585-685 | leaves the store and returns what `ChargeOutcome` gives: the funds check, the debit, the record update with the request's payment method, the "success" mark |
| TransactionService.UpdateChecksOwner | backend/crates/shared/src/service/transaction/command.rs:489-520 | an API key of another merchant is refused with no balance change, and the transaction is marked "failed" |
| TransactionService.UpdateKeepsRestoredBalance | backend/crates/shared/src/service/transaction/command.rs:556-603 | the old amount is credited back first; if that balance is below the new amount, the credit stays and the record is "failed" |
| TransactionService.UpdateSucceeds | backend/crates/shared/src/service/transaction/command.rs:539-685 | success iff the merchant owns it, every call went through and balance + old amount >= new amount; the card ends at balance + old − new, the record holds `amount as i32` and the request's payment method with "success", and the merchant's balance is not touched |
| TransactionService.UpdateLeavesUncompensated | backend/crates/shared/src/service/transaction/command.rs:605-685 | a failed debit leaves the old amount credited back and the record untouched; a failed record update leaves the new amount charged while the record holds the old one; a failed "success" mark leaves the charge and the new record with its old status |
| Emails.Trim | backend/crates/shared/src/service/user/command.rs:360-361 | `trim()` leaves no White_Space at either end |
| Emails.Lower | backend/crates/shared/src/service/user/command.rs:360-361 | the ASCII-only model of `to_lowercase`: each ASCII capital is lowered in place and every other character is kept, so the length is kept |
| Emails.TrimSplits | backend/crates/shared/src/service/user/command.rs:360-361 | `trim()` keeps a slice of its input and removes only White_Space |
| Emails.NormalizeIdempotent | backend/crates/shared/src/service/user/command.rs:360-363 | normalising an already normalised email changes nothing |
| Emails.NormalizeIgnoresPadding | backend/crates/shared/src/service/user/command.rs:360-363 | White_Space around an email does not change its normalised form |
| Emails.NormalizeIgnoresCase | backend/crates/shared/src/service/user/command.rs:360-363 | emails that differ only in ASCII case normalise alike |
| Users.OwnerFrom | backend/crates/shared/src/service/user/command.rs:193 | the email lookup returns the lowest id holding exactly that email, or none when no id in range holds it |
| Users.OwnerFindsTaken | backend/crates/shared/src/service/user/command.rs:193-219 | the email lookup finds a user exactly when some user holds that email |
| Users.OwnerAfterAdd | backend/crates/shared/src/service/user/command.rs:261-274 | creating a user under a fresh id keeps every earlier lookup result and makes a free email find the new user |
| Users.Enrol | backend/crates/shared/src/service/user/command.rs:193-294 | leaves the store and returns what `EnrolOutcome` gives: email check, hash, ROLE_ADMIN lookup, create, role assignment |
| Users.EnrolRejectsTakenEmail | backend/crates/shared/src/service/user/command.rs:210-219 | an email already held is refused and no user is created |
| Users.EnrolNeedsDefaultRole | backend/crates/shared/src/service/user/command.rs:234-251 | without ROLE_ADMIN nothing is written, because the role is looked up before the user is created |
| Users.EnrolSucceeds | backend/crates/shared/src/service/user/command.rs:193-294 | success iff the email is free, ROLE_ADMIN exists and no call errors; the new user has the hashed password and ROLE_ADMIN, and their email now finds them |
| Users.EnrolKeepsUserWithoutRole | backend/crates/shared/src/service/user/command.rs:276-294 | a failed role assignment is not undone; the user stays, without a role |
| Users.Create | backend/crates/shared/src/service/user/command.rs:168-318 | leaves the store and returns what `CreateOutcome` gives |
| Users.Edited | backend/crates/shared/src/service/user/command.rs:390-403 | the updated row takes the request's names and, when given, its email as typed; password and trash state are kept |
| Users.Update | backend/crates/shared/src/service/user/command.rs:320-421 | leaves the store and returns what `UpdateOutcome` gives |
| Users.UpdateSkipsLookupForSameEmail | backend/crates/shared/src/service/user/command.rs:359-364 | an email equal to the stored one after normalising is not looked up: a failing lookup makes no difference |
| Users.UpdateAcceptsOwnEmailRespelled | backend/crates/shared/src/service/user/command.rs:359-403 | re-entering one's own email in lower case with spaces around succeeds |
| Users.UpdateRejectsTakenEmail | backend/crates/shared/src/service/user/command.rs:366-373 | a differing normalised email held exactly by another user is refused, with nothing written |
| Users.UpdateNeverConflictsWithSelf | backend/crates/shared/src/service/user/command.rs:359-388 | the lookup never rejects the user being updated because of their own row |
| Users.UpdateCanDuplicateEmail | backend/crates/shared/src/service/user/command.rs:359-403 | the lookup uses the normalised form but the row stores the raw one, so an email another user holds in non-normalised form is let through |
| Users.Trash | backend/crates/shared/src/service/user/command.rs:423-489 | leaves the store and returns what `TrashOutcome` gives |
| Users.Restore | backend/crates/shared/src/service/user/command.rs:491-557 | leaves the store and returns what `TrashOutcome` gives |
| Users.DeletePermanent | backend/crates/shared/src/service/user/command.rs:559-618 | leaves the store and returns what `DeleteOutcome` gives |
| Users.TrashOrRestore | backend/crates/shared/src/service/user/command.rs:442-466 | leaves the store and returns what `TrashOutcome` gives |
| Users.RowOperationsNeedUser | backend/crates/shared/src/service/user/command.rs:442-451 | trash, restore and delete succeed iff the user exists and no call errors; a missing user means no change; only that user's row is touched |
| Users.RestoreUndoesTrash | backend/crates/shared/src/service/user/command.rs:453-534 | restoring a trashed user gives back the row as it was |
| Auth.Register | backend/crates/shared/src/service/auth/mod.rs:199-344 | leaves the store and returns what `RegisterOutcome` gives: a cache hit returns at once, otherwise the user is enrolled |
| Auth.RegisterRejectsTakenEmail | backend/crates/shared/src/service/auth/mod.rs:243-257 | an email already held fails with "Email already registered" and creates no user |
| Auth.RegisterAssignsDefaultRole | backend/crates/shared/src/service/auth/mod.rs:276-327 | without ROLE_ADMIN no user is created; a successful registration grants exactly ROLE_ADMIN to a fresh id |
| Auth.Login | backend/crates/shared/src/service/auth/mod.rs:345-470 | leaves the counters and returns what `LoginOutcome` gives |
| Auth.LoginRateLimited | backend/crates/shared/src/service/auth/mod.rs:365-379 | with 5 or more counted failures, login is refused before the lookup, and the counter is unchanged |
| Auth.LoginCountsFailures | backend/crates/shared/src/service/auth/mod.rs:381-421 | "user not found" iff the email is free (below the limit); unknown email and wrong password add exactly one to that email's counter; a repository error adds none |
| Auth.LoginRejectsWrongPassword | backend/crates/shared/src/service/auth/mod.rs:381-421 | when the password of the user the lookup finds does not match, the login returns invalid credentials and counts one failure |
| Auth.LoginSucceeds | backend/crates/shared/src/service/auth/mod.rs:365-469 | success iff below the limit, the user is found, the password matches and both tokens are made; the counter is cleared as soon as the password matches, and no other counter changes |
| Auth.FiveFailuresLockOut | backend/crates/shared/src/service/auth/mod.rs:365-395 | five logins with an email no user holds, from a fresh counter, lock that email out: the sixth is refused whatever the password |
| Auth.WrongPasswordsLockOut | backend/crates/shared/src/service/auth/mod.rs:365-421 | five wrong passwords for an existing user, from a fresh counter, lock the email out: the sixth login is refused even with the matching password |
| Auth.FailRepeatedlyCounts | backend/crates/shared/src/service/auth/mod.rs:381-421 | `n` logins that each fail at the lookup or the password check leave the email's counter, from fresh, at exactly `n` |
| Auth.Refresh | backend/crates/shared/src/service/auth/mod.rs:526-634 | leaves the token rows and returns what `RefreshOutcome` gives |
| Auth.Without | backend/crates/shared/src/service/auth/mod.rs:559-568 | deleting by token removes exactly the rows holding it and keeps every other row |
| Auth.RefreshDeletesExpired | backend/crates/shared/src/service/auth/mod.rs:536-550 | an expired token is refused and, once its delete goes through, no row holds it |
| Auth.RefreshRotates | backend/crates/shared/src/service/auth/mod.rs:559-633 | the old token is deleted before the new pair is made; success iff no call errors; the user's row then holds the new token with expiry now + 24h, and the other rows are kept |
| Auth.RefreshRejectsInvalid | backend/crates/shared/src/service/auth/mod.rs:551-556 | a token that does not verify changes nothing |

## Left out

- Tracing, metrics and cache invalidation are observability or cache side effects and are not modelled. This covers `delete_from_cache` lists, the response cache of registration and refresh, and `set_to_cache` of the refresh token.
- Request validation (`req.validate()`) is modelled as the input `valid`, because the validation rules are in request types that are not part of this model.
- Cache time-to-live is not modelled: the login counter never expires on its own. A counter the cache cannot return is the `ReadCounter` failure, which reads as 0, like `unwrap_or(0)`.
- Password hashing, password comparison, JWT creation and JWT verification are other components. They appear as inputs: the `hashed` string, the `matches` function, the `access`/`refresh` strings and the `Verdict` value. `now` is the clock reading of `refresh_token`.
- Repository implementations are not part of this model. `Ledger.Db`, `Users.UserStore` and `Auth.SessionStore` give each repository call its effect on the rows, plus a `fail` flag. Lookups see every row (trashed or not). `find_by_email` returns the lowest id holding exactly the email. Records are created "pending". The refresh-token `update` is an upsert of the user's row.
- `UpdateUserRequest` and `CreateUserRequest` are not part of this model: user `update` changes names and (when given) the email, and leaves the password alone.
- Concurrency, transactions and isolation between services are left out: each call runs alone.
- `transaction_time`, timestamps and `deleted_at` values are not modelled; trashing is the flag `trashed`.
- The services' `trashed`, `restore`, `delete_permanent`, `restore_all` and `delete_all` for top-ups, withdrawals, transfers and transactions are outside the modelled core.
- `get_me` in the auth service is a read-only lookup and is not modelled.
- Emails.Lower, Emails.Normalize: `to_lowercase` is modelled for the ASCII capitals only. Other Unicode case mappings are not, including those that lengthen a string (U+0130 lowers to two characters).
- Auth.RefreshRotates: its success clause relies on `StoreToken` being an upsert by user id. The source deletes the row holding the old token and then calls the refresh-token `update` for the user; the repository is not part of this model, and if that `update` only changed existing rows, refresh would error or leave the user without a token.
- Common.ToI32 is applied only where the source narrows a balance or an amount with `as i32`. Everywhere else balances are unbounded integers, and the 32-bit columns of the database are not modelled.
- The `as i32` casts of user ids in the auth service are not modelled. This covers the token creations at auth/mod.rs:427, 441, 570 and 584, and the stored refresh row at auth/mod.rs:601. The token creations are inputs of the model. In `refresh_token`, the user id comes out of a refresh token that was itself made from an `as i32` id, so the cast leaves it unchanged. `Auth.Refresh` therefore keys the row by the verified id as it is.
