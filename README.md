# filesfybackend — a Dafny model of the recovery, subscription, payment and auth core

filesfybackend is an Express/PostgreSQL backend for a file-recovery demo. A client
signs up or logs in and gets a JWT. It scans a device for recoverable files and
recovers a selection. What it may recover depends on the plan named in its token:
`free` and `pro` have quotas, and any other plan has none and the route fails. A
subscription ledger records each user's plan. Payments for the PRO plan settle either
in a simulated mode or through Stripe's webhook, and a settled payment upgrades the
subscription.

This project models that core in Dafny and proves what each handler and query promises:

- **Tables.** Each PostgreSQL table the models touch (`usuarios`, `assinaturas`,
  `pagamentos`, `sessao`, the older `pagamento`) is a class. It holds a sequence of rows
  and the next value of its `SERIAL` id. Each SQL statement is one method that reassigns
  the rows, and each finder is a function over the rows. `CURRENT_TIMESTAMP` is an
  explicit `now` parameter.
- **Store.** `Store.Db` groups the three tables the handlers share. It also keeps the
  invariant that every subscription names a user id the `usuarios` sequence has already
  handed out.
- **Recovery routes.** `/scan` is the greedy admission loop, written as a method with
  invariants. It is proved equal to a recursive specification and to an independent
  per-entry reading. `/recover` is the all-or-nothing validation, and
  `extractUserPlanFromToken` reads the plan from a bearer header.
- **Handlers.** Each handler of `controllers/AuthController.js`,
  `controllers/PaymentController.js` and `routes/subscriptions.js` is a method on
  `Store.Db`, or a function over the rows when it only reads. Each returns
  `Http.Response`, which is a body or an HTTP status with an error tag.
- **External services.** `jsonwebtoken` is a `Codec` of two function values, `sign` and
  `verify`. The members that rely on it name their assumption:
  - `RoundTrips`: a token verifies under its own secret to its own payload.
  - `KeyBound`: a token does not verify under another secret.
  - `Compact`: a token is a non-empty word without spaces.
- **Parameters.** bcrypt's hash and compare, Google's ticket, Stripe's client secret and
  the process environment are parameters of the members that use them.

Modules, one file each:
- `Base`: options and JavaScript truthiness.
- `Text`: ASCII lower-casing, `startsWith`/`includes`, `split(' ')[1]`, and decimal
  rendering and parsing.
- `Tables`: `WHERE`, `rows[0]`, a stable `ORDER BY … DESC`, and serial ids.
- `Jwt`, `Http`, `Store`.
- `Users`, `Subscriptions`, `Payments`, `Sessions`, `Transactions`: one module per model
  file.
- `Recovery`, `AuthController`, `PaymentController`, `SubscriptionRoutes`: one module per
  handler file.

## Model

| member | source | states |
|---|---|---|
| Base.OrElse | controllers/AuthController.js:38 | `s \|\| fallback` on a string: the string when it is present and non-empty, the fallback otherwise |
| Text.Lower | routes/recovery.js:78 | `toLowerCase` keeps the length, leaves no upper-case ASCII letter, and changes nothing in a string that has none |
| Text.LowerIdempotent | routes/recovery.js:78 | lower-casing twice is lower-casing once |
| Text.Contains | controllers/PaymentController.js:20 | `includes` holds iff the substring occurs at some position |
| Text.SecondField | routes/subscriptions.js:70 | `split(' ')[1]` exists iff the text has a space, and it contains no space |
| Text.BearerFieldAgrees | controllers/AuthController.js:166 | for a space-free token, `split(' ')[1]` and the `startsWith('Bearer ')` reading of `Bearer <token>` both give the token |
| Text.Show | controllers/PaymentController.js:35 | a rendered id is a non-empty string of decimal digits |
| Text.ParseId | routes/subscriptions.js:133 | text reads as an id iff it is a non-empty string of decimal digits |
| Text.ParseShow | routes/subscriptions.js:133 | a rendered id reads back as itself |
| Text.ShowInjective | controllers/PaymentController.js:35 | different ids render differently |
| Tables.Filter | models/Session.js:52-58 | `WHERE p` keeps exactly the rows satisfying `p`, in table order, and no more rows than there were |
| Tables.FilterAppend | models/Session.js:5-13 | filtering a table with a new row appended judges the new row on its own |
| Tables.FilterFilter | models/Transaction.js:81-94 | filtering a filtered table by `q` is filtering by the conjunction |
| Tables.FilterAll | models/Session.js:80-86 | a `WHERE` that every row meets keeps the table |
| Tables.FilterSplit | models/Session.js:80-86 | every row satisfies exactly one of a condition and its negation, so the two filters add up to the table |
| Tables.FindFirst | models/User.js:14-18 | `rows[0]` of a `WHERE` query is absent iff no row matches; otherwise it is a matching row and no earlier row matches |
| Tables.FindFirstIsFilterHead | models/User.js:14-18 | the first match is the head of the filtered rows |
| Tables.FindFirstFiltered | models/Subscription.js:14-23 | narrowing the table to rows any match must satisfy does not change the first match |
| Tables.ConsDescending | models/Payment.js:20-24 | a row whose key is no smaller than every key of a sorted list can head it |
| Tables.Insert | models/Payment.js:20-24 | inserting into a descending list keeps it descending, adds exactly the one row, and grows it by one |
| Tables.SortDesc | models/Payment.js:20-24 | `ORDER BY key DESC` returns the same rows as a multiset, with keys never increasing |
| Tables.SortedHeadIsMax | models/Subscription.js:18-19 | the head of a descending list has the greatest key |
| Tables.FilterInsertFront | models/Transaction.js:81-94 | filtering after inserting at the front equals inserting after filtering |
| Tables.FilterInsert | models/Transaction.js:81-94 | filtering after an insertion equals inserting after the filtering, and a filtered sorted list stays sorted |
| Tables.FilterKeepsDescending | models/Transaction.js:81-94 | a filtered descending list is descending |
| Tables.FilterSortDesc | models/Transaction.js:81-94 | an ordered query over a narrower `WHERE` is the ordered query filtered |
| Tables.SerialAppend | models/Subscription.js:4-12 | a row taking the next `SERIAL` value keeps the ids serial |
| Tables.SerialUnique | models/User.js:26-30 | in a serial table an id names at most one row |
| Tables.SerialFilter | models/Session.js:52-58 | deleting rows keeps the remaining ids serial |
| Jwt.Secret | routes/recovery.js:77 | `JWT_SECRET \|\| fallback`: the configured secret when it is set and non-empty, the file's fallback otherwise |
| Jwt.BearerToken | routes/recovery.js:70-76 | a token exists iff the header is present and starts with `Bearer `, and the header is `Bearer ` followed by it |
| Jwt.BearerWord | controllers/AuthController.js:166 | `authorization?.split(' ')[1]` exists only when the header has a space, and it contains none |
| Jwt.BearerHeaderRoundTrip | routes/subscriptions.js:85-89 | the header sent for a token reads back as that token |
| Jwt.DefaultSecretsDisagree | routes/recovery.js:77 | with `JWT_SECRET` unset, a token signed under `seu_secret` does not verify under `sua-chave-secreta-aqui` |
| Jwt.ConfiguredSecretShared | controllers/AuthController.js:39 | with `JWT_SECRET` set, a token the controllers sign verifies in the routes to its own payload |
| Recovery.PlanLimits | routes/recovery.js:14-17 | only `free` and `pro` have limits, and each limit on size is non-negative |
| Recovery.ExtractUserPlan | routes/recovery.js:69-82 | `free` without a `Bearer ` header; otherwise the lower-cased `plan` claim of a token that verifies, `free` when the claim is missing or verification fails; never upper-case |
| Recovery.ExtractSignedPlan | routes/recovery.js:69-82 | a token signed with the routes' secret reads back as its plan claim, lower-cased |
| Recovery.PlanlessTokenIsFree | routes/recovery.js:78 | a token without `plan`, as the Google and test logins issue, gets the free plan and its limits |
| Recovery.AllowedTypes | routes/recovery.js:104-105 | a known type filter selects its own types, and an unknown one the `todos` set |
| Recovery.OfTypes | routes/recovery.js:109 | a file is kept iff it is listed and its type is allowed |
| Recovery.UnfilteredScanSeesAll | routes/recovery.js:55-66 | with no filter or an unknown filter, every built-in file is a candidate |
| Recovery.Judge | routes/recovery.js:116-131 | admitted iff count < `maxFiles` and size sum plus the file ≤ `maxSizeMB`; no reason iff admitted; the file-limit reason iff the count is exhausted |
| Recovery.AdmitFrom | routes/recovery.js:112-132 | one entry per file |
| Recovery.AdmittedCountIsFilter | routes/recovery.js:144 | `filesRecoverable` counts the entries with `canRecover` |
| Recovery.ScanFiles | routes/recovery.js:112-132 | the loop yields the greedy pass, with the running count and size equal to what it admitted, and never more than `maxFiles` files or `maxSizeMB` in total |
| Recovery.AdmitFromAt | routes/recovery.js:116-131 | entry `i` is admitted iff fewer than `maxFiles` earlier entries were admitted and their sizes plus this one fit `maxSizeMB`, so rejected files use up nothing |
| Recovery.AdmitAt | routes/recovery.js:116-131 | the same, for a whole scan from zero |
| Recovery.AdmitFromBounded | routes/recovery.js:112-132 | the admitted files never exceed the plan's count or size limit, whatever the list |
| Recovery.SizesOf | routes/recovery.js:196 | the submitted sizes are the files' sizes, one per file |
| Recovery.TotalSizeNonNegative | routes/recovery.js:196 | the `reduce` total of non-negative sizes is non-negative |
| Recovery.AdmitsAllFrom | routes/recovery.js:189-202 | a scan admits every file iff the files fit both limits |
| Recovery.RecoverAgreesWithScan | routes/recovery.js:189-202 | `/recover` accepts a list iff `/scan` admits every file of it |
| Recovery.FreeScanOfAllFiles | routes/recovery.js:55-66 | under the free plan the 512 MB video is blocked for size, the file limit blocks every file after the sixth, and exactly five of the ten built-in files are recoverable |
| Recovery.LaterSmallerFileAdmitted | routes/recovery.js:116-131 | with sizes 4.2, 512 and 2.1 under the free plan, the second file is refused for size and the third is still admitted |
| Recovery.ScanRoute | routes/recovery.js:95-156 | 400 without a device id; 500 when the plan has no limits; otherwise the device id echoed back and entries equal to the greedy pass over the candidates, with count, size and plan |
| Recovery.RecoverRoute | routes/recovery.js:174-218 | 400 for no files, then 400 for no destination, then 500 without limits, then 400 over the file count, then 400 over the size; otherwise the whole selection, with count and total |
| Recovery.EnterpriseRecoverFails | routes/recovery.js:14-17 | a signed ENTERPRISE plan makes a well-formed `/recover` fail with 500 |
| Users.FindByEmail | models/User.js:14-18 | absent iff no user has the e-mail; otherwise a stored user with that e-mail |
| Users.FindByGoogleId | models/User.js:20-24 | absent iff no user has that Google id; users without one are never found |
| Users.FindById | models/User.js:26-30 | absent iff no user has the id; otherwise a stored user with that id |
| Users.CreatedIsFound | models/User.js:4-12 | in a serial table, a newly created user is what its id finds |
| Users.IdFindsRow | models/User.js:26-30 | in a serial table every user is what its own id finds |
| Users.UniqueAppend | controllers/AuthController.js:19-28 | adding a user whose e-mail is new keeps e-mails unique |
| Users.EmailFindsRow | models/User.js:14-18 | with unique e-mails every user is what their own e-mail finds |
| Users.Assignments | models/User.js:38 | one assignment per field |
| Users.Params | models/User.js:46 | the parameters are the values followed by the id |
| Users.SetClauseFirst | models/User.js:38 | a single field gives the clause `col = $1` |
| Users.SetClauseShape | models/User.js:38 | each further field appends `, col = $k`, numbered one past the fields before it |
| Users.PlaceholdersBind | models/User.js:38-46 | placeholder `$(i+1)` binds value `i`, and `$(n+1)` binds the id |
| Users.PlaceholdersDistinct | models/User.js:38 | different numbers give different placeholders |
| Users.PlaceholderReadsBack | models/User.js:38 | `$k` is a dollar sign followed by the number `k` |
| Users.Set | models/User.js:39-44 | an assignment sets its column, and leaves every other column, the id and the update time alone |
| Users.SetAll | models/User.js:39-44 | the assignments keep the id and the update time |
| Users.SetAllOther | models/User.js:39-44 | a column the update does not name keeps its value |
| Users.SetAllNamed | models/User.js:39-44 | with distinct keys, a named column takes its value |
| Users.ApplyUpdate | models/User.js:39-47 | the `UPDATE` keeps row count and ids, and changes no row with another id |
| Users.UserTable.constructor | models/User.js:3 | an empty table whose sequence starts at 1 |
| Users.UserTable.Create | models/User.js:4-12 | appends exactly the new user, with the next id, no avatar or password unless given, created now, and returns it |
| Users.UserTable.Update | models/User.js:32-48 | an empty update returns nothing and changes nothing; otherwise it issues the numbered statement and parameters and applies them to the row with the id |
| Users.UserTable.Apply | models/User.js:39-47 | running the statement sets the named columns and the update time on the row with the id, keeps the ids serial, and returns that row, or nothing iff no row had the id |
| Users.UpdatedIdsKept | models/User.js:39-47 | an update finds a row iff one had the id before |
| Subscriptions.ActiveSorted | models/Subscription.js:17-18 | exactly the user's active rows, each as often as in the table (the same multiset as the `WHERE`), latest start first |
| Subscriptions.FindActive | models/Subscription.js:14-23 | absent iff the user has no active row; otherwise an active row of theirs with the latest start, never a cancelled one |
| Subscriptions.Renew | models/Subscription.js:25-34 | the user's active rows get the plan and a new start; every other row is unchanged; the row count is kept |
| Subscriptions.CancelRow | models/Subscription.js:36-45 | the row with the id becomes cancelled, and every other row is unchanged |
| Subscriptions.RenewIdempotent | models/Subscription.js:25-34 | repeating a plan change with the same plan and time changes nothing more |
| Subscriptions.RenewKeepsOwners | models/Subscription.js:25-34 | a plan change keeps every row's user |
| Subscriptions.FirstActiveIsFound | models/Subscription.js:14-23 | the first active row of a user is their subscription |
| Subscriptions.RenewThenFind | models/Subscription.js:25-34 | after a plan change, the user's subscription, if any, carries the plan and the new start |
| Subscriptions.RenewOtherUser | models/Subscription.js:25-34 | a plan change of one user leaves every other user's subscription as it was |
| Subscriptions.LatestCreatedIsFound | models/Subscription.js:4-23 | an active row started after every existing row is the user's subscription |
| Subscriptions.CreateAddsActiveRow | models/Subscription.js:4-12 | `create` does not look for an active row, so each call adds one more active row for the user |
| Subscriptions.CancelIdempotent | models/Subscription.js:36-45 | cancelling twice is cancelling once |
| Subscriptions.CancelHides | models/Subscription.js:36-45 | after a cancellation the cancelled row is nobody's subscription |
| Subscriptions.SubscriptionTable.constructor | models/Subscription.js:3 | an empty table whose sequence starts at 1 |
| Subscriptions.SubscriptionTable.Create | models/Subscription.js:4-12 | appends exactly one active row for the user, with the plan (`FREE` by default), started now, and returns it |
| Subscriptions.SubscriptionTable.UpdatePlan | models/Subscription.js:25-34 | the rows become `Renew` of the old rows; the result is absent iff the user had no active row, and otherwise is a renewed active row of theirs |
| Subscriptions.SubscriptionTable.Cancel | models/Subscription.js:36-45 | the rows become `CancelRow` of the old rows; the result is absent iff no row had the id, and otherwise is that row, cancelled |
| Subscriptions.RenewedActive | models/Subscription.js:25-34 | a user has an active row after a plan change iff they had one before, and every such row carries the plan and the new start |
| Subscriptions.CancelledIds | models/Subscription.js:36-45 | a row has the id after a cancellation iff one had it before, and it is cancelled |
| Subscriptions.SameIdsSerial | models/Subscription.js:25-45 | updates that keep ids keep them serial |
| Payments.FindById | models/Payment.js:14-18 | absent iff no payment has the id; otherwise a stored payment with the id |
| Payments.FindByUserId | models/Payment.js:20-24 | exactly the user's payments, as a multiset, newest first |
| Payments.FindByStripeId | models/Payment.js:26-30 | a missing Stripe id matches nothing; otherwise absent iff no payment has the id |
| Payments.SetStatus | models/Payment.js:32-41 | the row with the id gets the status and nothing else changes |
| Payments.SetStatusIdempotent | models/Payment.js:32-41 | setting a status twice is setting it once |
| Payments.SetStatusThenFind | models/Payment.js:32-41 | an existing payment reads back with any status written, `pendente` after `pago` included; an absent one stays absent |
| Payments.SameIds | models/Payment.js:32-41 | an update finds a row iff one had the id before |
| Payments.CreatedIsFound | models/Payment.js:4-12 | in a serial table, a new payment is what its id finds |
| Payments.SetStatusAppended | controllers/PaymentController.js:17-23 | updating the payment just created touches that row only |
| Payments.PaymentTable.constructor | models/Payment.js:3 | an empty table whose sequence starts at 1 |
| Payments.PaymentTable.Create | models/Payment.js:4-12 | appends exactly the payment, with the next id and the given status and Stripe id, and returns it |
| Payments.PaymentTable.UpdateStatus | models/Payment.js:32-41 | the rows become `SetStatus` of the old rows; the result is the updated row, absent iff no payment had the id |
| Payments.SameIdsSerial | models/Payment.js:32-41 | updates that keep ids keep them serial |
| Sessions.FindByToken | models/Session.js:21-34 | absent iff no session has the token and an expiry strictly after now; otherwise such a session |
| Sessions.FindByUserId | models/Session.js:35-50 | exactly the user's sessions expiring strictly after now, each as often as in the table (the same multiset as the `WHERE`), newest first |
| Sessions.CleanupKeepsFindByToken | models/Session.js:21-34 | cleanup never changes what `findByToken` returns at the same instant |
| Sessions.ExpiringNowIsKeptButNotFound | models/Session.js:25-26 | a session expiring exactly now survives cleanup, yet `findByToken` does not return it |
| Sessions.CleanupCount | models/Session.js:80-92 | the kept and the deleted sessions add up to the table |
| Sessions.SessionTable.constructor | models/Session.js:3 | an empty table whose sequence starts at 1 |
| Sessions.SessionTable.Create | models/Session.js:5-19 | appends exactly the session, with the next id, created now |
| Sessions.SessionTable.InvalidateByToken | models/Session.js:52-64 | deletes exactly the sessions with the token, keeps the rest in order, returns true |
| Sessions.SessionTable.InvalidateByUserId | models/Session.js:66-78 | deletes exactly the user's sessions, keeps the rest in order, returns true |
| Sessions.SessionTable.CleanupExpired | models/Session.js:80-92 | deletes exactly the sessions expiring strictly before now and returns how many it deleted |
| Transactions.FindById | models/Transaction.js:21-30 | absent iff no row has the id; otherwise a row with the id |
| Transactions.FindByStripeIntentId | models/Transaction.js:49-61 | a missing intent id matches nothing; otherwise absent iff no row has it |
| Transactions.FindByUserId | models/Transaction.js:33-46 | exactly the user's rows, as a multiset, newest first |
| Transactions.FindPaidByUserId | models/Transaction.js:81-94 | exactly the user's `pago` rows, as a multiset, newest first |
| Transactions.PaidIsFilteredHistory | models/Transaction.js:81-94 | the paid history is the full history with unpaid rows dropped, in the same order |
| Transactions.SetStatus | models/Transaction.js:64-78 | the row with the id gets the status and the update time; nothing else changes |
| Transactions.SetStatusThenFind | models/Transaction.js:64-78 | an updated row reads back with the status and time written; an absent id stays absent |
| Transactions.TransactionTable.constructor | models/Transaction.js:3 | an empty table whose sequence starts at 1 |
| Transactions.TransactionTable.Create | models/Transaction.js:5-18 | appends the row with the next id and status `pendente`, whatever the caller passes, created and stamped now, and returns it |
| Transactions.TransactionTable.UpdateStatus | models/Transaction.js:64-78 | the rows become `SetStatus` of the old rows; the result is absent iff no row had the id |
| Store.Db.constructor | config/database.js:5-11 | three fresh, empty tables that satisfy the store invariant |
| AuthController.Enroll | controllers/AuthController.js:28-31 | appends exactly the new user and a FREE active subscription for them, which is then their subscription, advances both id sequences by one, and keeps e-mails unique when the e-mail is new |
| AuthController.Register | controllers/AuthController.js:10-59 | 400 with no change for a missing field, then for a taken e-mail; otherwise exactly one user (no Google id, hashed password) and one FREE subscription, and a token whose plan is FREE, with both id sequences advanced by one; e-mails stay unique |
| AuthController.Login | controllers/AuthController.js:61-107 | 400 for a missing field; otherwise Ok iff the first user `findByEmail` returns exists and their hash (or the empty one) accepts the password, and the same 401 in both other cases; on success the reply shows that user, their subscription and a token with its plan, or FREE |
| AuthController.RegisteredUserLogsIn | controllers/AuthController.js:61-107 | with unique e-mails, a user's own e-mail and a password their hash accepts log them in, with their subscription's plan in the token |
| AuthController.PasswordlessUserCannotLogIn | controllers/AuthController.js:76-79 | a user created by a Google or test login cannot log in with any password |
| AuthController.LoginWithGoogle | controllers/AuthController.js:109-136 | 400 without a token, 400 without a client id, 401 when Google refuses; otherwise the user with the Google id, created with a FREE subscription (advancing both id sequences) only when missing, and a token without a plan |
| AuthController.TestLogin | controllers/AuthController.js:138-162 | 400 without e-mail or name; otherwise the user with the e-mail, created with a FREE subscription (advancing both id sequences) only when missing, and a token without a plan |
| AuthController.Verify | controllers/AuthController.js:164-182 | 401 `MissingToken` without a bearer word, 401 `InvalidToken` when it does not verify under `JWT_SECRET || 'seu_secret'`, 401 `UserNotFound` when no stored user has the payload's `userId`; Ok iff that user exists, and then the reply shows exactly that user and their subscription |
| AuthController.IssuedTokenVerifies | controllers/AuthController.js:164-182 | every token this controller issues for a stored user verifies to that user and their subscription |
| AuthController.LoginTokenVerifies | controllers/AuthController.js:82-87 | the token of a successful login verifies to the same user and subscription |
| PaymentController.Amount | controllers/PaymentController.js:13 | 1599 cents iff the plan is exactly `PRO`, else 0 |
| PaymentController.PlaceholderKeyModesDisagree | controllers/PaymentController.js:20 | a `USE_YOUR` key settles payments in simulated mode, but the webhook still acts on events |
| PaymentController.Approve | controllers/PaymentController.js:22-24 | the payment becomes `pago` and the user's active rows PRO, no id sequence moves, and the store invariant is kept |
| PaymentController.CreatePaymentIntent | controllers/PaymentController.js:7-62 | 400 with no change without user or plan, or for any plan but PRO; simulated mode appends one `pago` payment, renews the user to PRO and returns `sim_<id>` and a PRO token; gateway mode appends one `pendente` payment and leaves subscriptions alone; the payment sequence advances by one exactly when a payment is stored |
| PaymentController.Settle | controllers/PaymentController.js:72-81 | no row is added or removed; an event other than a succeeded intent, one without metadata, and one whose metadata names no payment or an unknown payment change nothing |
| PaymentController.SettleIdempotent | controllers/PaymentController.js:72-81 | a second delivery of the same event changes nothing |
| PaymentController.SettleUpgrades | controllers/PaymentController.js:72-81 | a succeeded event naming a stored payment sets only that payment to `pago` (the payments become `SetStatus` of the old ones), moves the user's subscription, if any, to PRO, and leaves every other user's as it was |
| PaymentController.Webhook | controllers/PaymentController.js:64-88 | with no key or `sk_test_xxx` it acknowledges with a warning and changes nothing; a succeeded intent without `data.object.metadata` gets 500 and changes nothing; otherwise it acknowledges and the tables become `Settle` of the old ones; no id sequence moves |
| PaymentController.ProTokenUnlocksProLimits | controllers/PaymentController.js:26-30 | with `JWT_SECRET` set, the PRO token of a simulated payment gives the PRO limits in the recovery routes |
| PaymentController.UnsetSecretKeepsPayerFree | controllers/PaymentController.js:26-30 | with `JWT_SECRET` unset, the recovery routes read that PRO token as the free plan |
| SubscriptionRoutes.PlanType | routes/subscriptions.js:104-105 | `pro` iff PRO, `enterprise` iff ENTERPRISE, FREE for any other id |
| SubscriptionRoutes.PlanTypeLowersBack | routes/subscriptions.js:104-105 | lower-casing the plan of a known plan id gives the id back |
| SubscriptionRoutes.AsUserId | routes/subscriptions.js:133 | text is a user id exactly when it is decimal digits whose value fits a PostgreSQL `integer` |
| SubscriptionRoutes.ShownIdReadsBack | routes/subscriptions.js:133 | every id in range, rendered, reads back as itself |
| SubscriptionRoutes.Current | routes/subscriptions.js:68-78 | 401 without a bearer word; 500 when it is not an id; otherwise the user's subscription, or the FREE default |
| SubscriptionRoutes.ByUserId | routes/subscriptions.js:131-138 | 500 when the path is not an id; otherwise the user's subscription, or the FREE default |
| SubscriptionRoutes.CurrentAgreesWithByUserId | routes/subscriptions.js:68-138 | `Bearer <id>` on `/current` shows what `/<id>` shows, namely the user's subscription |
| SubscriptionRoutes.Subscribe | routes/subscriptions.js:80-128 | 401 without a Bearer header, then for a token that does not verify, then for a missing user id; 400 without a plan id; otherwise renews the user to the mapped plan, 500 when they had no active row, else a new token with the same user and the plan; the subscription sequence does not move |
| SubscriptionRoutes.SubscribeTokenSetsRecoveryPlan | routes/subscriptions.js:110-114 | the token `/subscribe` issues for a known plan id is read by the recovery routes as that id |
| SubscriptionRoutes.LoginTokenRefusedWithoutSecret | routes/subscriptions.js:92-96 | with `JWT_SECRET` unset, `/subscribe` refuses every token the auth controller issues |
| SubscriptionRoutes.SubscribeThenRead | routes/subscriptions.js:107-138 | after subscribing, both reading routes show the new plan to a user who had an active row |
| SubscriptionRoutes.Upgrade | routes/subscriptions.js:140-147 | 500 with no change when the path is not an id; otherwise the user's active rows become PRO, started now, and the reply is the first of them or nothing iff none was active; the subscription sequence does not move |

## Left out

- Cryptography and external services are parameters, not models.
  - `jsonwebtoken` is an abstract `Codec`, so token expiry (`7d`) is not modelled. The
    round-trip, secret-binding and space-free-token properties are stated as
    assumptions of the members that need them.
  - bcrypt's `hash` and `compare` are parameters.
  - Google's `verifyIdToken` becomes an optional profile.
  - Stripe's `paymentIntents.create` becomes an optional client secret, and an absent
    one is the 500 of its `catch`.
- `Math.random` (`generateRandomSize`, `generateDevices`, `/devices`) and the `Date.now()`
  ids of scans and recoveries are not modelled. The random part of the test Google id
  is a parameter.
- `/scan/:scanId` is not modelled: it only builds a static reply.
- `/plans` is static content and is not modelled.
- Reply messages are reduced to error tags and status codes.
- `logout` is not modelled: it replies success and changes nothing.
- `controllers/SubscriptionController.js` is not part of this model. It calls model
  methods (`upgradeToPro`, `downgradeToFree`, `Plan.findAll`) that the model files do
  not define.
- Connection setup, `init.js` and `migrate.js` are not modelled. The DDL is not
  available, so the model assumes:
  - no unique or foreign-key constraints;
  - timestamp columns an `INSERT` omits default to the current time;
  - ids are `SERIAL`.
- Database errors and the generic `catch` blocks that turn them into 500 are not
  modelled. A query never fails except where the model names a 500: a non-numeric id, a
  plan without limits, an absent Stripe secret, no active row on `/subscribe`, a succeeded
  webhook event without metadata.
- Floating point is not modelled.
  - Sizes are exact reals, so JavaScript rounding of the size sum is not captured.
  - The `toFixed(2)` formatting is not captured.
- PostgreSQL's integer cast accepts only decimal digits up to 2147483647 here. Signs,
  surrounding spaces and leading `+` are not modelled.
- `Tables.SortDesc`: rows with equal keys keep table order. PostgreSQL does not fix the
  order of ties, so this is one of the orders it may return.
- Lookups such as `PLAN_LIMITS[plan]`, `FILE_TYPES[selected]` and `planMap[planId]`
  treat only the listed keys as present. JavaScript would also find inherited keys such
  as `constructor`, and that is not modelled.
- Lower-casing covers the ASCII letters only.
- Users.UserTable.Update: the update keys are the five user columns (`Users.Column`).
  The source writes each key into the statement unescaped, so a key such as `id` (which
  renumbers the row) or a key holding SQL text would be accepted by PostgreSQL; such keys
  are not modelled. Values are strings, and `null` values are not modelled.
- Users.UserTable.Update: the statement text is compared with whitespace normalised.
- Concurrency between requests is not modelled: each SQL statement is one atomic step.
- AuthController.LoginWithGoogle: Google login does not check that the e-mail is new, so
  it may create a second user with the same e-mail. Its contract therefore does not
  promise to keep e-mails unique, unlike `Register` and `TestLogin`.
- Some behaviour of the code differs from what a reader might expect; the model follows the code:
  - `testLogin` has no test-mode gate.
  - A taken e-mail at registration gives 400, not a conflict status.
  - Every simulated payment appends a new payment row, so `createPaymentIntent` is not
    idempotent.
  - The webhook does not check Stripe's signature or record the Stripe id. It takes the
    payment and the user from the event's metadata.
