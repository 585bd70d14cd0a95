# Bank service core in Dafny

A model of the core of a small C++ bank service (Crow HTTP routes over PostgreSQL).
It has four parts.

- **Ledger routes** (`src/main.cpp`). Accounts, savings jars and the transfer log are
  tables in a `Store` value (module `Tables`). Each route that changes the tables is a
  ghost function from the store before a request to the response and the store after
  it (module `Handlers`); login and admintools are functions from the store to their
  response. The class `Routes.Bank` runs each route step by step. It reads rows, checks
  in the order the C++ does and returns early on the first failed check. Every method
  that writes (register, transfer, jar create, jar operation, jar delete, user patch)
  makes its updates on local copies of the tables it touches, the unit of work, and
  commits by assigning those copies to the fields after its last check. An early
  return leaves the fields as they were. Each of those methods' `ensures` equates its
  response (and its new state) with the function. The two listing routes, GET `/transactions` and GET `/jars`, have no
  such function: their methods state their result directly in terms of the history
  query (`Handlers.HistoryRows`) and the owned jars (`Handlers.OwnedJarIds`). Module
  `LedgerProps` proves what the routes promise: money is conserved,
  only the named rows change, a rejected request changes nothing, which error wins when
  several apply, and what the transfer history contains.
- **Bearer check** (`get_current_user_id`, module `Auth`). The header must start with
  `Bearer `; the rest goes to a token verifier, which is a parameter.
- **Connection pool** (`src/db_pool.h`, module `Pool`). `ConnectionPool` is a class
  holding a queue of connections. Ghost sets record which connections were kept at
  construction and which are out on a lease. `Lease` models `DatabaseConnection`: its
  constructor takes the front connection and `Release` (the destructor) returns it.
  Every method keeps the invariant that each kept connection is queued exactly once or
  leased, never both.
- **Rate cache** (`src/course.h`, module `RateCache`). The class `RateService` holds
  the cached USD-to-EUR rate and the tick of its last refresh. `GetUsdToEuro` is tied
  to the function `GetRate`. The lemmas prove the freshness rule (600 whole seconds),
  that failures are not cached, and the fallback to the old rate or 0.

Conventions. `callerId` is the value `get_current_user_id` returned, with -1 meaning
rejected. A store exception is a 500 response that changes nothing. The model has two
kinds: `result[0]` on a missing row, and a `BIGINT` overflow in an `UPDATE`. Balances
and amounts are 64-bit (`Base.Int64`). Ids are unbounded integers. The GET `/jars`
route fills every entry from the first row of the result (`result[0]`) instead of the
current row. `Routes.Bank.ListJars` models that as written: the list has one entry per
jar of the caller, all of them equal to one of those jars.

## Model

| member | source | states |
|---|---|---|
| Auth.FindFrom | src/main.cpp:13 | `std::string::find`: the first position at or after `i` where the pattern occurs, and no earlier one; -1 (npos) only when it occurs nowhere from `i` on |
| Auth.FindZeroIffPrefix | src/main.cpp:13 | `find("Bearer ") == 0` holds exactly when the header starts with the prefix |
| Auth.CurrentUserId | src/main.cpp:10-28 | a header without the `Bearer ` prefix (including an empty one) gives -1; otherwise the result is the verifier's id for the text after the 7-character prefix, or -1 when the verifier throws |
| Auth.BearerRoundTrip | src/main.cpp:17-23 | for `"Bearer " + token`, exactly `token` is handed to the verifier |
| Auth.AcceptedHeaderHasBearerToken | src/main.cpp:13-23 | an accepted header is `"Bearer " + token` for a token the verifier mapped to the returned id |
| Auth.RejectedHeaders | src/main.cpp:13-15 | an empty header, `Basic …`, a lower-case `bearer …` and a bare `Bearer` are all rejected |
| Tables.IdByName | src/main.cpp:128-135 | `SELECT id FROM bank WHERE username = $1`: a found id is a row with that name; none found means no row has it |
| Tables.IdByNameUnique | src/main.cpp:128-135 | with unique usernames, the lookup by a row's name finds that row |
| Handlers.Register | src/main.cpp:35-63 | 409 exactly when the username is taken, and then nothing changes; otherwise 201, one new row under the next id holding that name, the suffixed password and the schema's column defaults for every other column, the id counter advanced by one, and no other row, jar or transfer changes; well-formedness is kept |
| Handlers.Login | src/main.cpp:65-103 | an id is issued exactly on 200, and it is the row with that name and stored hash; every failure gives the same 401 "Wrong username or password" |
| Handlers.Transfer | src/main.cpp:106-172 | an unauthenticated caller (-1) gets 401 and nothing changes; any response other than 200 leaves the store unchanged; 200 means the receiver exists, `amount` moved from caller to receiver, one log row was appended, nothing else changed (jars and both id counters included), and the sender is not negative; well-formedness is kept |
| Handlers.HistoryIndices | src/main.cpp:239 | every selected position is in the log and names a transfer the user took part in whose two accounts both exist (the two joins) |
| Handlers.HistoryRows | src/main.cpp:239 | at most 50 rows (`LIMIT 50`), exactly min(50, selected) of them, row k being the k-th selected transfer with both usernames |
| Handlers.OwnedJarIds | src/main.cpp:286 | `WHERE user_id = $1` on jars: exactly the jars owned by the user |
| Handlers.CreateJar | src/main.cpp:308-348 | anything but 201 leaves the store unchanged; 201 means the caller exists and is not banned, and one jar was added under the next id with balance 0, the given fields and the default image when none is given; accounts and transfers are untouched. Conversely an existing caller gets 201 exactly when not banned, and a banned one gets 400 "You are blocked! You cannot create a jar"; -1 gets 401, a missing caller row 500 |
| Handlers.MoveIntoJar | src/main.cpp:394-406 | the two UPDATEs of a jar operation: either both apply and move `delta` between the account and the jar, or an overflow aborts both |
| Handlers.JarTransaction | src/main.cpp:350-417 | anything but 200 leaves the store unchanged; 200 means the kind was `withdraw` or `deposit`, the caller exists, is not banned and owns the jar, and the amount moved jar-to-account or account-to-jar with nothing else changed. 200 happens exactly when every check passes: authenticated existing unbanned owner, and either `withdraw` with the jar holding at least the amount or `deposit` with the account holding at least the amount, both updated balances fitting in 64 bits. An unauthenticated caller gets 401 and a missing caller row 500, with nothing changed |
| Handlers.DeleteJar | src/main.cpp:419-445 | anything but 200 leaves the store unchanged; 200 means the caller owned the jar, the jar is gone, the owner's account (if it exists) gained the jar's balance, and no other row, transfer or id counter changed. -1 gets 401; a jar the caller does not own gets 400 "Jar not found"; for an owned jar, 200 happens exactly when the owner's row is missing or the credited balance fits in 64 bits |
| Handlers.AdminTools | src/main.cpp:447-468 | 200 exactly when the caller is authenticated, exists and has access rights `admin`; -1 gets 401, a missing caller row 500, and an existing non-admin 403 |
| Handlers.BanState | src/main.cpp:497-507 | banning sets the flag and the ban reason (default "no reason"); unbanning clears the flag, sets the ban reason to "user is not banned" and the unban reason (default "no reason"); name and balance stay |
| Handlers.PatchUser | src/main.cpp:470-515 | a failure, or no `is_banned` field, leaves the store unchanged; 200 needs an existing admin caller and an existing target; with `is_banned`, every row with that username gets the new ban state, every other row is untouched, and jars, transfers and both id counters stay. For an existing admin caller, the response is 200 "Done" exactly when the target exists and 404 "User with this username not found" otherwise; -1 gets 401, a missing caller row 500, a non-admin 400 |
| Routes.Bank.constructor | src/models.h:4-26 | an empty, well-formed ledger with the given column defaults |
| Routes.Bank.SelectIdByName | src/main.cpp:128 | returns the lookup `Tables.IdByName` specifies |
| Routes.Bank.Register | src/main.cpp:35-63 | response and new tables equal `Handlers.Register`; well-formedness kept |
| Routes.Bank.Login | src/main.cpp:65-103 | response and issued id equal `Handlers.Login`; nothing changes |
| Routes.Bank.Transfer | src/main.cpp:106-172 | response and new tables equal `Handlers.Transfer`; well-formedness kept |
| Routes.Bank.TransactionHistory | src/main.cpp:229-274 | 401 with no entries when unauthenticated; otherwise one entry per history row, in order: `outgoing`, minus the amount and the receiver's name when the user sent it, else `incoming`, the amount and the sender's name |
| Routes.Bank.SelectOwnedJars | src/main.cpp:286 | every jar the caller owns and only those, as many entries as the caller has jars, in no fixed order |
| Routes.Bank.ListJars | src/main.cpp:276-306 | 401 with no entries when unauthenticated; otherwise as many entries as the caller has jars, all equal to the view of one of them (the `result[0]` indexing) |
| Routes.Bank.CreateJar | src/main.cpp:308-348 | response and new tables equal `Handlers.CreateJar`; well-formedness kept |
| Routes.Bank.JarTransaction | src/main.cpp:350-417 | response and new tables equal `Handlers.JarTransaction`; well-formedness kept |
| Routes.Bank.WithdrawOrDeposit | src/main.cpp:381-412 | the `type` dispatch for an unbanned owner: response and new tables equal `Handlers.JarTransaction`; well-formedness kept |
| Routes.Bank.UpdateJarAndAccount | src/main.cpp:394-412 | the two UPDATEs on copies and the commit: response and new tables equal `Handlers.MoveIntoJar`; well-formedness kept |
| Routes.Bank.DeleteJar | src/main.cpp:419-445 | response and new tables equal `Handlers.DeleteJar`; well-formedness kept |
| Routes.Bank.AdminTools | src/main.cpp:447-468 | response equals `Handlers.AdminTools`; nothing changes |
| Routes.Bank.PatchUser | src/main.cpp:470-515 | response and new tables equal `Handlers.PatchUser`; well-formedness kept |
| LedgerProps.TransferredConservesMoney | src/main.cpp:162-164 | the debit and credit of a transfer leave the total of balances and jar balances unchanged |
| LedgerProps.JarMovedConservesMoney | src/main.cpp:394-406 | a move between an account and a jar keeps the total, and keeps that account's plus that jar's balance |
| LedgerProps.TransferConservesMoney | src/main.cpp:106-172 | every transfer request, accepted or not, keeps the total money |
| LedgerProps.JarTransactionConservesMoney | src/main.cpp:350-417 | every jar operation keeps the total money |
| LedgerProps.DeleteJarConservesMoney | src/main.cpp:419-445 | deleting a jar keeps the total money: the residue goes back to the owner |
| LedgerProps.CreateJarConservesMoney | src/main.cpp:308-348 | creating a jar keeps the total money (a new jar starts at 0) |
| LedgerProps.PatchUserConservesMoney | src/main.cpp:470-515 | banning or unbanning never changes any balance total |
| LedgerProps.RegisterAddsDefaultBalance | src/main.cpp:35-63 | a registration adds exactly the column default balance to the total, and a refused one adds nothing |
| LedgerProps.TransferKeepsNonNegative | src/main.cpp:154-163 | if no balance is negative before a transfer, none is after |
| LedgerProps.JarTransactionKeepsNonNegative | src/main.cpp:381-406 | for a non-negative amount, a jar operation keeps every account and jar balance non-negative |
| LedgerProps.NegativeWithdrawOverdraws | src/main.cpp:362-395 | the amount's sign is never checked: withdrawing -5 from an empty jar is accepted and leaves the account at -5 |
| LedgerProps.DeleteJarKeepsNonNegative | src/main.cpp:419-445 | deleting a jar keeps every balance non-negative |
| LedgerProps.CreateJarKeepsNonNegative | src/main.cpp:308-348 | creating a jar keeps every balance non-negative |
| LedgerProps.TransferAmountCheckedBeforeLookup | src/main.cpp:121-122 | a non-positive amount gets the same response whatever the store and receiver |
| LedgerProps.TransferReceiverMissing | src/main.cpp:128-132 | for an authenticated caller and a positive amount, 404 "Receiver not found" exactly when no row has the receiver's name |
| LedgerProps.TransferToSelf | src/main.cpp:134-139 | 400 "Cannot transfer money to yourself" exactly when the receiver's name is the caller's own row |
| LedgerProps.TransferToBannedReceiver | src/main.cpp:135-143 | 400 "Receiver is banned! …" exactly when the name is another row's and that row is banned |
| LedgerProps.TransferNeedsAcceptedReceiver | src/main.cpp:128-143 | a request whose receiver fails a check gets 404 "Receiver not found", 400 "Cannot transfer money to yourself" or 400 "Receiver is banned! ...", with no change: no sender check runs |
| LedgerProps.TransferSenderOutcomes | src/main.cpp:145-166 | with the receiver accepted, each response happens exactly when its check is the first to fail, in the route's order: sender missing (401), funds, sender banned; 200 exactly when all pass and the credit fits in 64 bits |
| LedgerProps.FundsCheckedBeforeSenderBan | src/main.cpp:154-159 | a banned sender without enough money is told "Insufficient funds", and nothing changes |
| LedgerProps.OverdraftRefused | src/main.cpp:154-155 | sending 150 from a balance of 100 is refused and the balance stays 100 |
| LedgerProps.PasswordHashInjective | src/main.cpp:48 | the stored hash determines the password |
| LedgerProps.LoginSucceedsIff | src/main.cpp:78-97 | login succeeds exactly when a row has that username and the suffixed password as its hash |
| LedgerProps.RegisterThenLogin | src/main.cpp:35-103 | after a registration, logging in with the same credentials succeeds with the new id |
| LedgerProps.RegisterTwice | src/main.cpp:53-58 | registering a name twice gives 409, changes nothing, and exactly one row carries the name |
| LedgerProps.PatchUserChangesOnlyTarget | src/main.cpp:497-509 | with unique usernames, a ban or unban changes the target row only, to its new ban state |
| LedgerProps.NonAdminPatchRefused | src/main.cpp:485-490 | a non-admin caller gets 400 from PATCH (nothing changes), and 403 from the same check in admintools (lines 457-461) |
| LedgerProps.JarBanBeforeNotFound | src/main.cpp:369-378 | a banned caller gets the ban 400 whatever the jar (the jar is looked up first, at line 371, but the ban is checked before its result), and nothing changes |
| LedgerProps.JarWrongMethod | src/main.cpp:381-410 | a kind other than `withdraw`/`deposit` on an owned jar gives 400 "Wrong method" and changes nothing |
| LedgerProps.JarTransactionOutcomes | src/main.cpp:369-410 | for an authenticated existing caller, each response happens exactly when its check is the first to fail, in the route's order: banned, jar not found (404), "Insufficient fund in the jar" for a withdraw over the jar balance, "Insufficient funds on your balance" for a deposit over the account balance, "Wrong method", and a 500 when an updated balance leaves 64 bits |
| LedgerProps.WithdrawWholeJar | src/main.cpp:390-395 | withdrawing exactly the jar's balance is accepted, empties the jar and credits the account with all of it |
| LedgerProps.DeleteJarIgnoresBan | src/main.cpp:419-440 | jar deletion does not look at the ban flag: a banned owner deletes the same as an unbanned one |
| LedgerProps.HistoryIndicesDescending | src/main.cpp:239 | `ORDER BY t.id DESC`: the selected positions strictly decrease |
| LedgerProps.HistoryIndicesComplete | src/main.cpp:239 | every transfer the query's filter and joins admit is selected |
| LedgerProps.HistoryKeepsNewest | src/main.cpp:239 | a transfer of the user is listed, or fifty newer ones fill the list |
| LedgerProps.HistoryIsEveryTransferOfUser | src/main.cpp:239 | in a well-formed store the joins drop nothing: selected means the user sent or received it |
| LedgerProps.TransferHeadsSenderHistory | src/main.cpp:162-166 | after a transfer, the sender's history starts with it: the amount, both names and the sender's id |
| Pool.Opened | src/db_pool.h:32-45 | the connections kept by the constructor loop: at most `pool_size` of them, each one an attempt that opened |
| Pool.OpenedInAttemptOrder | src/db_pool.h:32-37 | the kept connections are in attempt order, so none is queued twice |
| Pool.OpenedKeepsEverySuccess | src/db_pool.h:34-37 | every attempt that opened is queued |
| Pool.OpenedCount | src/db_pool.h:32-45 | the queue length is the number of attempts that opened |
| Pool.DistinctCard | src/db_pool.h:14 | a queue without repeats has as many distinct connections as entries |
| Pool.ConnectionPool.constructor | src/db_pool.h:20-46 | the queue holds the connections that opened, in attempt order; none are leased; the pool invariant holds |
| Pool.ConnectionPool.GetConnection | src/db_pool.h:48-57 | pops the front connection, which was not leased, and records it as leased; the invariant is kept |
| Pool.ConnectionPool.ReturnConnection | src/db_pool.h:59-64 | pushes the connection at the back and clears its lease; the invariant is kept |
| Pool.Lease.constructor | src/db_pool.h:73-75 | the lease holds the pool's former front connection, now leased |
| Pool.Lease.Release | src/db_pool.h:81-83 | the destructor puts the same connection back at the end of the queue |
| Pool.ServeOneRequest | src/db_pool.h:67-84 | one lease's scope moves the front connection to the back and loses or duplicates none |
| Pool.ServeNestedRequests | src/db_pool.h:67-84 | two live leases hold different connections; the inner one is queued first when the scopes end |
| Pool.ExhaustTwo | src/db_pool.h:48-57 | with a pool of two and both leased, the queue is empty (a third caller would wait) |
| RateCache.ElapsedSeconds | src/course.h:26 | `duration_cast<seconds>`: whole seconds of the tick difference, truncated toward zero |
| RateCache.HitIff | src/course.h:28-30 | the rate source is skipped exactly when the rate is positive and fewer than 600 s of ticks have passed |
| RateCache.HitIgnoresSource | src/course.h:28-30 | a hit returns the cached rate and changes nothing, whatever the source would have said |
| RateCache.RefreshOverwrites | src/course.h:34-40 | a refresh with status 200 and `rates.EUR` stores that rate and the current time, and returns it |
| RateCache.FailureFallsBack | src/course.h:42-43 | a failed refresh keeps the cache and returns the old rate if positive, else 0 |
| RateCache.WindowScenarios | src/course.h:26-30 | a positive rate is reused at 599 s and at one tick under 600 s, and refetched at 600 s and 601 s |
| RateCache.FreshAfterRefresh | src/course.h:28-40 | after a refresh to a positive rate, every call within the next 600 s returns it without asking the source |
| RateCache.Run | src/course.h:23-44 | successive calls give one result each |
| RateCache.FailuresNotCached | src/course.h:28-43 | with no positive rate stored, every call in a run of failed fetches asks the source again and returns 0 |
| RateCache.RateService.constructor | src/course.h:11-15 | the initial cache: rate 0.0 and the clock's epoch |
| RateCache.RateService.GetUsdToEuro | src/course.h:23-44 | the returned rate and the new fields equal `RateCache.GetRate` of the old fields, the clock reading and the source's reply |

## Left out

- HTTP and JSON glue: routing, parsing the request body, and the 400 responses for invalid JSON or missing fields. Handlers take already-parsed inputs.
- The token itself: JWT decoding, the HS256 check and `stoi` of the claim are the `verify` parameter of `Auth.CurrentUserId`. Issuing a token at login is modelled as returning the id it would carry.
- SQL and libpqxx: tables are maps and a sequence. Constraints outside the source (unique `username`, column defaults) are stated as `Tables.WellFormed` and constructor inputs.
- Exception text: a 500 or 409 response keeps only its fixed prefix, not `e.what()`.
- The 500 path of registration: in the model, inserting a row can only fail on the unique constraint, so the misspelled "Execption: " response is never produced.
- Sequence gaps: a failed INSERT does not use up an id in the model.
- 32-bit ids: ids, including the `int` jar id and user id, are unbounded integers.
- Dates and times in the history (`TO_CHAR` of the transfer time) are left out, as is the JSON layout of the token and history responses.
- The `/users/me` and `/main` routes are outside the modelled core: they only read and format a balance or a user count.
- The jar-transaction route's second jar lookup in `withdraw` repeats the first in the same unit of work, and is folded into it.
- Concurrency: the pool's mutex and condition variable, Crow's worker threads and the rate cache's lock are left out. A caller that would block in `get_connection` is excluded by the precondition of `Pool.ConnectionPool.GetConnection`.
- Pool.ConnectionPool.ReturnConnection: requires a leased connection; the C++ accepts any pointer, but only `DatabaseConnection` calls it, with the one it took.
- Reading and parsing `config.json` and building the connection string: the constructor takes one "opened" flag per attempt instead. A failed attempt's log line is not modelled.
- The failed-fetch log line ("Error fetching rates" on standard error) is not modelled.
- The rate source's HTTP request and JSON response are the `Reply` input; the clock is the `now` input, in ticks of one nanosecond.
- Floating point: rates are `real`, without NaN or rounding.
- The `Service::getInstance` singleton: `RateService` is an ordinary object.
