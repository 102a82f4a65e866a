# Durable outbox delivery: a verified model

Kaftar accepts messages into a PostgreSQL outbox and delivers them at least once. A row moves
through Pending, Sending, Failed, Sent and Dead. Workers claim it under a 60 s lease with a fencing
token, relays reserve its dispatch for 10 s, and broker notifications are only hints. This project
models that protocol and proves what it keeps in every run.

Check it with `dafny verify dfyconfig.toml` (Dafny 4.11).

## How the model is built

- **One row** (`Outbox`, `Retry`, `RowMachine`). `RowMachine.Step` says what each repository operation
  writes to a row, and a `History` is the sequence of its changes. `RowLaws` proves laws of all
  histories: accounting, budget, lease windows, pacing, spacing, due times.
- **The table** (`Repository`). `OutboxTable` is a class whose methods `Create`, `ReserveDispatch`,
  `Claim` and `Finish` change the table in place and are proved against table functions. `Drain`
  proves what repeated `ReserveDispatch` calls do.
- **The whole system** (`Protocol`). One table, any number of workers and relays, and an adversary
  that plays the broker, the scheduler, the providers and every clock. A worker may be handed any
  envelope at any time, so notifications may be lost, duplicated, reordered or even forged. It may
  crash between any two steps. Every step carries the clock reading its process took, and readings of
  different processes need not agree. Each step holds at most one transaction; rows locked by other
  transactions are an arbitrary set that `SKIP LOCKED` passes over. A transaction that commits but
  whose reply is lost is that step followed by a crash.
- **Refinement** (`Refinement`, `Invariants`). Every protocol step acts on each row as at most one
  `RowMachine` operation, so the laws of histories hold of every row of every run. The hard case is
  `Finish`, which writes back a whole private copy without reading the row.
- **Runs** (`Theorems`, `Timing`, `InFlight`, `Progress`). The theorems speak of `Run(lib, s0, steps)`
  for any starting table a migration may leave and any list of steps. Those that mention time name the
  clock condition they need, which is often weaker than synchronised clocks. A reading counts from the
  moment its transaction commits, so a transaction that commits late lags behind like a slow clock;
  `Theorems.ClocksAgree` bounds that lag by a parameter. `InFlight` adds the 30 s attempt timeout, and
  `Tolerance` shows by runs that the bounds on skew and delay are exact.
- **Shutdown** (`Lifecycle`, `Shutdown`). The goroutines of one instance move together with the
  protocol: its consumers are workers of the protocol, and every stage says where its worker stands.
- **Feeding parts** (`Messages`, `Submission`, `Migration`) and the procedures of the service as they
  are written (`Service`), each proved to take exactly a step of the protocol.

Lease tokens and row ids are fresh numbers, SHA-256 is read as an injective digest that carries its
argument, and Go's URL parser, header rules and upper case outside ASCII are arbitrary functions
(`Messages.Library`).

## Findings

- **Lease windows and pacing need no common clock.** Windows never overlap, and attempts keep their
  gaps, as long as no worker's own clock runs backwards between its claim and its completion. The
  retry time, not the clocks, keeps attempts apart.
- **Reservation spacing tolerates exactly 50 s of skew.** All runs whose clocks agree within d keep the
  10 s spacing if and only if d <= 50 s, lease less reservation (`Tolerance.SpacingTolerance`).
- **Provider calls of one row stay apart exactly while delay and skew stay below 30 s.** The lease
  leaves 30 s beyond the attempt timeout; a worker that calls late, or clocks that disagree, use it up
  (`Tolerance.CallTolerance`). Past that the outcome is still written once, but the provider may see
  two calls side by side.
- **Negative legacy retry counts.** `migrate.go` takes any stored count. A row that had counted below -2
  makes its worker panic when an attempt fails (`Migration.NegativeCounts`); any other row never blocks
  its worker (`Theorems.NeverBlocked`).
- **Notifications that meet a locked row are rejected as unknown.** `Claim` cannot tell a locked row
  from a missing one, where `docs/queue-contract.md` speaks only of unknown and wrong-queue ids. The
  model follows the code; `Theorems.NothingStranded` shows that the row still falls due.

## Model

| member | source | states |
|---|---|---|
| Messages.SMSDraft.Validate | server/internal/entity/sms_message.go:17-27 | Validation replaces the recipient list in place by its normal form, and succeeds exactly when some recipient and the text are nonempty |
| Messages.RecipientsNormal | server/internal/entity/sms_message.go:17-19 | Normalised recipients have no empty entry and no equal neighbours, are exactly the nonempty inputs in their order, and no list that is so is longer; normalising again changes nothing |
| Messages.TrimSpaceKeeps | server/internal/entity/http_message.go:29-33 | Trimming removes blanks at the two ends and nothing else |
| Messages.EffectiveMethodNormal | server/internal/entity/http_message.go:28-33 | The effective method is never empty, is POST for a blank method, and is left alone by a second normalisation if net/http takes it, whatever upper case means outside ASCII |
| Messages.MethodsCompare | server/internal/entity/http_message.go:28-33 | Two nonblank ASCII methods have the same effective method if and only if they differ in case and outer blanks only |
| Submission.AcceptedExactly | server/internal/service/service.go:163-193 | A submission is accepted if and only if its key is at most 200 printable ASCII characters, its time lies in the years 1 to 9999, and its message has what its kind demands |
| Submission.StoredFields | server/internal/service/service.go:163-193 | The stored form keeps every submitted field: HTTP headers and body as they came, the URL trimmed, the method normalised, SMS recipients normalised, any other message whole; the retry limit with -1 for negative ones; the time cut to the microsecond |
| Submission.NormalFormStable | server/internal/service/service.go:176-187 | Validation accepts the normal form of any valid message and leaves it unchanged |
| Submission.CanonicaliseStable | server/internal/service/service.go:163-203 | Submitting the stored form of an accepted submission again gives the same canonical tuple and channel |
| Submission.SameFingerprint | server/internal/service/service.go:195-203 | Two accepted submissions share a fingerprint if and only if they are of one kind with the same fields (URL up to outer blanks, method and recipients normalised), the same retry limit (all negative ones alike) and the same requested microsecond |
| Submission.AcceptedWindow | server/internal/service/service.go:204-216 | A row becomes eligible at the later of acceptance and the requested time, first falls due just then, and a positive age freezes its deadline that much later |
| Retry.RetryDelayRange | server/internal/service/service.go:511-516 | Delays are 1, 2, 4 up to 512 s, and 900 s from the tenth on |
| Retry.JitterRange | server/internal/service/service.go:517-519 | The jittered delay lies in [0.9 d, 1.1 d), is positive and below 990 s, and its random range is never empty |
| Retry.FailureDecided | server/internal/service/service.go:455-468 | A failed attempt n records its error, waits 2^n s (n <= 9) or 900 s, give or take a tenth, from its reading, and is the last exactly when the limit is used up or the deadline has come |
| Repository.OutboxTable.Create | server/internal/repository/outbox_repo/repo.go:24-41 | A row without key, or with a key new to its channel, is inserted and answered; otherwise nothing is written and the stored row of that key is the answer, or a conflict if its fingerprint is missing or differs; keys stay unique |
| Promises.CreateKeepsKeys | server/internal/repository/outbox_repo/repo.go:24-26 | Create keeps nonempty keys unique per channel, changes no stored row, and adds at most the new one |
| Promises.CreateDecides | server/internal/repository/outbox_repo/repo.go:24-41 | In columns: inserted if and only if there is no key or no stored row of that channel and key; a conflict if and only if such a row has no fingerprint or another one; else that row is the answer |
| Promises.CreateAnswers | server/internal/repository/outbox_repo/repo.go:30-40 | Create answers with a stored row of the same channel, key and fingerprint, and reports a conflict only for a keyed row against a different fingerprint |
| Repository.OutboxTable.ReserveDispatch | server/internal/repository/outbox_repo/delivery.go:42-73 | Each batch row is retired, recovered or reserved, column by column, every other row is unchanged, and the answer holds exactly the batch rows that are not exhausted, as now stored, each once, by (created_at, id) |
| Repository.ReservationsAre | server/internal/repository/outbox_repo/delivery.go:52-70 | The answer of a batch, apart from how it is built: a batch row is in it as now stored if and only if it was not exhausted; it holds nothing else, each row once, by (created_at, id) |
| Repository.BatchSelects | server/internal/repository/outbox_repo/delivery.go:46-51 | A batch holds at most the limit, only unlocked rows of the channel that meet the query's tests on state, retry time, reservation and lease, each once, by (created_at, id) |
| Repository.BatchComplete | server/internal/repository/outbox_repo/delivery.go:46-51 | An unlocked row of the channel that meets the query's tests is in the batch, or the batch is full of rows that come before it |
| Repository.WholeBatch | server/internal/repository/outbox_repo/delivery.go:46-51 | With room for the whole table and no locks the batch is exactly what is due on the channel |
| Repository.AfterReserveAt | server/internal/repository/outbox_repo/delivery.go:52-69 | The loop over the batch changes each batch row once, from what the query read, and no other row |
| Repository.OutboxTable.Claim | server/internal/repository/outbox_repo/delivery.go:75-104 | Not found exactly when locked, missing or of another channel; a waiting row whose retry time has come is leased with its attempt counted or, if exhausted, retired; in every other case the table is unchanged |
| Repository.OutboxTable.Finish | server/internal/repository/outbox_repo/delivery.go:106-123 | The overwrite happens if and only if the stored row is in the caller's unexpired attempt, and writes each transition column from the caller's copy, clearing lease and reservation |
| Drain.Drains | server/internal/repository/outbox_repo/delivery.go:42-73 | n calls at one instant take exactly the first n * limit due rows; handed out are, of these, exactly the ones not exhausted, as now stored, each once, in order; what stays due is the rest, and the channel is drained if and only if n * limit reaches the number of due rows |
| RowLaws.HistoryInv | server/internal/repository/outbox_repo/delivery.go:27-123 | Every row keeps its submitted columns; a row of this code keeps retry_count = max(attempts - 1, 0), attempts <= max_retries + 1, no Failed row over budget, a token and lease exactly while Sending, sent_at exactly when Sent, and cleared columns when terminal |
| RowLaws.Conservation | server/internal/repository/outbox_repo/delivery.go:52-123 | The attempts column counts the claims, and claims = committed completions + recovered leases + the one in flight |
| RowLaws.Budget | server/internal/repository/outbox_repo/delivery.go:23-25 | With retry limit m a row is claimed at most m + 1 times, whatever clocks say; a migrated row never exceeds the larger of that and what it brought |
| RowLaws.WorkerAgreesWithRepository | server/internal/service/service.go:455-468 | A failed completion makes the row Dead exactly when the repository would call it exhausted at that instant |
| RowLaws.FuelDecreases | server/internal/repository/outbox_repo/delivery.go:52-123 | 2 (m + 1 - attempts) + [Sending] strictly decreases on every change of state and never grows |
| RowLaws.StateChangesBounded | server/internal/repository/outbox_repo/delivery.go:52-123 | A row with retry limit m changes state at most 2 (m + 1) times in any history |
| RowLaws.TerminalIsLast | server/internal/repository/outbox_repo/delivery.go:86-88 | Nothing ever changes a row that is Sent or Dead |
| RowLaws.SentByDelivery | server/internal/service/service.go:449-468 | A row that did not start as Sent is Sent if and only if its last change is a completion whose attempt the provider took, and sent_at is the reading of that completion |
| RowLaws.FailureWaits | server/internal/service/service.go:455-469 | A failed completion of attempt n that leaves the row Failed closes it for 2^n s (n <= 9) or 900 s, give or take a tenth, and the row is due exactly from then on, with no lease, token or reservation left |
| RowLaws.AttemptEnds | server/internal/repository/outbox_repo/delivery.go:53-115 | What ends an attempt is its own completion before the lease ends, or a recovery after |
| RowLaws.CompletionClosesAttempt | server/internal/repository/outbox_repo/delivery.go:106-118 | Every committed completion closes the attempt opened just before it, under that attempt's token |
| RowLaws.WindowsDisjoint | server/internal/repository/outbox_repo/delivery.go:56-98 | The windows [claim, min(completion, claim + 60 s)) of a row's attempts are disjoint if each worker's own clock does not run backwards |
| RowLaws.HolderOrRecovery | server/internal/repository/outbox_repo/delivery.go:48-115 | At every instant exactly one of the holder's completion and the lease recovery is enabled, and no other token passes |
| RowLaws.ConsecutiveGap | server/internal/service/service.go:462-464 | Attempt n + 1 is claimed at least min(0.9 retryDelay(n), 60 s) after attempt n, whoever ended attempt n, if each worker's own clock does not run backwards |
| RowLaws.AttemptsPaced | server/internal/service/service.go:462-464 | Attempt n comes at least the sum of these gaps after the first attempt |
| RowLaws.PaceGrows | server/internal/service/service.go:511-519 | The first seven attempts span at least 113.4 s and every later gap is at least a minute |
| RowLaws.AgeBoundsAttempts | server/internal/service/service.go:511-519 | A retry age A admits fewer than 7 + A / 60 s attempts even with unlimited retries |
| RowLaws.StartsBeforeDeadline | server/internal/repository/outbox_repo/delivery.go:92-98 | No attempt starts at or after the frozen deadline, whatever any clock says |
| RowLaws.AttemptWindow | server/internal/service/service.go:204-215 | Attempts start within [eligible, deadline) as fixed at acceptance |
| RowLaws.ReservationsSpaced | server/internal/repository/outbox_repo/delivery.go:47-64 | Reservations of a row with no completion between them are at least 10 s apart if no claim is read over 50 s behind a reservation |
| RowLaws.SkewBeyondTolerance | server/internal/repository/outbox_repo/delivery.go:95-98 | For every excess up to 10 s, a claim read 50 s and that excess behind a reservation lets the next reservation follow that excess too soon, with no reading further behind |
| RowLaws.NeverStranded | server/internal/repository/outbox_repo/delivery.go:46-65 | A row that is not terminal falls due at a definite instant, at most 990 s past the latest reading or at its eligibility, and is selected exactly from then on |
| Refinement.FinishLossless | server/internal/repository/outbox_repo/delivery.go:106-123 | Given a good copy, the blind overwrite equals the completion of the stored row, or changes nothing |
| Refinement.StepRowwise | server/internal/repository/outbox_repo/delivery.go:42-123 | Every protocol step acts on every row as at most one operation of the row machine |
| Invariants.CopiesKept | server/internal/service/service.go:431-469 | Every worker's copy equals the stored row as long as that row is still in the copy's attempt, after any step of anyone |
| Invariants.CallsKept | server/internal/service/service.go:446-453 | Every provider call is made under a token of its own, issued to the row it is for |
| Theorems.RunInv | server/internal/service/service.go:391-486 | All invariants hold at the end of every run from every migrated table |
| Theorems.RunHistories | server/internal/repository/outbox_repo/delivery.go:42-123 | In every run each row's record is a valid history ending in the stored row, so the laws above apply to it |
| Theorems.NeverBlocked | server/internal/service/service.go:446-469 | A worker that has its provider's answer can always go on to Finish, unless the attempt failed on a row migrated with fewer than -1 attempts; elsewhere it can always go on, a provider may answer anything, a crash may come anywhere and changes no row, and a relay can always reserve |
| Theorems.FinishNeverOverwrites | server/internal/repository/outbox_repo/delivery.go:106-123 | In every run, where the fence holds the stored row is still the worker's copy, and where it fails the table does not change; the copy's retry count is never below the attempts the row came with |
| Theorems.CallsWithinBudget | server/internal/service/service.go:431-453 | In every run a row with retry limit m causes no more provider calls than it gained attempts, and its attempts end at m + 1 or at what it was migrated with, with no clock assumption |
| Theorems.CompletionsClose | server/internal/repository/outbox_repo/delivery.go:106-118 | In every run each committed completion closes the attempt opened just before it, under that attempt's token, migrated rows included |
| Theorems.SentWasDelivered | server/internal/service/service.go:449-469 | A row that a run makes Sent was finished under a token under which a provider call for this very row reported success |
| Theorems.OneCompletionPerToken | server/internal/repository/outbox_repo/delivery.go:98-115 | A lease token commits at most one completion over all rows of a run, migrated rows included |
| Theorems.SameKeySameRow | server/internal/repository/outbox_repo/repo.go:24-41 | Keys stay unique, and all successful submissions of one key in one channel got the same id for the same content |
| Theorems.ResubmissionHarmless | server/internal/repository/outbox_repo/repo.go:24-41 | A repeated or conflicting submission leaves every stored row as it is |
| Theorems.AcknowledgedIsStored | server/internal/service/service.go:405-445 | Every acknowledged direct envelope is stored under its channel and key with its canonical content; every acknowledged notification names a stored row |
| Theorems.NothingStranded | server/internal/service/service.go:431-485 | In every run, however notifications were settled or dropped, a row that is not terminal falls due within 990 s of the latest reading or at its eligibility, and a batch with room for the table holds it exactly from then on, on its own channel only |
| Theorems.RowsPersist | server/internal/repository/outbox_repo/delivery.go:27-34 | However a run goes on, a row keeps its submitted columns, and a Sent or Dead row keeps every column |
| Progress.AlwaysDeliverable | server/internal/repository/outbox_repo/delivery.go:42-123 | From any point of any run, at any reading at which a row is due, one reservation and one successful attempt carry it to Sent, or to Dead exactly when its budget or age is spent at that reading; all this happens at that one reading, so clocks that agreed still agree |
| Timing.LeaseWindowsDisjoint | server/internal/repository/outbox_repo/delivery.go:56-98 | Lease windows are disjoint in every run in which no worker's own clock runs backwards during an attempt |
| Timing.ConsecutiveAttempts | server/internal/service/service.go:462-464 | In every run consecutive attempts of a row are claimed at least min(0.9 retryDelay(n), 60 s) apart, if no worker's own clock runs backwards during an attempt |
| Timing.RetriesWait | server/internal/service/service.go:455-464 | In every run a failed completion of attempt n that is not the last makes its row due exactly 2^n s (n <= 9) or 900 s later, give or take a tenth |
| Timing.AttemptsInWindow | server/internal/service/service.go:204-215 | With synchronised clocks every attempt of a row accepted in the run starts within [eligible, deadline) |
| Timing.AttemptsPacedByAge | server/internal/service/service.go:511-519 | With synchronised clocks a retry age A bounds the attempts of every row accepted in the run below 7 + A / 60 s |
| Timing.DispatchesSpaced | server/internal/repository/outbox_repo/delivery.go:47-64 | With readings that lag by at most 50 s, dispatch reservations without a completion between them are at least 10 s apart in every run |
| Timing.StateChangesEnd | server/internal/repository/outbox_repo/delivery.go:23-25 | In every run a row accepted in it with retry limit m changes state at most 2 (m + 1) times |
| InFlight.AttemptKeptUntilExpiry | server/internal/repository/outbox_repo/delivery.go:106-118 | Whatever others do and whatever their clocks say, the stored row is the copy a worker holds until some process has read a time past its lease |
| InFlight.CallInsideLease | server/internal/service/service.go:431-453 | If the delay from claim to call and the clock skew stay below 30 s together, every provider call in flight is inside its own unexpired lease |
| InFlight.CallsNeverOverlap | server/internal/service/service.go:449-453 | Under the same condition no two workers call the provider for one row at the same time |
| Tolerance.SpacingTolerance | server/internal/repository/outbox_repo/delivery.go:47-64 | All runs whose clocks agree within d keep reservations without a completion between them 10 s apart if and only if d <= 50 s |
| Tolerance.CallTolerance | server/internal/service/service.go:431-453 | All runs with claim-to-call delay L and clock skew d keep the provider calls of a row apart if and only if L + d < 30 s, the lease less the timeout |
| Migration.Database.BackfillPage | server/internal/repository/outbox_repo/migrate.go:44-70 | A page is backfilled row by row, or a keyed row without fingerprint stops it |
| Migration.Database.Migrate | server/internal/repository/outbox_repo/migrate.go:16-82 | Two rows of one channel and key, or a keyed row without fingerprint, reject the table unchanged; otherwise every row counts its eligibility from its retry time or creation, its deadline from there, and its attempts from its retry count; a second run with any age changes nothing |
| Migration.MigrationStartsProtocol | server/internal/repository/outbox_repo/migrate.go:43-76 | An accepted legacy table, once migrated, has unique keys and rows every protocol run may start from; its Sending rows are due at every instant and no outbox a worker may hold can finish them |
| Migration.NegativeCounts | server/internal/service/service.go:462-464 | A failed attempt on a migrated row has a retry delay if and only if the row was pending or had counted no lower than -2 |
| Migration.LegacyOverBudget | server/internal/repository/outbox_repo/delivery.go:23-25 | A legacy row over its budget is retired by the first operation on it |
| Migration.BackfillFrame | server/internal/repository/outbox_repo/migrate.go:49-62 | The backfill keeps every other column, keeps the schedule of waiting rows, counts eligibility from the retry time or else the creation, sets attempts to retry_count + 1 outside Pending, freezes the deadline at eligibility plus age, and repeating it changes nothing |
| Migration.BackfilledAge | server/internal/repository/outbox_repo/migrate.go:49-57 | A migrated row within its retry limit is exhausted exactly when there is a maximum age and it has passed since the row's retry time, or since its creation if it had none |
| Service.Service.Normalise | server/internal/service/service.go:163-203 | The step-by-step checks and rebindings of accept compute the canonical form, with every submitted field kept as stated above, or refuse |
| Service.Service.Accept | server/internal/service/service.go:158-221 | An invalid submission changes nothing; a valid one without key or with a new key is inserted as a pending row and answered with its id; one whose key is stored gets that row's id if the content is the same and a conflict if not |
| Service.Service.Send | server/internal/service/service.go:137-156 | Shutdown, nil message and missing sender are refused in that order; nothing but an accepted submission changes the table and no stored row changes |
| Service.Service.BeginDelivery | server/internal/service/service.go:391-445 | Up to the provider call: which envelope leads to which transaction and settlement, with nothing acknowledged before its transaction |
| Service.Service.CompleteDelivery | server/internal/service/service.go:454-485 | From the provider's answer on: acknowledged exactly when the stored row is still in the claimed attempt, and then that row, column by column, is sent, dead or failed with the wait of its attempt; otherwise nothing changes |
| Service.Service.RelayChannel | server/internal/service/service.go:308-322 | The published rows are the longest confirmed prefix of the reserved batch, each as stored, of this channel, reserved for 10 s |
| Service.BegunIsStep | server/internal/service/service.go:391-445 | What BeginDelivery does to the table and where it leaves the worker is exactly one possible step of the protocol |
| Service.AcceptIsStep | server/internal/service/service.go:158-221 | What Accept does to the table is exactly the protocol's Submit step, which records every answer it accepts |
| Service.CompletionIsStep | server/internal/service/service.go:454-485 | What CompleteDelivery does to the table and its settlement are exactly the protocol's Finish step |
| Service.RelayIsStep | server/internal/service/service.go:308-309 | What a relay pass does to the table is exactly the protocol's Reserve step |
| Shutdown.ShutdownDrains | server/internal/service/service.go:649-659 | In every joint run of an instance and the protocol, once Shutdown has returned without error every worker of the instance is idle: none between Claim and Finish, calling or unsettled |
| Shutdown.AtMostOneLateClaim | server/internal/service/service.go:374-397 | After BeginShutdown has returned each worker of the instance begins at most one more Claim, only if it had passed the stopping check |
| Shutdown.DrainAdvances | server/internal/service/service.go:374-397 | After BeginShutdown a worker of the instance that has not returned can always move towards its return, whatever delivery it holds, unless its attempt failed on a row migrated with a count below -2 |
| Lifecycle.DrainProgress | server/internal/service/service.go:535-540 | After BeginShutdown every step of a consumer brings it nearer to its return, nothing else moves it, and it can always move until then |

## Left out

- Column precision: PostgreSQL keeps timestamps to the microsecond; the model stores the instant it is given.
- SQL, GORM and locking internals: a transaction is one atomic table step, and a lock held elsewhere is an arbitrary skipped set. Create's insert and its read-back of the conflicting row are one step; the id and fingerprint it compares never change.
- AMQP topology, confirms, prefetch and reconnection: the broker is an adversary that may hand out any envelope at any time.
- Provider senders and the outbound destination policy: a provider call returns an arbitrary outcome at an arbitrary time; that it returns within its timeout is the condition `InFlight.CallsTimely`, used only where it is named.
- The relay's outer loop over senders and its one-second pause: `RelayChannel` is its body, and `Protocol` lets a reservation happen at any time on any channel.
- JSON, base64 and UTF-8 repair: messages are typed values, and decoding a message yields the value that was encoded.
- Upper case outside ASCII: an arbitrary function of which only this is used, that it never yields a lower-case ASCII letter.
- State numbers outside 1 to 5.
- The reading handed to Finish: the code passes the one taken when the provider returned; the model lets it be any, which covers that.
- A process that dies while it shuts down: its Shutdown never returns, so `Shutdown` lets the workers of other instances crash only.
- `Get`, `Stats`, `Status`, `Update`, `Delete`, soft deletion, metrics, health, HTTP handlers and configuration: outside the delivery protocol or simple reads.
- `retryAgeExceeded`: the live check is the frozen deadline.
- Goroutine scheduling and context cancellation: interleaved steps, and a crash between any two of them.
- Protocol.Run: it says what is safe in every run and when a row falls due; that relays keep running is an assumption about scheduling.
