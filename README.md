# pulsedb in Dafny

This is a verified model of the gas-meter pulse recorder. The daemon `pulsedb` takes On and Off pulses from a POSIX message queue. It buffers the current On and its Off in `pulse[2]`, mirrors that buffer in a second "backup" queue so that a restarted process can pick up where the old one died, and reports each pulse to a PostgreSQL table. Every report is retried with a doubling back-off until the store accepts it. That is safe because each store operation is idempotent.

The project is split into these modules:

- `PulseTypes` (pulse_types.dfy) holds `Timeval`, `Pulse` and `Option`.
- `Decimal` (decimal.dfy) covers the decimal digit strings that `%lu`/`%06u` print and that `strtol` reads.
- `Timestamp` (timestamp.dfy) models the `"%lu.%06u"` text in which every time is sent to the database. It proves that this text reads back as the same instant and that two distinct times never get the same text.
- `Meter` (meter.dfy) models `pulse_meter` and the `strtol` scan it relies on. It proves that a value is accepted exactly when it is a complete base-10 literal within the range of `long`.
- `Store` (store.dfy) models the interface the daemon sees: the four calls, and a `Recorder` class that logs each attempt with the store's reply. A list of outages says how many attempts the store refuses before it accepts the next call.
- `Postgres` (postgres.dfy) models the adapter `pulsedb_postgres.c`. The table is a map from a pulse's start to its optional stop, for the one configured meter. `Database` is a class with the connection flag and the table, and it has one method per operation. Whether the server answers and whether each statement succeeds are parameters of those methods. The lemmas prove that every operation is idempotent and that any number of retries acts as one call. They also prove a property of any sequence of successful calls for one pulse that has the shape `PulseRecordedWithStop` requires: some pulse_on calls, then closes, the first of which is a pulse_on_off unless a pulse_on came first. After such a sequence the table maps that pulse's start to its stop, and every other row is unchanged. No lemma derives this shape from the daemon's own store log, and a pulse whose On is replaced by a second On never gets its row closed.
- `PulseDbSpec` (pulsedb_spec.dfy) describes the daemon's state as a value, a `Buffer`. It gives one function per step and states what the steps promise:
  - the mirror invariant, "the backup queue holds exactly `pulse[0..count)`";
  - how each kind of pulse is admitted;
  - the back-off schedule;
  - that the first signal wins;
  - that startup recovery is idempotent, and that it restores the invariant for any queue the corrected daemon leaves behind, even after a kill in the middle of `save_off` (the two-On queue the daemon as written can leave does not, see `LoadAfterAsWrittenRun`);
  - what the daemon as written keeps instead of the mirror invariant once a second On has arrived, and how its loop ends (`RunAsWritten`).
- `PulseDb` (pulsedb.dfy) is the daemon itself. The class `Daemon` has the array `pulse`, `count`, `process_on` (`processOn`), `waiting_sig` (`waitingSig`), the backup queue's records and the store. Each method is proved to leave the state that the matching `PulseDbSpec` function describes. `GetData`, `Step` and `Loop` run `handle_pulse` as written. `Loop` runs over a script of arrivals and ends the way `RunAsWritten` says: like the corrected loop, or by dying on a full backup queue. `GetDataFixed`, `StepFixed` and `LoopFixed` run the corrected `handle_pulse`; they keep the mirror invariant, and `LoopFixed` ends the way `Outcome` says.

Pulses are records of `struct timeval` and a flag. `pulseq.h`, which declares `pulse_t`, is not part of this model. The model takes the record to be exactly those two fields.

## Model

| member | source | states |
|---|---|---|
| Decimal.Digits | pulsedb_postgres.c:110 | what `%lu` prints is a non-empty string of digits with no leading zero |
| Decimal.ValueOfDigits | pulsedb_postgres.c:110 | reading back the decimal text of n gives n |
| Decimal.DigitsLength | pulsedb_postgres.c:110 | a number below 10^k prints in at most k digits, so a microsecond count takes at most 6 |
| Decimal.ValueOfZeroPad | pulsedb_postgres.c:110 | the `0` flag's padding keeps the text all digits and its value unchanged, and pads it to the width |
| Timestamp.Format | pulsedb_postgres.c:110 | the `%lu.%06u` text is at least eight characters; for a canonical timeval it is digits, a point, and exactly six digits |
| Timestamp.FormatReadsBack | pulsedb_postgres.c:110 | the `%lu.%06u` text of a canonical timeval reads back, as seconds with six fractional digits, as exactly its instant in microseconds |
| Timestamp.FormatInjective | pulsedb_postgres.c:149-150 | two distinct canonical timevals are never sent as the same text, so a start time identifies its row |
| Timestamp.FractionWidth | pulsedb_postgres.c:174-175 | the fractional part is all digits, at least six of them and, for a canonical timeval, exactly six |
| Meter.SkipSpace | pulsedb_postgres.c:21 | `strtol`'s leading white space: the index returned is past white space only and stops at the first other character |
| Meter.DigitRun | pulsedb_postgres.c:21 | `strtol`'s digit scan: everything it passes is a digit and it stops at the first non-digit |
| Meter.Strtol | pulsedb_postgres.c:21 | `strtol(value, &end, 10)`: the value is always within the range of long; ERANGE comes only with a value saturated to LONG_MAX or LONG_MIN; with no digits nothing is converted (value 0, end at the start); otherwise end is just past the last digit of the digit run |
| Meter.PulseMeter | pulsedb_postgres.c:14-28 | the empty value is fatal, tested first; an accepted value is kept unchanged as the meter and ends in a digit; the out-of-range error means `strtol` set ERANGE |
| Meter.AcceptedIsLongLiteral | pulsedb_postgres.c:14-28 | a meter that `pulse_meter` accepts is white space, an optional sign and digits to the end, within the range of long |
| Meter.LongLiteralAccepted | pulsedb_postgres.c:14-28 | every such complete literal is accepted, and kept as the meter unchanged |
| Meter.AcceptedIffLongLiteral | pulsedb_postgres.c:14-28 | `pulse_meter` accepts a value if and only if it is a complete base-10 literal within the range of long; the empty string, overflow and trailing text are fatal |
| Meter.DecimalMeterAccepted | pulsedb_postgres.c:14-28 | every meter number up to LONG_MAX, written in decimal, is accepted |
| Meter.TrailingTextRejected | pulsedb_postgres.c:24-25 | digits followed by any non-digit are fatal (end not at the terminator), even when the digits alone are valid |
| Store.Retried | pulsedb.c:184-193 | the attempts of one `save`: n refused attempts of the same call and then one accepted |
| Store.Recorder.constructor | pulsedb.h:19-23 | a store with no calls made yet and the given outages ahead |
| Store.Recorder.Submit | pulsedb.h:20-23 | one call: accepted exactly when no outage is pending; logged with its reply; a refusal shortens the pending outage by one |
| Postgres.Effect | pulsedb_postgres.c:101-227 | each statement touches only the row of its start: `pulse_on` makes the row exist and leaves an existing one unchanged, `pulse_on_off` makes it exist with the stop, `pulse_off` sets the stop of an existing row only, `pulse_cancel` removes it |
| Postgres.Database.constructor | pulsedb_postgres.c:11 | no connection open, and the table as given |
| Postgres.Database.Connect | pulsedb_postgres.c:30-75 | succeeds exactly when the server is up; on failure the connection is dropped; the table is untouched |
| Postgres.Database.Disconnect | pulsedb_postgres.c:77-99 | afterwards no connection is open |
| Postgres.Database.PulseOn | pulsedb_postgres.c:101-139 | succeeds exactly when connect and the existence check succeed and the row is already there or the insert succeeds; success inserts an open row only if the start is missing; failure disconnects and leaves the table unchanged |
| Postgres.Database.PulseOff | pulsedb_postgres.c:141-163 | succeeds exactly when connect and the update succeed; success sets the stop of an existing row and never inserts; failure disconnects and leaves the table unchanged |
| Postgres.Database.PulseOnOff | pulsedb_postgres.c:165-204 | success leaves exactly one row for the start, holding the stop: updated if it was there, inserted only if the update touched no row; failure disconnects and leaves the table unchanged |
| Postgres.Database.PulseCancel | pulsedb_postgres.c:206-227 | success deletes the row for the start and leaves every other row; failure disconnects and leaves the table unchanged |
| Postgres.EffectIdempotent | pulsedb_postgres.c:101-227 | each of the four operations, repeated after a success, changes nothing |
| Postgres.RetriesActAsOne | pulsedb.c:187-192 | if at least one of the retried attempts of a call took effect, however many did, the table ends as after one |
| Postgres.RepeatAfterEffect | pulsedb.c:187-192 | after one application of a call, any further applications change nothing |
| Postgres.SaveActsOnce | pulsedb.c:184-193 | the attempt log of one `save` (refusals, then one success) leaves the table as one successful call does |
| Postgres.OffAfterOnIsOnOff | pulsedb.c:199-205 | `save_off`'s two branches agree: `pulse_off` after a reported `pulse_on` leaves the same table as `pulse_on_off` alone |
| Postgres.OffWithoutOnIsLost | pulsedb_postgres.c:152-162 | `pulse_off` for a start with no row records nothing |
| Postgres.PulseRecordedWithStop | pulsedb.c:195-218 | any number of `pulse_on`s followed by closes (`pulse_off` or `pulse_on_off`, the first a `pulse_on_off` when no `pulse_on` came first) leaves the table mapping the start to its stop, and every other row as it was |
| Postgres.ClosesAfterOpen | pulsedb_postgres.c:141-204 | once the start has a row, every close just sets its stop |
| PulseDbSpec.Sent | pulsedb.c:117-121 | `backup_pulse`: the queue keeps its records in order and gets `pulse[count]` at the back; the buffer is untouched |
| PulseDbSpec.Unbuffered | pulsedb.c:126 | one receive of `backup_clear`: the oldest record leaves the queue for `pulse[count-1]`, so no record is lost or reordered; the lower slots are untouched and count drops by one |
| PulseDbSpec.ClearEmptiesMirror | pulsedb.c:123-129 | clearing a consistent buffer leaves count 0, an empty backup queue and process_on unchanged |
| PulseDbSpec.Cleared | pulsedb.c:123-129 | `backup_clear` takes count records off the queue in reverse: at count 2 the On lands in `pulse[1]` and the Off in `pulse[0]`; count becomes 0 and process_on is kept |
| PulseDbSpec.Admit | pulsedb.c:220-245 | `handle_pulse` as written: an On moves count from 0 to 1 and from 1 to 0; an Off at count 0 changes nothing and at count 1 moves count to 2; an On is left in `pulse[0]` with process_on set; an Off keeps process_on |
| PulseDbSpec.AdmitFixed | pulsedb.c:220-245 | `handle_pulse` with the duplicate-On branch corrected: every On leaves count 1, the On in `pulse[0]` and at the back of the backup queue, and process_on set; an Off moves count from 0 to 0 and from 1 to 2 and keeps process_on |
| PulseDbSpec.ConsistentAdmits | pulsedb.c:220-245 | with a consistent buffer and a free slot, `handle_pulse` never sends to a full queue or receives from an empty one, whatever pulse arrives |
| PulseDbSpec.OnAtZero | pulsedb.c:221-227 | at count 0, an On is buffered in `pulse[0]`, becomes the backup queue's one record, count becomes 1 and process_on is set |
| PulseDbSpec.OffAtZero | pulsedb.c:228 | at count 0, an Off is discarded: count, process_on and the backup queue are unchanged |
| PulseDbSpec.OffAtOne | pulsedb.c:230-236 | at count 1, an Off is buffered after the On, appended to the backup queue, and count becomes 2; process_on is kept |
| PulseDbSpec.DuplicateOnAsWritten | pulsedb.c:237-243 | at count 1, a second On as written leaves count 0, the new On in `pulse[0]`, the old On in the backup queue, and the mirror invariant broken |
| PulseDbSpec.DuplicateOnOverflowsBackup | pulsedb.c:237-243 | after On, On, On the backup queue is full while count is 1, the second On is in neither the buffer nor the queue, and the next Off has to be sent to the full queue |
| PulseDbSpec.AdmitFixedKeepsConsistent | pulsedb.c:220-245 | with the duplicate-On branch corrected, every admission keeps the mirror invariant |
| PulseDbSpec.DuplicateOnFixed | pulsedb.c:237-243 | the corrected branch replaces the open On by the new one, in `pulse[0]` and in the backup queue, with count 1 and process_on set |
| PulseDbSpec.AdmitKeepsConsistent | pulsedb.c:220-236 | away from the duplicate-On branch, `handle_pulse` as written equals the corrected one and keeps the mirror invariant |
| PulseDbSpec.ConsistentIsBackedUp | pulsedb.c:117-129 | the mirror invariant is the case of the as-written invariant with no stale record in the queue |
| PulseDbSpec.AdmitKeepsBackedUp | pulsedb.c:220-245 | `handle_pulse` as written keeps the invariant it does keep: the backup queue holds stale Ons followed by exactly the buffered pulses |
| PulseDbSpec.DuplicateOnRotatesBackup | pulsedb.c:237-243 | the duplicate-On branch as written leaves count 0 and moves the queue's oldest record to its back, so the queue holds only Ons |
| PulseDbSpec.FullQueueSends | pulsedb.c:117-119 | the send that meets a full backup queue, and ends the process, is exactly an On at count 0 or an Off at count 1 with two records queued |
| PulseDbSpec.FullQueueNeedsStaleOn | pulsedb.c:237-243 | that send can only happen with a stale On in the queue, which only the duplicate-On branch leaves |
| PulseDbSpec.OffCall | pulsedb.c:199-205 | `save_off` reports the pair from `pulse[0]` to `pulse[1]`, with `pulse_on_off` exactly when the On is unreported and `pulse_off` otherwise |
| PulseDbSpec.Report | pulsedb.c:313-320 | a pass reports exactly at count 2, or at count 1 while the On is unreported; the report is about `pulse[0]`'s start and is never a cancel |
| PulseDbSpec.Reported | pulsedb.c:210-218 | after `save_on` at count 1 the On is marked reported; buffer and queue are untouched, and nothing changes at other counts |
| PulseDbSpec.OnReportedOnce | pulsedb.c:210-218 | after `save_on` an open pulse needs no further report, so `pulse_on` is made at most once per On |
| PulseDbSpec.Backoff | pulsedb.c:185-192 | every delay is at least one second; the closed form is `BackoffSchedule` |
| PulseDbSpec.BackoffSchedule | pulsedb.c:185-192 | the k-th delay is 2^k for k < 8 and 256 from then on |
| PulseDbSpec.BackoffBounded | pulsedb.c:185-192 | every delay is between 1 and 256; it doubles up to 256 and then stays there |
| PulseDbSpec.Caught | pulsedb.c:40-43 | a stored signal is kept; the cell stays 0 only if nothing was stored and no signal came |
| PulseDbSpec.CaughtAll | pulsedb.c:40-43 | after a run of signals the cell holds what it held before or one of the signals of the run |
| PulseDbSpec.FirstSignalWins | pulsedb.c:40-43 | after any run of termination signals, `waiting_sig` holds the one already stored, or else the first of the run |
| PulseDbSpec.StoredSignalStays | pulsedb.c:40-43 | once a signal is stored, later signals never replace it |
| PulseDbSpec.Outcome | pulsedb.c:307-330 | how `loop` ends with `handle_pulse` corrected, which depends on the arrivals alone: a re-raised signal is one that was captured, and the loop never dies on the backup queue |
| PulseDbSpec.RunAsWritten | pulsedb.c:307-330 | how `loop` as written ends from a given buffer: as the corrected loop does, or by dying on a full backup queue |
| PulseDbSpec.AsWrittenAgreesWithoutRepeatedOn | pulsedb.c:307-330 | when no On arrives while one is open, `loop` as written ends exactly as the corrected one |
| PulseDbSpec.OnOnFillsBackup | pulsedb.c:237-243 | with an On open, two more Ons leave the daemon as written with the second one open, and with the backup queue full and a stale On at its front; the corrected loop goes on as if they had not come |
| PulseDbSpec.RepeatedOnEndsOnFullQueue | pulsedb.c:237-243 | with an On open, arrivals On, On, Off make `loop` as written die on the full backup queue, where the corrected loop goes on as if they had not come |
| PulseDbSpec.ReraisesFirstCaught | pulsedb.c:307-330 | corrected: `loop` re-raises if and only if a signal is captured before a failed receive, and what it re-raises is the signal `handle_signal` stored |
| PulseDbSpec.ReraisesFirstCaughtAsWritten | pulsedb.c:307-330 | `loop` as written, whenever it does not die on a full backup queue, re-raises if and only if a signal is captured before a failed receive, and re-raises the signal `handle_signal` stored |
| PulseDbSpec.CaughtSignalLostOnFullQueue | pulsedb.c:237-243 | with an On open, arrivals On, On, then an Off with a termination signal: the signal is stored and the corrected loop re-raises it, but `loop` as written dies on the full backup queue first |
| PulseDbSpec.Loaded | pulsedb.c:141-158 | load keeps the queue's records in order, drops a lone Off, sets count to the number kept, mirrors exactly those, and keeps process_on |
| PulseDbSpec.LoadIdempotent | pulsedb.c:131-165 | loading the state that a load left changes nothing |
| PulseDbSpec.LoadRestoresConsistent | pulsedb.c:131-165 | any queue the corrected daemon can leave (the mirror of a consistent buffer, or what `backup_clear` leaves of a pair) loads into a buffer that satisfies the mirror invariant |
| PulseDbSpec.LoadAfterAsWrittenRun | pulsedb.c:131-165 | a queue the daemon as written leaves loads into a consistent buffer except when it holds two Ons; load takes those for a pair whose `pulse[1]` is an On, so the next `save_off` fails its assert (pulsedb.c:197) |
| PulseDbSpec.RestartDuringSaveOff | pulsedb.c:195-208 | after a kill inside `save_off`, the restart either rebuilds the pair with process_on set, so the next report is `pulse_on_off` of the same pair, or starts empty |
| PulseDb.Daemon.constructor | pulsedb.c:23-25 | the globals' start: both slots zeroed, count 0, process_on true, no signal stored |
| PulseDb.Daemon.BackupPulse | pulsedb.c:117-121 | `pulse[count]` is appended to the backup queue, which must have room |
| PulseDb.Daemon.BackupClear | pulsedb.c:123-129 | count records are received, the oldest into `pulse[count-1]`; count becomes 0 |
| PulseDb.Daemon.BackupLoad | pulsedb.c:131-165 | reads at most two records, stopping on an empty queue, then drops a lone Off and writes back the kept records (the state is `Loaded`) |
| PulseDb.Daemon.Save | pulsedb.c:184-193 | attempts the call until the store accepts it: one refusal per pending outage, delays following `Backoff`, and it returns only after an accepted attempt |
| PulseDb.Daemon.SaveOff | pulsedb.c:195-208 | reports `pulse_on_off` if the On is unreported, `pulse_off` otherwise, then clears the buffer and the queue |
| PulseDb.Daemon.SaveOn | pulsedb.c:210-218 | makes `pulse_on` only while process_on is set, then clears it; makes no call otherwise |
| PulseDb.Daemon.HandlePulse | pulsedb.c:220-245 | `handle_pulse` as written (the state is `Admit`) |
| PulseDb.Daemon.HandlePulseFixed | pulsedb.c:220-245 | `handle_pulse` with the duplicate-On branch corrected (the state is `AdmitFixed`) |
| PulseDb.Daemon.HandleSignal | pulsedb.c:40-43 | stores sig only if no signal is stored yet |
| PulseDb.Daemon.SignalDispatch | pulsedb.c:113-115 | the signals captured while a pulse was handled reach `handle_signal`, one by one in `sigs`, which is the order of delivery; POSIX merges repeated pending signals and does not fix the order in which different ones are delivered |
| PulseDb.Daemon.GetData | pulsedb.c:261-305 | the pulse is received into `pulse[count]` and handled as written; full is set exactly when that handling sends to a full backup queue, which ends the process with the pulse received and nothing else changed; otherwise the state is `Admit`, the queue invariant is kept, and the captured signals reach the handler in their delivery order |
| PulseDb.Daemon.GetDataFixed | pulsedb.c:261-305 | corrected: the same with `handle_pulse` corrected (the state is `AdmitFixed`); its caller keeps the mirror invariant, so the queue always has room |
| PulseDb.Daemon.Step | pulsedb.c:307-324 | one pass as written: at count 2 it reports and clears the pair and reads nothing; at count 1 it reports an unreported On once and falls through to reading; the store log grows by exactly the report's retried attempts; full as in `GetData`; the queue invariant holds afterwards |
| PulseDb.Daemon.StepFixed | pulsedb.c:307-324 | corrected: one pass with `handle_pulse` corrected; the mirror invariant holds before and after |
| PulseDb.Daemon.Loop | pulsedb.c:307-330 | `loop` as written: keeps count in 0..2 and the queue invariant; ends as `RunAsWritten` says; re-raises exactly the stored signal; the store log only grows |
| PulseDb.Daemon.LoopFixed | pulsedb.c:307-330 | corrected: `loop` with `handle_pulse` corrected keeps the mirror invariant and ends as `Outcome` says |

## Left out

- Signal delivery (`sigaction`, `sigprocmask`, `kill`, and the hold, dispatch, capture and release helpers at pulsedb.c:66-78, 102-115, 247-259) is operating-system plumbing. The model keeps the `waiting_sig` cell and the exit check. In `GetData` the signals captured while a pulse is handled reach the handler after it, as they do when they are unblocked.
- Nothing models `setup`, `init`, `daemon`, `cleanup` or `main` (pulsedb.c:45-100, 167-177, 332-346). They parse arguments, open the queues, fork and allocate. The constructor of `Daemon` stands for the state they leave.
- I/O errors of the queues other than the ones the logic relies on (full backup queue, empty backup queue, failed main receive) are left out. The failed receive is `Arrival.Interrupted`. A send to the full backup queue fails at once, because the queue is opened with `O_NONBLOCK` (pulsedb.c:95). In the loop as written that send is `Exit.BackupFull`; `BackupPulse` itself requires room. A receive from an empty backup queue is a precondition of `BackupClear`, and the queue invariants show that it never happens.
- The `assert`s in `save_off`, `save_on` and `handle_pulse` become preconditions.
- `sleep` is not modelled as time passing. `Save` returns the list of delays it would sleep.
- The blocking receive in `get_data` is modelled by the script given to `Loop`. The end of the script stands for a receive that never returns (`Exit.Idle`). `Loop` therefore covers finite runs only.
- The store's failures are an input. `Recorder` takes the number of refusals before each success as a list. An outage that never ends would make `save` loop for ever, and the model does not cover that.
- libpq is replaced by the effect of each SQL statement on a map from start to stop for the one meter. Left out with it: prepared statements, result objects, `to_timestamp`'s conversion to a floating-point time, several meters sharing the table, and the rows a second writer might add.
- `Postgres.Database.Connect`: the source can fail at four points (no connection, a prepare failing, a bad status on a new connection, a bad status on an existing one). The model folds them into one parameter, `up`, because all four have the same effect.
- `Meter.PulseMeter`: `strtol` is modelled for the C locale only, and base prefixes are not accepted because the base is 10.
- `MIN_PULSE` (pulsedb.h:7) is never used by the daemon, so there is no debounce. `tv_to_ull` (pulsedb.h:4) is unused.
- pulsemon.c, pulsefake.c, pulselib.py, pulsetweet.py and pulsepachube.py are producers and consumers outside the core: serial-port polling, a test injector, network posting and floating-point rate arithmetic.
- The buffer has two slots. A second On while one is open is not discarded: the code replaces the open On with it, and the corrected branch keeps that replacement (Findings shows how the branch as written goes wrong).
- `Postgres.PulseRecordedWithStop`: the shape of the call sequence is a precondition. No lemma derives it from the store log that `Daemon.Step` and `Loop` produce, and the daemon's `Recorder` log is not run through `Effect`. For the daemon as written the shape fails when a second On replaces an open one: the first On's `pulse_on` is made and its row is never closed.
- `PulseDbSpec.ReraisesFirstCaught` is proved for the corrected loop. For the loop as written, `ReraisesFirstCaughtAsWritten` proves it only for runs that do not die on a full backup queue, and `CaughtSignalLostOnFullQueue` shows a captured signal that is never re-raised.
- `Postgres.Effect`: the table is a map, so it holds at most one row per start, and a plain INSERT would have the same effect on it. The protection against duplicate rows shows only in the success conditions of `Database.PulseOn` (the existence check) and `Database.PulseOnOff` (an insert only when the update touched no row).

## Findings

| source | as written | input that shows it | evidently intended | confidence | as-written member | corrected member |
|---|---|---|---|---|---|---|
| pulsedb.c:237-243 | the duplicate-On branch clears the backup queue, which leaves count at 0. It then sends `pulse[0]` (the old On, just received back) before copying the new On into `pulse[0]`. count stays 0, so the next receive overwrites the new On. The queue holds the old On and no longer mirrors the buffer | from an empty buffer, the pulses On@10.000000, On@11.000000, On@12.000000, Off@13.000000. After the third On the backup queue is full (`[On@10, On@12]`) at count 1, so sending the Off to the full queue ends the process, and On@11 is lost | the new On replaces the open one: count stays 1, and the backup queue holds just the new On | high (proved about the model; not executed) | PulseDbSpec.DuplicateOnOverflowsBackup | PulseDbSpec.DuplicateOnFixed |
