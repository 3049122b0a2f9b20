# Verified model of the broker's booking core

The broker lends out a pool of remote hosts. Users book half-open time windows on a host (or take an idle
host "right now"), get a one-time connect token for a booking, and the hosts report their health by
heartbeat. This project models that core as one state machine over a clock that never runs backwards, and
proves what holds after every run of it.

- **State** (`Domain.State`): hosts, reservations, tokens, verify requests in flight, audit log. A row's id is
  its position in its table; nothing is ever deleted.
- **Steps** (`Machine.Step`): clock advance, monitor tick, host registration, agent-token rotation, heartbeat,
  login, logout, booking, instant booking, cancellation, connect-token issue, and the two halves of a verify request. Each is
  one transaction with one clock reading; a verify request is two steps, so that anything may run between its
  select and its conditional update. In `Interleaving`, booking is split as well, into validation and insert.
- **Time** is an `int` of microseconds in UTC. A request timestamp carries its own UTC offset, because the
  grid test and the day boundary read the wall clock of the request.
- **Limits** (concurrent bookings, hours per day, longest booking, lookahead, grace, thresholds, token life)
  stay symbolic. Where a lemma exhibits a concrete run it uses the default settings, except
  `InterleavedQuotas.TwoAtOnceExceed`, whose `TIGHT` settings allow one booking and one hour a day.

The model has two layers, and a vocabulary of its own for what is promised: the outcome of each call is stated
in the fields of the tables (`Terms`, `Outcomes`), not in the helpers that the steps are made of. The functions of `Booking`, `Tokens`, `Hosts` and `Endpoints` say what a call does
to the tables; the theorems are about runs of them. `Service`, `Calendar`, `Availability`, `Drag`, `Events` and
`Pairing` hold the methods in the form of the program (tables updated in place, loops with their variables),
each proved equal to its function or against a specification of its own.

| file | content |
|---|---|
| `Clock`, `Domain`, `Tally` | time and grid; tables and settings; sums over the reservation table |
| `Terms` | what the promises are stated in: fields of the tables, written out |
| `Booking`, `Tokens`, `Hosts`, `Endpoints`, `Machine` | the steps as functions, and runs of them |
| `BookingRuns`, `Grid`, `Quotas` | exclusion, grid invariant and quotas over all runs |
| `Interleaving`, `InterleavedQuotas` | the same when validation and insert of a booking are separate steps |
| `Calendar`, `CalendarOffsets` | the matrix, what its cells say, and when it has one answer |
| `Availability`, `Drag` | the other readers of the table, and their agreement with the writes |
| `Scenario`, `Refusals` | how concrete runs begin; two runs in which what was just granted or shown is refused |
| `TokenRuns`, `LateConsumption`, `HostRuns` | token protocol and host status machine over all runs |
| `Outcomes` | what each call leaves behind: its answer and the complete new state, field by field |
| `Events`, `Pairing` | the event fan-out; the PIN relay |
| `Service` | services and endpoints over a mutable session |

Where the code and its own words differ, the model follows the code:

- The "hours per day" limit is charged to the day a booking starts in, by the clock of its request. Minutes that
  cross midnight are never checked against the next day, nor minutes booked with one offset against the days of
  another: `Quotas.AcrossMidnightExceeds` holds 600 minutes in a day and `Quotas.MixedOffsetsExceed` 720, under
  the 480-minute default. `Quotas.DailyLimitKeptIff` says exactly which accepted bookings keep the limit.
- The quotas are checked before the insert and not by it. They survive interleaved bookings exactly as long as
  each insert still finds room (`InterleavedQuotas.QuotasHoldIff`); a user who books one thing at a time always
  does (`OneAtATimeKeepsQuotas`), two bookings of one user at a time can exceed both (`TwoAtOnceExceed`).
- The calendar's dictionary gets one key from at most one reservation only while two offsets, which nothing
  checks, are multiples of 30 minutes: that of the bookings, and that of the calendar request itself. Both
  conditions are exact. `Grid.OffsetConditionIsExact` and `CalendarOffsets.BookingOffsetIsExact` show it for the
  bookings, `CalendarOffsets.CalendarOffsetIsExact` for the request (which may also end before the next slot
  begins), and `CalendarOffsets.QuarterPastDepends` is an accepted request whose answer depends on the order of the
  database's rows although every booking is on the grid.
- A verify request checks the expiry when it selects the token and not when it consumes it, so an expired
  token can still be consumed by a request that selected it in time: `LateConsumption.ExpiredTokenConsumed` is a
  run in which that happens, `TokenRuns.ExpiredAcceptedIff` says exactly when it does.
- The instant endpoint reads the clock again for the token gate, which can then refuse a booking just made:
  `Availability.InstantGateLater` says exactly when, `Refusals.GateRefusesAfterBooking` is a run in which it does.
- A drag is gated on the calendar at mouse-down and cut on the calendar at mouse-up, which never looks at the
  anchor again: `Drag.CommittedDragIsFree` says exactly when the window is still free,
  `Refusals.StaleAnchorRefused` is a run in which it is not.
- Closing the event broker is documented to refuse new subscribers; the code accepts them, and they get nothing:
  `Events.ClosedIsSilent`.

## Model

| member | source | states |
|---|---|---|
| Clock.InstantWindow | broker/app/services/reservation.py:263-282 | For every clock reading and next booking the window holds `now`, starts on its whole second, never passes the next booking, lasts at most 3 h, uncut more than 2.5 h, and ends on the grid unless cut |
| Clock.InstantWindowExact | broker/app/services/reservation.py:263-282 | The window ends with the half hour in which two and a half hours are over, or exactly at the next booking when that begins earlier |
| Clock.AlignmentIsUtcAlignment | broker/app/services/reservation.py:68-73 | The wall-clock grid test means the UTC grid exactly for offsets that are multiples of 30 minutes |
| Booking.CheckWindow | broker/app/services/reservation.py:76-124 | No error iff both bounds are aware and aligned, in order, not too long, not past, within the lookahead; each error names the first check that failed |
| Booking.NextStart | broker/app/services/reservation.py:285-304 | The minimum start of the confirmed rows of the host that begin after `now`; none iff there is no such row |
| Booking.WindowFor | broker/app/services/reservation.py:325-340 | The stored instant window holds `now` and ends before every later confirmed booking of the host begins |
| BookingRuns.TableStepHolds | broker/app/services/reservation.py:213-260 | Any step of the broker leaves the table alone, adds one row that passed every check and the exclusion constraint, or cancels one row |
| BookingRuns.OthersLeaveTable | broker/app/api/v1/tokens.py:25-94 | Verify, connect, login, logout, heartbeat, tick, rotation and registration leave every reservation as it is |
| BookingRuns.RunsWellFormed | broker/alembic/versions/0001_initial.py:145-153 | Over every run active rows of a host never overlap, rows are non-empty whole-second windows of bounded length on existing hosts, and none is COMPLETED |
| BookingRuns.AcceptedIff | broker/app/services/reservation.py:213-260 | In every reachable state a booking is accepted iff, field by field: both bounds read :00 or :30, are in order, no longer apart than allowed, not past, not too far ahead; the host exists; the number of the user's rows neither cancelled nor over is below the limit; the minutes leave room; no uncancelled row of the host overlaps. Accepted, the state changes by exactly its row and its audit entry; refused, not at all |
| BookingRuns.QuotaExact | broker/app/services/reservation.py:144-205 | The quota check passes iff the number of rows of the user that are neither cancelled nor over is below the limit and the clipped minutes of uncancelled rows in the day of the request leave room; the concurrency error comes iff the first fails |
| BookingRuns.CancelOutcome | broker/app/services/reservation.py:402-430 | In every reachable state a cancellation succeeds iff the row exists and the caller owns it or is an admin; it marks exactly that row with status and time, which keeps user, host and bounds, and clears its window; it touches no token; repeated it changes no row, refused nothing |
| Grid.RunsUnambiguous | broker/app/services/reservation.py:263-304 | With booking offsets that are multiples of 30 minutes, over every run each row ends on the grid, each row not yet begun starts on it, and no cell of the UTC grid meets two active rows of one host, although instant bookings bypass the grid check |
| Grid.OffsetConditionIsExact | broker/app/services/reservation.py:68-73 | For every booking offset: two accepted back-to-back half hours stamped with it share a cell of the UTC grid iff it is not a multiple of 30 minutes |
| Interleaving.InterleavingsDisjoint | broker/alembic/versions/0001_initial.py:145-153 | For any interleaving of validations, inserts, cancellations and other calls the active rows of a host stay pairwise disjoint |
| Interleaving.SplitIsWhole | broker/app/services/reservation.py:213-245 | Validation followed at once by its insert is the atomic booking, for both booking paths |
| Interleaving.InsertSucceedsIffFree | broker/app/services/reservation.py:228-245 | A validated booking is inserted, however late, iff every active row of the host ends before it or begins after it; otherwise the table stays and the error is the overlap |
| Interleaving.InterleavingsUnambiguous | broker/app/services/reservation.py:530-543 | The grid invariant and the one-row-per-cell property survive interleaved bookings |
| InterleavedQuotas.QuotasHoldIff | broker/app/services/reservation.py:144-205 | Over every interleaving of validations, inserts, cancellations and other calls: the concurrency limit at every instant and the daily limit on the minutes charged to each local day hold throughout iff every insert, when made, finds room at each instant of its window and in its own day |
| InterleavedQuotas.InsertKeepsQuotasIff | broker/app/services/reservation.py:144-240 | In every state an interleaving reaches, a successful insert keeps the concurrency limit iff no instant of its window has all the user may have, and the daily limit iff its own day has room; what the user holds in that day grows by the row's share |
| InterleavedQuotas.OneAtATimeKeepsQuotas | broker/app/services/reservation.py:134-240 | If no user validates while a booking of that user waits for its insert, both limits hold throughout, whatever else interleaves, and after each insert all the user holds in its day is within the limit |
| InterleavedQuotas.TwoAtOnceExceed | broker/app/services/reservation.py:144-205 | Without that, a concrete interleaving exceeds both limits |
| Quotas.RunsWithinQuotas | broker/app/services/reservation.py:144-205 | Over every run no user has more active rows over any instant, past or future, than the concurrency limit, and the minutes charged to each user, offset and local day stay within the daily limit |
| Quotas.ConcurrentAtAnyInstant | broker/app/services/reservation.py:144-163 | The same in rows: over any instant at most the limit of uncancelled rows of a user (a cardinality) |
| Quotas.OwnDayAfterInsert | broker/app/services/reservation.py:165-205 | Just after any successful booking the clipped total of its own day is within the daily limit, whatever offsets the other rows used |
| Quotas.HeldAnyOffsets | broker/app/services/reservation.py:144-205 | Over every run, for any mix of offsets and any 24 hours, a user holds at most concurrency limit x 1440 minutes |
| Quotas.HeldByOffsets | broker/app/services/reservation.py:165-205 | Tighter, by the offsets of the rows that meet the day: one daily limit for the offset whose local day it is, two and one overrun at the midnight inside it for any other, and what runs into the day |
| Quotas.HeldPerDay | broker/app/services/reservation.py:165-205 | On a local day whose rows all used its offset that is at most daily limit + concurrency limit x longest window (480 + 5 x 240 by default) |
| Quotas.PlainDailyLimit | broker/app/services/reservation.py:165-205 | The plain daily limit holds on every local day whose rows all used its offset and began in it |
| Quotas.DailyLimitKeptIff | broker/app/services/reservation.py:165-205 | For windows of any length and the days of any offset, its own or another: from days all within the limit, an accepted booking keeps them so iff every day it meets has room; the one day the check looks at always has |
| Quotas.AcrossMidnightExceeds | broker/app/services/reservation.py:165-205 | A concrete run under the defaults, in one offset, holds 600 minutes in one day |
| Quotas.MixedOffsetsExceed | broker/app/services/reservation.py:165-205 | A concrete run with two offsets holds 720 minutes in one day in which all its rows begin and end |
| Tally.TotalSelected | broker/app/services/reservation.py:172-194 | Summing the clipped minutes of the rows the daily query selects is summing them over the whole table |
| Calendar.IndexReservation | broker/app/services/reservation.py:530-543 | Flooring the start and walking slot by slot writes a row into exactly the cells it meets, also when it begins mid-slot or before the window |
| Calendar.BuildIndex | broker/app/services/reservation.py:530-543 | After the pass over the query's rows the dictionary gives, for every cell of the window, the last row that meets it |
| Calendar.BuildMatrix | broker/app/services/reservation.py:472-581 | The calendar request returns, block by block, the cells of every host of the state in order of id, or of the one host asked for and no other; or the error of its first failing bound check |
| Calendar.MatrixBlocks | broker/app/services/reservation.py:545-574 | The matrix is the rows of the hosts, each once and in order |
| Calendar.RowTiles | broker/app/services/reservation.py:545-574 | The cells of a host tile the window from `from` on without gap or overlap |
| Calendar.OccupantUnique | broker/app/services/reservation.py:530-543 | In a cell that at most one row meets, the occupant is `id` iff row `id` is active on the host and meets the cell |
| Calendar.CellsAreTruthful | broker/app/services/reservation.py:506-574 | In every reachable state and for every request: a cell is OPEN iff nothing active meets it, otherwise names a reservation that does, and shows the user only to the owner or an admin; it names all that meet it iff at most one does; after regular runs at most one does when `from` is on the UTC grid or the request ends within its first slot |
| Calendar.RowOrderIrrelevant | broker/app/services/reservation.py:506-543 | Where no cell of the request meets two active rows of one host, the matrix does not depend on the order of the query's rows |
| CalendarOffsets.OrderFreeIffNoneShared | broker/app/services/reservation.py:530-543 | In any state whatsoever, the matrix of a window is independent of that order, for all hosts and for each, iff no cell meets two active rows of one host |
| CalendarOffsets.CalendarOffsetIsExact | broker/app/services/reservation.py:488-498 | Of the requests the calendar accepts, those independent of the order in every state a regular run reaches are exactly those whose `from` has an offset that is a multiple of 30 minutes and those that end before the next slot begins |
| CalendarOffsets.QuarterPastDepends | broker/app/services/reservation.py:488-543 | A concrete accepted request, a quarter past the hour stamped +00:15, whose matrix depends on the order after two bookings in UTC |
| CalendarOffsets.BookingOffsetIsExact | broker/app/services/reservation.py:68-73 | For bookings stamped with any offset: the matrix of the slot around the common bound of two half hours is independent of the order iff the offset is a multiple of 30 minutes |
| Availability.ListInstantHosts | broker/app/services/reservation.py:364-399 | Lists, by id and once each, exactly the idle hosts that no uncancelled row covers now, each with the end of an instant booking: with the half hour in which 2.5 h are over, or where the first confirmed later row of the host begins |
| Availability.WindowEnds | broker/app/services/reservation.py:263-304 | The stored window of an instant booking ends there too |
| Availability.OthersCutNothing | broker/app/services/reservation.py:285-304 | Only confirmed rows of the host that begin later cut a window; cancelled rows and other hosts' rows change no end |
| Availability.VacantIsFree | broker/app/services/reservation.py:370-397 | On well-formed tables "nothing active covers now" and "the instant window meets nothing active" are the same, although the window begins before `now` |
| Availability.ListPredictsBooking | broker/app/services/reservation.py:307-361 | In every reachable state an instant booking succeeds iff the host is idle, no uncancelled row covers now, and the quotas leave room (that is, listed and within quota); it fails with the overlap iff only the second is wrong; the stored row begins at the current second and ends where the list says, uncut beyond 2.5 h on the grid unless a confirmed row of the host begins at its end |
| Availability.InstantDelivers | broker/app/api/v1/reservations.py:111-142 | With one clock reading the token gate always passes after the instant row; the call fails only on a repeated raw token and then changes nothing; otherwise the row covers now, the token expires with it and the host is IN_USE |
| Availability.InstantGateLater | broker/app/services/token_service.py:72-101 | With a second, later reading the gate passes iff the window still lasts; within 2.5 h it refuses only if a later booking of the host has begun between the readings |
| Refusals.GateRefusesAfterBooking | broker/app/services/token_service.py:93-101 | A concrete run: an instant booking succeeds one microsecond before the next booking of the host begins, and the gate refuses the token one microsecond later |
| Availability.AvailableThroughout | broker/app/api/v1/hosts.py:81-120 | Slot mode answers iff both bounds are aligned and in order, and lists exactly the idle hosts each of whose confirmed rows ends before the window or begins after it, by id and once each |
| Availability.SlotModeIsCalendar | broker/app/api/v1/hosts.py:101-120 | In every reachable state slot mode lists a host iff it is idle and all its calendar cells in the window are OPEN |
| Drag.EffectiveDragSpan | frontend/src/components/CalendarGrid.tsx:77-95 | The loop returns the longest selection from the anchor towards the pointer: open, reservable, at most eight cells, stopped only by pointer, eighth cell or an unselectable cell |
| Drag.SpanUnique | frontend/src/components/CalendarGrid.tsx:77-95 | That specification determines the span |
| Drag.MouseDown | frontend/src/components/CalendarGrid.tsx:521-533 | A drag starts iff the cell is open and after the current column and the host is idle or in use and has an address; taken cells are ignored, and the reason given is the host's before the past |
| Drag.ModalKeepsSpan | frontend/src/components/ReservationModal.tsx:69-77 | The dialog's rounding and clamping leave the length of every span unchanged, and it is 30 to 240 minutes |
| Drag.CommittedDragIsFree | frontend/src/components/CalendarGrid.tsx:237-255 | A committed drag asks for exactly its cells, on the grid and 30 to 240 minutes long; with the gate on an earlier calendar, its window meets no active reservation iff the anchor is still OPEN at mouse-up |
| Drag.CommittedDragBooks | frontend/src/components/CalendarGrid.tsx:521-533 | With a taken anchor the request is refused; with an open one it passes the order, grid and exclusion checks and, under limits of four hours or more, the length check, so only the past, the lookahead or the quotas can refuse it, and not the past when the anchor lies after a shown current column that holds the clock |
| Refusals.StaleAnchorRefused | frontend/src/components/CalendarGrid.tsx:237-255 | A concrete run: a drag begun on an open cell and released once that half hour is booked is committed, and refused |
| TokenRuns.TokenStepHolds | broker/app/services/token_service.py:61-118 | Any step leaves the tokens alone, revokes one scope and adds one token with a new digest, consumes the one live token of its ticket, adds one session, or revokes sessions only |
| TokenRuns.SessionStepHolds | broker/app/core/auth_session.py:30-91 | A login succeeds iff its cookie is new, adds the session of that cookie and user, and changes no token; a logout always succeeds and revokes the unrevoked session of its cookie and no other token |
| TokenRuns.LogoutEndsLogin | broker/app/core/auth_session.py:30-91 | In every reachable state login and logout with one cookie leave all earlier tokens as they were and the new session revoked |
| TokenRuns.RunsOneLive | broker/app/services/token_service.py:40-58 | Over every run, logins and logouts among its steps: one live connect token per reservation and one live agent token per host at most, none both consumed and revoked, no digest twice, only connect tokens consumed |
| TokenRuns.AtMostOneLive | broker/app/services/token_service.py:40-58 | The same in fields: of the tokens neither consumed nor revoked, no two connect tokens name one reservation and no two agent tokens one host; none carries both marks |
| TokenRuns.MarksStay | broker/app/services/token_service.py:141-159 | From any point of a run to its end tokens keep their identity and neither mark is cleared or changed |
| TokenRuns.RevokedCountIsOne | broker/app/services/token_service.py:40-58 | The row count of a bulk revocation is 1 if the scope has a live token and 0 otherwise |
| TokenRuns.IssueReplacesOne | broker/app/services/agent_token_service.py:35-81 | In all runs an issue revokes at most one token, touches none outside its scope (login sessions and other purposes included), and leaves the new one as the only live token of the scope; a login touches none |
| TokenRuns.RunsConsumeOnce | broker/app/services/token_service.py:121-159 | For any interleaving of verify requests with reissues and the clock, no token is accepted twice; each accepted one was unexpired at its select, is never revoked, and the mark is set iff it was accepted |
| TokenRuns.AcceptedIffLive | broker/app/api/v1/tokens.py:44-75 | The second half of a consuming request answers valid iff the selected token carries neither mark then, and logs exactly that; otherwise no token changes |
| TokenRuns.ExpiredAcceptedIff | broker/app/services/token_service.py:141-159 | After any delay the second half accepts iff the selected token is live; a log without a consumption at or after expiry gets one iff the token is live and the delay reaches past its expiry |
| LateConsumption.ExpiredTokenConsumed | broker/app/services/token_service.py:121-159 | A concrete run consumes a token at its expiry: selected at once, finished three hours later |
| TokenRuns.ConnectOutcome | broker/app/api/v1/reservations.py:227-325 | In every reachable state a connect token is issued iff the row exists, the caller may use it, it is confirmed, within its grace window, and the raw token is new; the token ends with the row, a replaced token is logged first, and a refusal changes nothing |
| TokenRuns.IssuedTokenVerifies | broker/app/services/token_service.py:61-138 | Right after an issue the new raw token selects the new row and no other raw token selects a token of that reservation |
| TokenRuns.RotationOutcome | broker/app/api/v1/hosts.py:180-198 | In every reachable state rotation succeeds iff admin, host exists and raw token new; the host's heartbeats then answer to that raw token and to no other; refused, it changes nothing |
| TokenRuns.RegistrationOutcome | broker/app/api/v1/hosts.py:138-177 | Registration succeeds iff admin and raw token new; it adds one OFFLINE host whose heartbeats answer to that raw token alone |
| Hosts.Evaluate | broker/app/services/host_status.py:31-55 | OFFLINE iff no or too old a heartbeat; IN_USE iff online, reserved and streaming; IDLE iff online, not reserved and below both thresholds |
| Hosts.Stale | broker/app/services/host_status_monitor.py:38-48 | The monitor's query picks a host iff it is not OFFLINE and the evaluator would call it OFFLINE, whatever else the host reports |
| HostRuns.RunsReplay | broker/app/services/host_status.py:71-97 | Over every run, folding the status entries of a host from OFFLINE gives its status; each entry starts where the previous one for that host ended and none has old = new |
| HostRuns.OnlyHeartbeatRevives | broker/app/api/v1/agents.py:45-73 | Between a moment a host is OFFLINE and a later one it is not lies a heartbeat that revived that host |
| HostRuns.FailureDetected | broker/app/services/host_status_monitor.py:38-64 | In every run whose every moment has a tick (or the start) at most I before it, no state shows a host that is not OFFLINE with a heartbeat older than threshold + I |
| HostRuns.RunsInUseBegun | broker/app/api/v1/reservations.py:213-223 | Over every run a host is IN_USE only if a reservation of it that is not cancelled has begun |
| HostRuns.CancelReleases | broker/app/api/v1/reservations.py:198-224 | After a successful cancellation the host is IN_USE iff it was and a confirmed reservation of it still covers now (start <= now < end), IDLE if it was IN_USE and none does; no other status changes |
| HostRuns.HeartbeatOutcome | broker/app/api/v1/agents.py:45-73 | In every reachable state a heartbeat is accepted iff an agent token of a host has its digest and is neither consumed, revoked nor expired; it stamps and re-evaluates that host alone, never to OFFLINE, to IN_USE iff streaming runs and a confirmed reservation covers now (start <= now < end), and logs exactly the change; refused, it changes nothing |
| Outcomes.InstantOutcome | broker/app/api/v1/reservations.py:99-142 | In every reachable state, whole: success iff the host is idle, nothing covers now, the quotas leave room and the raw token is unused; then row, token, host status and log entries, each given in full; otherwise nothing changes and each error comes iff its obstacle is the first |
| Outcomes.ConnectWrites | broker/app/api/v1/reservations.py:227-325 | Whole: when a connect token is issued, the complete token, which tokens are revoked, and the log |
| Outcomes.RotationWrites | broker/app/services/agent_token_service.py:35-81 | Whole: the complete agent token, its expiry, and exactly the live agent tokens of the host revoked |
| Outcomes.RegistrationWrites | broker/app/api/v1/hosts.py:138-177 | Whole: one offline host without heartbeat and its complete agent token |
| Outcomes.SelectOutcome | broker/app/services/token_service.py:121-138 | In every reachable state the select succeeds iff a connect token with the digest is neither consumed nor revoked and not expired, so a live token stays selectable until its expiry; only the ticket is new |
| Outcomes.FinishOutcomes | broker/app/api/v1/tokens.py:44-94 | In every reachable state, whole: the answer, the one mark, the ticket's end and the log entry of the second half |
| Outcomes.TickOutcome | broker/app/services/host_status_monitor.py:30-64 | Whole: exactly the hosts that are not offline and silent for longer than the threshold go offline, with one log entry each, in order of id |
| Outcomes.CancelWhole | broker/app/api/v1/reservations.py:198-224 | Whole: row, host status and log entries of a cancellation |
| Events.QueuesSound | broker/app/services/host_events.py:29-71 | For every interleaving of publish, subscribe, take, unsubscribe and close, each queue is the latest contiguous part of what was published since it joined, at most 100 long; every earlier event was delivered or lost, never both; delivery is in order without repeats |
| Events.LostIffOverrun | broker/app/services/host_events.py:36-46 | An event is lost to a queue iff it is still queued there when the hundredth later event is published |
| Events.HostEventBroker.Publish | broker/app/services/host_events.py:29-46 | Every subscriber's queue gets the event, a full one at the price of its oldest; closed, nothing changes |
| Events.HostEventBroker.PutOrDropOldest | broker/app/services/host_events.py:37-46 | For a queue of at most 100 the second put is never refused |
| Events.HostEventBroker.Subscribe | broker/app/services/host_events.py:48-62 | A new queue starts empty and counts from what has been published |
| Events.HostEventBroker.Take | broker/app/services/host_events.py:57-59 | A subscriber gets its oldest queued event, which is removed; one that joined after closing gets none |
| Events.TakesDeliver | broker/app/services/host_events.py:57-59 | In any state an interleaving reaches, n takes in a row deliver the n oldest queued events, each once, in order and under its own number, and leave the rest |
| Events.HostEventBroker.Unsubscribe | broker/app/services/host_events.py:60-62 | The queue is gone and every other one stays |
| Events.ClosedIsSilent | broker/app/services/host_events.py:64-71 | After closing, over every continuation, nothing is published or lost; who was there takes what was queued, in order, and no more; who subscribes later is accepted and gets nothing |
| Pairing.PushPin | broker/app/services/pairing_service.py:70-161 | For every response script it goes on only after no connection, a code of 500 or more, or a 2xx that does not accept, stops at the first other response or the attempt limit and reports that attempt; the outcome is told by the last response alone, code by code; and it has slept base x (2^(k-1) - 1) by attempt k |
| Service.ValidateQuota | broker/app/services/reservation.py:134-205 | The check passes iff the rows counted and the minutes summed leave room |
| Service.SumUsedMinutes | broker/app/services/reservation.py:172-194 | The loop over the selected rows sums the clipped minutes of the user's uncancelled rows in the day |
| Service.CreateReservation | broker/app/services/reservation.py:213-260 | From well-formed tables it succeeds iff the booking must be accepted, field by field; tables and answer are those of the booking step |
| Service.CreateInstantReservation | broker/app/services/reservation.py:307-361 | The row it stores ends where an instant booking ends; tables and answer are those of the instant step |
| Service.CancelReservation | broker/app/services/reservation.py:402-430 | Succeeds iff the row exists and the caller may; the row is cancelled and keeps its user, host and bounds, its window becomes clear, every other row stays |
| Service.RevokeActiveTokens | broker/app/services/token_service.py:40-58 | The pass over the rows gives exactly the live tokens of the scope the revocation mark, leaves none of the scope live, and counts the rows it changed (a cardinality) |
| Service.IssueConnectToken | broker/app/services/token_service.py:61-118 | Gate, revocation and insert give the issue step and the revoked count |
| Service.IssueAgentToken | broker/app/services/agent_token_service.py:56-81 | Revocation and insert give the agent issue step and the revoked count |
| Service.TransitionHost | broker/app/services/host_status.py:58-97 | The host has the status afterwards and no other status changes; a log that replayed to the statuses still does; the answer says whether there was a change |
| Service.StaleRows | broker/app/services/host_status_monitor.py:38-48 | Exactly the stale hosts, in order of id, once each |
| Service.RunOneTick | broker/app/services/host_status_monitor.py:30-64 | The loop over the selected rows is the tick step, and the count is the number of stale hosts |
| Service.ConnectEndpoint | broker/app/api/v1/reservations.py:292-325 | Commits the connect step, or leaves the tables as they were |
| Service.InstantEndpoint | broker/app/api/v1/reservations.py:99-142 | Booking, token, audit and status together, or nothing |
| Service.CancelEndpoint | broker/app/api/v1/reservations.py:198-224 | After a success the row is cancelled and its host IN_USE iff it was and a confirmed reservation covers now; no other status changes; the log still replays |
| Service.HeartbeatEndpoint | broker/app/api/v1/agents.py:36-73 | An accepted heartbeat stamps the host its token speaks for, gives it the status the report stands for and changes no other; a refused one changes nothing; the log still replays |
| Service.RotateAgentToken | broker/app/api/v1/hosts.py:180-198 | The admin's rotation step, or nothing |
| Service.RegisterHost | broker/app/api/v1/hosts.py:138-177 | A new offline host with its first agent token, or nothing |
| Service.VerifyTokenSelect | broker/app/services/token_service.py:121-138 | Succeeds iff a usable connect token answers to the raw token; remembers it for this request alone, changes no token, and keeps the requests in flight valid |
| Service.MarkTokenConsumed | broker/app/services/token_service.py:141-159 | Succeeds iff the token is live and leaves it not live, so a second call fails; only that row changes, and only its mark |
| Service.VerifyTokenFinish | broker/app/api/v1/tokens.py:44-94 | Answers a consuming request yes iff its token is live, and never twice; changes no token otherwise; keeps the invariants of one-time consumption |

## Left out

- Quotas.HeldPerDay: assumes that the rows meeting the day used its offset; Quotas.HeldByOffsets and Quotas.HeldAnyOffsets are the bounds without that.
- Quotas.PlainDailyLimit: goes one way; the exact condition, booking by booking and for any offset, is Quotas.DailyLimitKeptIff.
- HostRuns.FailureDetected: assumes that ticks come at most one interval apart; the loop that schedules them is not part of this model.
- Calendar.BuildMatrix: takes the query's rows as a parameter, in any order, and reads hosts in order of id.
- Drag.CommittedDragIsFree: the calendar begins and ends on the UTC grid, as the front end's days do: it stamps every request +09:00 (frontend/src/lib/time.ts:78-81).
- Drag.CommittedDragBooks: requires that the matrix at mouse-up is that of the current state; the one at mouse-down may be any.
- The setting for the slot length: fixed at its default of 30 minutes, which the instant window, the front end and the host query assume anyway.
- Clock readings: one per transaction in the state machine. Only the verify request, and in `Interleaving` the booking, are more than one step; the second reading of the instant endpoint is a lemma about its gate.
- SHA-256 and random tokens: a digest is a free constructor, and a repeated raw token is the error of the unique column.
- Float metrics and backoff: real numbers.
- Hostnames, addresses, metadata, gauges and log lines of the host calls; the uniqueness of hostnames.
- Publishing of status events from a transition: the fan-out is modelled by itself, and starts from an arbitrary sequence of publishes.
- A cancelled reservation's connect token stays live; the code revokes none, so no lemma says otherwise.
- Login and logout are steps on values, without a method of their own, and only as far as they share the token table; identity providers, user rows, session lookup, middleware and error mapping are not part of this model.
- Reading endpoints without logic (list and get of reservations and hosts): they add only easy members.
- The wiring of the pairing endpoint around the PIN relay; the token and body of its HTTP request.
- React rendering and keyboard paths of the calendar, time formatting, and the host agent package.
- Cleanup, grace and termination policies that the repository only plans; COMPLETED is never set by any step.
