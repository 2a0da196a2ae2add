# SimrailStationLogger: a verified model of the dashboard's state machine

SimrailStationLogger is a browser dashboard for SimRail multiplayer servers.
Once a second it polls the server's station list. For every station it keeps
a log of who has been dispatching it: each entry is the time the occupant was
first seen and the occupant, which is a player's Steam id or `"BOT"` when no
player holds the station. An entry is appended only when the occupant differs
from the last one recorded.

This project models, in Dafny:

- `data.dfy` (module `Data`): the records the dashboard receives. These are a
  server, a station with its dispatchers, and a log entry. It also holds the
  rule that picks a station's occupant: the first dispatcher, else `"BOT"`.
- `occupancy.dfy` (module `Occupancy`): the occupancy-log aggregator. `Ingest`
  is the reference definition of one `StationLoaded` batch. The lemmas prove
  its guarantees: the dedup invariant, that logs are append-only, coverage of
  the batch, which occupant comes last, when a log is left unchanged, and that
  other stations are not touched.
- `display.dfy` (module `Display`): the pure parts of the view. These are the
  list of active servers, the station filter, and the `HH:MM:SS` clock. The
  clock uses Rust's truncating `%` and `/` and `{:02}` padding.
- `dashboard.dfy` (module `Dashboard`): the `update` function. `Step` is a
  pure reducer over a `State` value. The class `Model` has the fields of the
  Rust `Model` and one method per message; each method changes the fields in
  place. Follow-up requests are returned as an `Order` value.

Time is an integer. `StationLoaded` receives the current instant as `now`.
The view receives the event's seconds since the epoch and the browser's
timezone offset in minutes as parameters.

## Model

| member | source | states |
|---|---|---|
| `Occupancy.IngestKeepsDedup` | src/main.rs:82-91 | `Ingest` folds `Observe` (create the log if missing, append unless the last occupant is the same) over the batch; if no log has two consecutive entries with the same occupant before a batch, none has afterwards |
| `Occupancy.IngestCovers` | src/main.rs:75-97 | after a batch the map's keys are the old keys plus the batch's prefixes, and every prefix in the batch has a non-empty log |
| `Occupancy.IngestAppendOnly` | src/main.rs:82-98 | each old log is a prefix of its new log; a log grows by at most one entry per batch station with its prefix; every new entry carries the batch time and the occupant of such a station |
| `Occupancy.IngestLeavesOthers` | src/main.rs:73-100 | a prefix absent from the batch is neither created nor changed |
| `Occupancy.EmptyBatchChangesNothing` | src/main.rs:74 | an empty batch leaves the logs as they were |
| `Occupancy.IngestLastOccupant` | src/main.rs:83-96 | with the occupant chosen by `Data.Occupant`, the last entry of a batch station's log names the first dispatcher's Steam id, or exactly `"BOT"` when the station has no dispatcher; it is taken from the last station in the batch with that prefix |
| `Occupancy.IngestUnchangedIff` | src/main.rs:82-91 | an existing log stays identical, original timestamps included, if and only if every batch station with its prefix finds it non-empty and ending with that station's occupant |
| `Occupancy.ReturningOccupantIsRecorded` | src/main.rs:82-91 | occupants A, B, A in three one-station batches give three entries at t1, t2 and t3 |
| `Occupancy.SameOccupantKeepsFirstTime` | src/main.rs:84-86 | the same occupant seen in two batches gives one entry, with the first timestamp |
| `Display.ActiveServers` | src/main.rs:128-132 | the selector lists exactly the active servers of the list, and no more entries than the list has |
| `Display.ActiveServersAppend` | src/main.rs:128-132 | the list of a concatenation is the concatenation of the lists, so listed order and repeats are kept |
| `Display.ActiveServersOne` | src/main.rs:131 | a single server is listed once if it is active and not at all otherwise |
| `Display.VisibleLogs` | src/main.rs:143 | a station is rendered iff the filter is empty or equals its prefix, and it is rendered with its whole log |
| `Display.VisibleLogsCount` | src/main.rs:143 | an empty filter renders every station; any other filter renders at most the one station it names |
| `Display.TruncRem` | src/main.rs:151 | the `i64` remainder: its magnitude is below the divisor and its sign follows the dividend |
| `Display.TruncRemLeavesMultiple` | src/main.rs:151-152 | the dividend minus the truncating remainder is a multiple of the divisor, so `(d - s) / 60` is exact |
| `Display.TruncDiv` | src/main.rs:152 | the `i64` quotient: quotient times divisor plus the truncating remainder gives back the dividend |
| `Display.WallClockOfDay` | src/main.rs:150-155 | `WallClock` splits local seconds with `TruncRem`/`TruncDiv` as the source does; for local seconds `d >= 0`: `0 <= h < 24`, `0 <= m < 60`, `0 <= s < 60` and `h*3600 + m*60 + s == d % 86400` |
| `Display.WallClockIsOdd` | src/main.rs:151-155 | negating the local seconds negates each of `h`, `m` and `s` |
| `Display.WallClockBeforeEpoch` | src/main.rs:150-155 | for `d < 0` every field is non-positive and `h*3600 + m*60 + s == -((-d) % 86400)` |
| `Display.FormatRoundTrip` | src/main.rs:156 | `Format` writes each field with `Pad2` (Rust's sign-aware `{:02}`); two-digit fields print as eight characters `HH:MM:SS`, and these parse back to the same fields |
| `Display.ShownTimeOfDay` | src/main.rs:149-156 | `ShownTime` subtracts the offset (`LocalSeconds`), splits and formats; for an instant not before the local epoch, the shown text is `HH:MM:SS` and reads back as the local time of day |
| `Dashboard.RunKeepsDedup` | src/main.rs:44-104 | `Step` is the reducer for one message and `Run` applies a sequence of them; any sequence of messages keeps every station log deduplicated |
| `Dashboard.SwitchIsolates` | src/main.rs:60-100 | after a `ServerChanged`, the only stations with a log are those listed by a `StationLoaded` delivered after it |
| `Dashboard.ServerLoadedSelectsFirst` | src/main.rs:49-72 | a non-empty list is stored, and the messages it queues select `list[0].server_code` whether or not it is active; they clear the logs and fetch that server's stations when the code is non-empty |
| `Dashboard.EmptyServerListPanics` | src/main.rs:50-55 | an empty list is stored and the update then panics with "no server" |
| `Dashboard.RefreshOnlyFetches` | src/main.rs:65-72 | `Refresh` leaves the state unchanged; it orders a fetch iff a server is selected, and then for that server |
| `Dashboard.ToggleDarkTwice` | src/main.rs:101 | toggling the theme twice gives back the original state |
| `Dashboard.Model.constructor` | src/main.rs:14-24 | starts with no servers, no server selected, no logs, dark theme and an empty filter |
| `Dashboard.Model.LoadServer` | src/main.rs:46-48 | orders a fetch of the server list and changes nothing |
| `Dashboard.Model.ServerLoaded` | src/main.rs:49-59 | stores the list and changes nothing else; it queues `ServerChanged(list[0].server_code)`, or panics on an empty list |
| `Dashboard.Model.ServerChanged` | src/main.rs:60-64 | empties the logs, selects the server, changes nothing else and queues `Refresh` |
| `Dashboard.Model.Refresh` | src/main.rs:65-72 | changes nothing; orders a station fetch exactly when the selected server is non-empty, and for that server |
| `Dashboard.Model.StationLoaded` | src/main.rs:73-100 | the logs become `Ingest` of the old logs, the batch and `now`; the other fields are unchanged and the dedup invariant is kept |
| `Dashboard.Model.ToggleDark` | src/main.rs:101 | flips the theme and nothing else |
| `Dashboard.Model.StationChanged` | src/main.rs:102 | sets the filter text and nothing else |
| `Dashboard.Model.Update` | src/main.rs:44-104 | each message changes the fields and returns the follow-up order exactly as the reducer `Step` describes |
| `Dashboard.LoadFirstServer` | src/main.rs:49-72 | a client of the class: a non-empty list and the messages it queues select the first server, clear the logs and end in a station fetch for a non-empty code |
| `Dashboard.ToggleTwice` | src/main.rs:101 | a client of the class: two toggles leave the model as it was |

## Left out

- Fetching is left out. `get_servers` and `get_stations` (src/main.rs:106-123) do HTTP and JSON decoding, and the `.unwrap()` on their results (src/main.rs:47, 69) is runtime plumbing. Fetches appear only as the `FetchServers` and `FetchStations(code)` orders. Their answers appear as `ServerLoaded` and `StationLoaded` messages.
- The 1000 ms `Refresh` timer and the initial `LoadServer` message from `init` (src/main.rs:15-16) are seed runtime set-up. The constructor models only the initial state.
- The message queue of the seed runtime is not modelled: messages are delivered in the order the caller passes them. `LoadFirstServer` follows one queued chain by hand.
- What happens after a `Panic` order is not modelled: in the browser the application stops.
- Clock and timezone calls (`SystemTime::now`, `duration_since`, `getTimezoneOffset`) are parameters. The source reads the clock at each append; the model stamps a whole batch with one `now`.
- Integer width in the shown time (`Display.ShownTime`, row `Display.ShownTimeOfDay`): the model takes integer seconds and an integer offset. It does not model the `f64` offset truncated to `i64`, the `u64` to `i64` cast of the seconds, or 64-bit overflow in `tz * 60` and the subtraction. Real timestamps and offsets are far from these limits.
- Iteration order of the `HashMap` (src/main.rs:140, 143) is unspecified. The rendered logs are a map and no display order is claimed.
- Stale fetch results are not rejected. `StationLoaded` carries no server tag, so a batch fetched for a previous server is ingested after a switch. The model does the same and `SwitchIsolates` counts such batches as observed.
- HTML construction in `view` is left out: styles, the station drop-down, alternating row colours and Steam profile links.
- `main` and the panic hook (src/main.rs:167-170) are left out.
- `src/data.rs` is not part of this model. The record fields (`server_code`, `server_name`, `is_active`, `prefix`, `dispatched_by`, `steam_id`) are taken from their uses in src/main.rs.
- Two behaviours are modelled as the code has them, not as one might expect. The first listed server is selected even when it is inactive (src/main.rs:52-57). A station batch is not checked against the selected server.
