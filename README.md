# Mission planner core, modelled in Dafny

This project models the two parts of the mission planner ground station that
carry real logic:

* **The offline tile server.** Its GET handler serves map tiles from an
  MBTiles archive. A request `/{zoom}/{column}/{row}` counts rows from the top
  (XYZ numbering, as the Leaflet map client does). The archive counts rows
  from the bottom (TMS numbering). The handler:
  1. strips `/` from both ends of the path and splits it on `/`;
  2. answers 404 unless there are exactly three segments;
  3. reads the segments as integers `z, x, y`;
  4. flips the row to `2^z - 1 - y`;
  5. checks that the archive file exists;
  6. binds `(z, x, flipped row)` as SQLite parameters and looks the key up;
  7. answers 200 with `image/png` and the stored bytes, or answers 404.

  The model is a pure function `TileServer.HandleGet` from the path, an
  archive-present flag and the tile table (a map) to an `Outcome`.
* **The MAVLink link monitor.** This worker thread waits once for a heartbeat
  and then starts with the link alive. It then polls the telemetry channel:
  * any message refreshes the time of last traffic;
  * a `HEARTBEAT` brings an offline link back, with a `heartbeat(True)`
    signal;
  * a `GLOBAL_POSITION_INT` is forwarded as a `gps_update` fix;
  * more than 10 s without traffic takes an alive link offline, with a
    `heartbeat(False)` signal;
  * clearing `running` ends the loop.

  The model is a class `MavlinkWorker.MavlinkGpsWorker`. It has fields
  `running`, `alive`, `lastMsgTime` and an event log `events`, and methods
  `Start`, `Step`, `Stop`, `Feed` and `Run`. Each method is proved against the pure
  session functions of module `Liveness`. The lemmas are stated about those
  functions.

Files:

* `options.dfy`: the `Option` type.
* `tile_address.dfy`: `1 << z` and the row flip.
* `path_parsing.dfy`: `str.strip`, `str.split` and `int()` on strings.
* `tile_server.dfy`: the request handler.
* `liveness.dfy`: the monitor's state machine as values.
* `mavlink_worker.dfy`: the worker class.

Where the code and the documented design disagree, the model follows the code:

* A segment that is not an integer makes `int()` raise `ValueError`. The
  handler dies before it answers, so the client gets no 404; the server logs
  the error and closes the connection. A query string (`/3/1/5?v=1`) lands in
  the last segment and takes the same path. A negative zoom raises at
  `1 << z`. A missing archive file raises `FileNotFoundError` on every request
  that gets that far, not once at startup. `StatusCode` gives no status for
  these outcomes.
* The handler checks no coordinate range. A column or row outside
  `[0, 2^z)` is flipped and looked up like any other, and misses unless the
  table holds such a key. The one limit is SQLite's: a zoom, column or
  flipped row outside the signed 64-bit range cannot be bound, and the
  handler raises `OverflowError` (outcome `KeyOverflow`, no response).
* `int()` refuses decimal text of more than 4300 digits (CPython's default
  limit; leading zeros count, underscores do not) with `ValueError`, so an
  over-long coordinate raises like any other non-integer.
* Both 404 causes send the same status. The model keeps them apart as
  `NotFound(WrongArity)` and `NotFound(NoSuchTile)`.

## Model

| member | source | states |
|---|---|---|
| TileAddress.Pow2 | mission_planner/tile_server.py:20 | `1 << z` for z >= 0: positive and larger than `z` |
| TileAddress.FlipRow | mission_planner/tile_server.py:20 | the row flip `2^z - 1 - y` keeps a row inside `[0, 2^z)` exactly when the row was inside it |
| TileAddress.FlipRowInvolution | mission_planner/tile_server.py:20 | flipping twice gives back the original row, for every zoom and every integer row |
| TileAddress.FlipRowCorners | mission_planner/tile_server.py:20 | row 0 maps to `2^z - 1` and row `2^z - 1` maps to 0 |
| TileAddress.FlipRowReversesOrder | mission_planner/tile_server.py:20 | the flip is injective and reverses the vertical order |
| TileAddress.FlipRowOnto | mission_planner/tile_server.py:20 | every row of `[0, 2^z)` is the flip of some row of `[0, 2^z)` |
| PathParsing.StripLeading | mission_planner/tile_server.py:12 | the result is a suffix of the input and does not start with the character |
| PathParsing.StripLeadingDropsOnly | mission_planner/tile_server.py:12 | everything the leading strip dropped was the stripped character |
| PathParsing.StripTrailing | mission_planner/tile_server.py:12 | the result is a prefix of the input and does not end with the character |
| PathParsing.StripTrailingDropsOnly | mission_planner/tile_server.py:12 | everything the trailing strip dropped was the stripped character |
| PathParsing.Strip | mission_planner/tile_server.py:12 | `str.strip("/")`: the result neither starts nor ends with `/` |
| PathParsing.StripIgnoresPadding | mission_planner/tile_server.py:12 | any number of copies of the character at either end make no difference to the stripped result |
| PathParsing.StripKeepsTrimmed | mission_planner/tile_server.py:12 | a string that neither starts nor ends with the character is unchanged, so stripping is idempotent |
| PathParsing.Split | mission_planner/tile_server.py:12 | `str.split("/")`: at least one part, no part contains the separator, and the parts joined with the separator give back the input |
| PathParsing.SplitJoin | mission_planner/tile_server.py:12 | splitting a join of separator-free parts gives back exactly those parts (split and join are inverse) |
| PathParsing.JoinInjective | mission_planner/tile_server.py:12 | two lists of separator-free parts with the same join are equal |
| PathParsing.ParseNat | mission_planner/tile_server.py:17 | a value exactly when the text is digits with single underscores between digits, with at most 4300 digits |
| PathParsing.ParseInt | mission_planner/tile_server.py:17 | `int()`: a value exactly when the text is an optional `+`/`-` and a numeral of at most 4300 digits; the sign decides the sign of the value |
| PathParsing.ParseZeroPadded | mission_planner/tile_server.py:17 | leading zeros keep the value, but count towards the digit limit: past 4300 digits the text is refused |
| PathParsing.ShowNat | mission_planner/tile_server.py:17 | the decimal digits written for `n` form a numeral whose value is `n` |
| PathParsing.ParseShowInt | mission_planner/tile_server.py:17 | reading the decimal text of an integer gives that integer back when it has at most 4300 digits, and is refused otherwise |
| TileServer.Segments | mission_planner/tile_server.py:12 | the segments of a path are slash-free and join back to the path stripped of outer slashes |
| TileServer.ParseRequest | mission_planner/tile_server.py:12-17 | wrong segment count, a non-integer among three segments, or the three integers read from the segments |
| TileServer.StorageKey | mission_planner/tile_server.py:20 | the archive key keeps zoom and column and holds the row whose flip is the requested row |
| TileServer.HandleGet | mission_planner/tile_server.py:11-46 | each outcome with the exact condition for it: 404 for a wrong shape, a raise for a bad integer, for a negative zoom, for a missing archive and for a key outside SQLite's 64-bit range, 200 with `image/png` and the stored blob at the flipped key when present, 404 otherwise |
| TileServer.StatusCode | mission_planner/tile_server.py:13-15 | 200 exactly for a served tile, 404 for both not-found causes, no response when the handler raised |
| TileServer.WrongArityIgnoresArchive | mission_planner/tile_server.py:12-15 | a path without exactly three segments is answered 404 whatever the archive flag and the tiles are |
| TileServer.NonIntegerRaises | mission_planner/tile_server.py:17 | a three-segment path with a non-integer segment raises and gets no 404 |
| TileServer.SlashPaddingIrrelevant | mission_planner/tile_server.py:12 | leading and trailing slashes never change the handler's outcome |
| TileServer.SlashPaddingExample | mission_planner/tile_server.py:12 | `"//3/1/5/"` and `"/3/1/5"` are handled alike |
| TileServer.ArchiveCheckedBeforeLookup | mission_planner/tile_server.py:22-23 | a well-formed request without the archive file raises, whatever the tile table holds |
| TileServer.LookupUsesFlippedKeyOnly | mission_planner/tile_server.py:20-36 | the tile table is consulted only at (zoom, column, flipped row): tables that agree there give the same outcome |
| TileServer.HitOrMiss | mission_planner/tile_server.py:28-46 | with the archive present: a raise when the flipped key is outside the 64-bit range; otherwise 200 with `image/png` and exactly the stored blob when the key is present, else 404 |
| TileServer.NotFoundCauses | mission_planner/tile_server.py:13-15 | the status is 404 exactly for a wrong shape, or for a bindable key absent from an existing archive |
| TileServer.OverflowingColumnRaises | mission_planner/tile_server.py:28-35 | a column of 2^63 makes the lookup raise, with no response, instead of missing |
| TileServer.CanonicalRequest | mission_planner/tile_server.py:11-46 | the request `/z/x/y`, with the integers written in decimal: a raise when one has more than 4300 digits or the key `(z, x, 2^z - 1 - y)` is outside the 64-bit range; otherwise that key's blob, or 404 |
| TileServer.CanonicalOutcome | mission_planner/tile_server.py:11-46 | for a path spelled canonically with readable integers and a bindable key: that key's blob, or 404 |
| TileServer.SegmentsOfThree | mission_planner/tile_server.py:12 | `"/a/b/c"` with slash-free, non-empty `a` and `c` splits into exactly `[a, b, c]` |
| TileServer.HitExample | mission_planner/tile_server.py:20-46 | with only tile (3, 1, 2) stored, `/3/1/5` is served that tile as `image/png` |
| TileServer.MissExample | mission_planner/tile_server.py:20-41 | with only tile (3, 1, 2) stored, `/3/1/0` is answered 404 |
| Liveness.Degrees | mission_planner/workers/mavlink_worker.py:46-47 | degrees from 1e-7 degree units: the result times 1e7 is the raw value |
| Liveness.Metres | mission_planner/workers/mavlink_worker.py:48 | metres from millimetres: the result times 1000 is the raw value |
| Liveness.PositionDecodeExample | mission_planner/workers/mavlink_worker.py:46-48 | lat 123456789 gives 12.3456789, lon -987654321 gives -98.7654321, 1500 mm gives 1.5 m |
| Liveness.LivenessTraceSnoc | mission_planner/workers/mavlink_worker.py:9 | appending a signal extends the `heartbeat` trace by its value exactly when it is a `heartbeat` signal |
| Liveness.ConsistentMeans | mission_planner/workers/mavlink_worker.py:30-55 | the invariant, both ways: the first `heartbeat` signal is `True`, neighbours differ, and the latest equals `alive` (with no signal, the link is not alive) |
| Liveness.Handshake | mission_planner/workers/mavlink_worker.py:28-31 | after the handshake the link is alive, last traffic is the start time, and exactly one `heartbeat(True)` is added |
| Liveness.Receive | mission_planner/workers/mavlink_worker.py:36-50 | no message changes nothing; any message sets the time of last traffic; at most one signal is appended and history is kept; only a `HEARTBEAT` can change liveness |
| Liveness.CheckTimeout | mission_planner/workers/mavlink_worker.py:52-55 | the check never revives the link, keeps the time of last traffic, and appends nothing or one `heartbeat(False)` |
| Liveness.Iterate | mission_planner/workers/mavlink_worker.py:33-57 | one iteration keeps the flag, does nothing when stopped, and appends at most two signals to an unchanged history |
| Liveness.AnyMessageRefreshes | mission_planner/workers/mavlink_worker.py:36-38 | any message, of any type, sets the time of last traffic to the time it was handled |
| Liveness.HeartbeatRevives | mission_planner/workers/mavlink_worker.py:40-43 | a `HEARTBEAT` leaves the link alive; it adds one `heartbeat(True)` when the link was offline and nothing when it was alive |
| Liveness.PositionIsForwarded | mission_planner/workers/mavlink_worker.py:45-50 | a `GLOBAL_POSITION_INT` appends one valid fix and leaves liveness as it was, so it does not revive an offline link |
| Liveness.OtherMessageOnlyRefreshes | mission_planner/workers/mavlink_worker.py:36-38 | any other message type only refreshes the time of last traffic |
| Liveness.SilenceTimesOut | mission_planner/workers/mavlink_worker.py:13 | strictly more than 10000 ms of silence takes an alive link offline with one `heartbeat(False)`; an offline link, or a silence of at most 10000 ms, is left alone |
| Liveness.MessageHoldsOffTimeout | mission_planner/workers/mavlink_worker.py:36-55 | when the timeout check runs within 10000 ms of a message handled in the same iteration, that iteration cannot take the link offline |
| Liveness.HandshakeKeepsConsistent | mission_planner/workers/mavlink_worker.py:28-31 | the handshake on a not-yet-alive link keeps the invariant |
| Liveness.ReceiveKeepsConsistent | mission_planner/workers/mavlink_worker.py:36-50 | handling a message keeps the invariant |
| Liveness.CheckTimeoutKeepsConsistent | mission_planner/workers/mavlink_worker.py:52-55 | the timeout check keeps the invariant |
| Liveness.IterateKeepsConsistent | mission_planner/workers/mavlink_worker.py:33-57 | one loop iteration keeps the invariant |
| Liveness.Stop | mission_planner/workers/mavlink_worker.py:59-60 | `stop()` clears the flag and keeps liveness, time of last traffic and the signals |
| Liveness.ReplayStep | mission_planner/workers/mavlink_worker.py:33 | a script prefix one input longer is the shorter prefix's state with that input applied |
| Liveness.ReplayAppend | mission_planner/workers/mavlink_worker.py:33 | running two scripts one after the other is running their concatenation |
| Liveness.ReplayKeepsConsistent | mission_planner/workers/mavlink_worker.py:33-57 | over any sequence of iterations and stop calls, `heartbeat` signals alternate starting with `True` and the latest equals `alive` |
| Liveness.StoppedIsFinal | mission_planner/workers/mavlink_worker.py:33 | once the flag is clear, nothing changes and no signal is appended, whatever follows |
| Liveness.MonitorLifeIsConsistent | mission_planner/workers/mavlink_worker.py:15-57 | from construction, after the handshake's single `heartbeat(True)`, any run keeps the invariant |
| Liveness.SilenceGoesOfflineOnce | mission_planner/workers/mavlink_worker.py:52-55 | under silence, an alive link goes offline with exactly one `heartbeat(False)` once a check falls after the deadline, with no repeat; otherwise nothing changes |
| Liveness.PositionTrafficDoesNotFlap | mission_planner/workers/mavlink_worker.py:36-55 | position messages, each checked within the timeout, keep liveness and the `heartbeat` trace unchanged and add one fix each |
| Liveness.ReplayKeepsRunning | mission_planner/workers/mavlink_worker.py:33 | without a stop call the loop keeps running |
| MavlinkWorker.MavlinkGpsWorker.constructor | mission_planner/workers/mavlink_worker.py:15-18 | `__init__` stores the port and sets `running`; nothing is alive or emitted yet |
| MavlinkWorker.MavlinkGpsWorker.Start | mission_planner/workers/mavlink_worker.py:28-31 | the post-handshake start, as `Handshake`, keeping the invariant |
| MavlinkWorker.MavlinkGpsWorker.Step | mission_planner/workers/mavlink_worker.py:33-57 | one loop test and body, updating the fields in place exactly as `Iterate`, keeping the invariant |
| MavlinkWorker.MavlinkGpsWorker.Stop | mission_planner/workers/mavlink_worker.py:59-60 | `stop()` may write only `running`, and clears it |
| MavlinkWorker.MavlinkGpsWorker.Feed | mission_planner/workers/mavlink_worker.py:33-60 | one script input: a loop iteration or a `stop()` call, keeping the invariant; the new state is that input applied to the old one |
| MavlinkWorker.MavlinkGpsWorker.Run | mission_planner/workers/mavlink_worker.py:20-57 | handshake then the poll loop until the flag is seen clear; the final state is the replay of the whole script after the handshake, and the invariant holds |

## Left out

- The HTTP transport: `run()`, `HTTPServer` on 127.0.0.1:8000, `send_error`'s HTML body, headers and `wfile`. The model keeps only which answer is given. The server's logging of a raised exception is out too.
- The SQLite connection and cursor. The `tiles` table is a map from key to blob, and file existence is a flag. Duplicate keys (`fetchone` takes the first row) and a NULL `tile_data` (which would raise after the 200 is sent) are not modelled.
- PathParsing.ParseInt: Python's `int()` also accepts surrounding whitespace and non-ASCII decimal digits; the model does not. `http.server` splits the request line on whitespace and decodes it as Latin-1, so neither reaches the handler. The 4300-digit limit is CPython's default; a limit changed with `sys.set_int_max_str_digits` or `PYTHONINTMAXSTRDIGITS`, and older interpreters without a limit, are not modelled.
- TileServer.HandleGet: computes `2^z` exactly for every zoom. In the source a zoom so large that `1 << z` cannot be held in memory raises `MemoryError` (or `OverflowError`) before the archive check. Where that happens depends on the machine.
- `pymavlink`: opening the connection, the blocking `wait_heartbeat` and `recv_match`. The caller supplies each iteration's message as an `Option<Msg>`, and `Start` stands for the point after the handshake returned.
- Clocks and sleeping: `time.time()`, `time.sleep(0.05)` and `datetime.now().strftime`. Each iteration carries the two clock readings (when a message is handled, when the timeout is checked) as integer milliseconds, plus the stamp text as an uninterpreted string. Time in whole milliseconds stands in for float seconds.
- Liveness.Degrees: exact division of reals, where the source divides floats (`/ 1e7`, `/ 1000.0`). The same applies to Liveness.Metres. Rounding is not modelled.
- Qt threading and signals: `pyqtSignal` delivery across threads is an append to `events`. `stop()` from the GUI thread takes effect only between iterations, as a `StopCall` in the script given to `Run`. A write to `running` in the middle of an iteration is not modelled.
- MavlinkWorker.MavlinkGpsWorker.Start: requires that the worker has not started, so `run()` happens once per worker. The source does not guard a second `run()`.
- The GUI (`mission_planner/ui/main_window.py`) and the application bootstrap (`mission_planner/__main__.py`) are not part of this model.
