# multiplayer-painting: the replicated drawing state, in Dafny

This project models the core of multiplayer-painting, a shared canvas. Every
participant runs a client. One participant's process also runs the server.

- **Server.** It keeps the authoritative per-player history of strokes
  (`Client{Drawing, Scribbles, Deleted}` in server.go). It changes that
  history as events arrive, and queues events for broadcast. Once per tick it
  drains the queue and writes each event, framed, to its recipients.
- **Client.** It keeps a replica of every player's strokes, with one render
  cache per stroke, and updates it from the events the server forwards. It
  batches the events its UI produces and writes them to the server.

The model is split into these modules:

- `Events` (common.go): the nine event payloads, the event envelope, pixels,
  Go's `int32` wrap-around and the slice `Append`.
- `Framing`: the 4-byte big-endian `int32` length prefix and the read loop
  over a byte stream, including how it stops.
- `SessionStore` (server.go): `NewClient`, `SHandleReceivedEvents` and the
  tick of `SendEvent`, as a `Server` class whose methods update the store in
  place. Each method is tied to the value-level function `Receive`.
- `SessionProperties`: what the server's handlers promise. This covers single
  events, runs of events (`Run`, `Emitted`), undo and redo, whole strokes,
  routing, and the read-back of what a tick writes.
- `Replica` (client.go): `NewCache`, `NewPlayer` and `CHandleReceivedEvents`,
  as `Cache`, `Player` and `Client` classes. Each `Player` method is tied to
  the value-level `PlayerStep`.
- `Replication`: a client replica that handles what the server forwards ends
  up holding the server's strokes. This holds for a client present from the
  start and for one that joins late.
- `Sender` (client.go): the batching rule of `CSendEvent` and the write
  order of `HandleEvent`. It includes the stream round trip from a client's
  flush to the server's read loop.
- `Paint` (paint.go): the per-frame input handling. This is the stroke event
  of `HandlePainting`, the undo/redo and pencil-size keys of `Input`, the
  `Empty` flag of `GetCache` and `GetMinAndMax`.
- `Board` (client_types.go): `NewBoardClient`, `EnqueueEvent` and the draw
  layer counter of `BoardClient.NewCache`.

Some outside effects are modelled as parameters:

- gob's `Encode` is a function parameter. It is total on the server, whose
  error is discarded. On the client it returns `Option`, and a failure there
  is a panic.
- A failed write is a set of connections (`failed`).
- Go's map iteration order is chosen by `IterationOrder`.
- raylib's `LoadRenderTexture` result is a parameter of `GetCache`.

Float32 coordinates and radii are `real`, since the modelled code only
compares and copies them.

The client's `Redo` sets the player's drawing flag (client.go:175). The
server's `Redo` (server.go:194-208) does not touch the session's flag, and the
model follows the code on both sides. `SessionProperties.RedoRestoresTopStroke`
states that the server's flag is unchanged, and `Replication.StepMirrored`
states that the two flags agree after every kind except `Redo`.

## Model

| member | source | states |
|---|---|---|
| Events.Wrap32 | server.go:129 | `int32` overflow (as in `atomic.AddInt32`) is congruent to the exact sum modulo 2^32, and is the exact sum whenever that fits in `int32` |
| Events.Append | common.go:118-120 | the new slice is one longer, ends in the appended value, and keeps every earlier element |
| Events.AppendToLast | server.go:180-183 | with at least one stroke, only the last stroke changes, and the pixel is appended to it; with none, the list is unchanged |
| Events.DropLast | server.go:190 | dropping the last element and appending it again gives back the original; an empty slice stays empty |
| Framing.EncodeLength | server.go:233-239 | the length prefix is exactly 4 bytes |
| Framing.BigEndian | server.go:95 | four bytes read most significant first give a value in [0, 2^32) |
| Framing.DecodeLength | server.go:94-95 | the `int32` read is the two's-complement reading of the four bytes: congruent to their unsigned value, and negative exactly when the first byte's top bit is set |
| Framing.LengthRoundTrip | server.go:94-95 | decoding an encoded length gives back `int32(n)`, and gives back `n` itself for every length up to MaxInt32 |
| Framing.LengthBytesRoundTrip | server.go:94-95 | every 4-byte prefix is the encoding of the `int32` it decodes to |
| Framing.Frame | server.go:233-242 | a frame is the 4-byte prefix followed by exactly the payload |
| Framing.ReadFrame | server.go:93-108 | a successful read consumes a prefix announcing the payload's length, then the payload, then leaves a strictly shorter rest |
| Framing.ReadFrames | server.go:93-108 | the read loop consumes a prefix of the stream that is exactly the framing of the payloads it hands on; it stops cleanly only when nothing else is on the stream |
| Framing.FrameRoundTrip | server.go:93-108 | a frame for a payload of at most MaxInt32 bytes reads back as that payload, leaving what followed |
| Framing.OversizedFrameRejected | server.go:100-102 | a payload longer than MaxInt32 bytes and shorter than 2^32 bytes announces a negative `int32` length, and the read loop stops there |
| Framing.FramesRoundTrip | server.go:93-108 | a stream of frames reads back as the same payloads, in order, then stops at a clean end of stream |
| Framing.FramesAppend | server.go:232-242 | framing two batches of payloads gives the two framed streams back to back |
| SessionStore.NewClient | server.go:45-53 | a fresh session is not drawing and has no strokes and nothing undone |
| SessionStore.SessionStep | server.go:161-208 | a per-player handler forwards at most one per-player event of the sender; it forwards nothing exactly when there is nothing to undo or redo, and then leaves the session as it was; no stroke is ever lost, since only `Started` adds one and undo and redo move one between the stacks |
| SessionStore.Replay | server.go:139-150 | one `Joined` per session in iteration order, each carrying that session's id, flag and strokes, tagged with the requester's id and kind; the strokes are a snapshot taken when the `Joined` is handled (the intended behaviour; see Findings) |
| SessionStore.HaltAt | server.go:236-241 | the scheduler handles at most every drained event |
| SessionStore.HaltAtFirst | server.go:236-241 | the scheduler stops exactly at the first `Pong` whose prefix write fails, and handles every event before it |
| SessionStore.DeliveredTo | server.go:235-305 | a connection whose write fails gets nothing; a `Ping` goes to nobody; a `Pong` to no one but its addressee; every other kind to every working connection |
| SessionStore.Receive | server.go:124-212 | the connection is closed exactly for a per-player event from an id with no session, and then nothing changes; only `Ping` moves the counter and opens a connection |
| SessionStore.WrittenIsFrames | server.go:232-305 | the bytes written to a connection in a tick are exactly its delivered payloads, each framed, in queue order |
| SessionStore.IterationOrder | server.go:139 | `range clients` visits every key exactly once, in some order |
| SessionStore.Server.constructor | server.go:55-57 | the id counter is 0, there are no sessions, nothing is queued and nothing is written |
| SessionStore.Server.HandleReceived | server.go:124-212 | the new state and outcome are `Receive` of the old state; the `Joined` iteration order covers every session exactly once; every session has a connection and every queued `Pong` has an addressee |
| SessionStore.Server.OnPing | server.go:127-135 | the counter advances by one (wrapping as `int32`); a new session is registered under the new id; one `Pong` addressed to it is queued |
| SessionStore.Server.HandleSessionEvent | server.go:161-208 | the new state and outcome of a per-player event are `Receive` of the old state: a missing session closes the connection and changes nothing |
| SessionStore.Server.UpdateSession | server.go:161-208 | a per-player event for a known session replaces only that session, by `SessionStep`'s next value, and queues what `SessionStep` forwards |
| SessionStore.Server.OnJoined | server.go:137-150 | the `Joined` handler's iteration order covers every session exactly once, and the state after it is `Receive` of the old state |
| SessionStore.Server.OnLeft | server.go:151-157 | `Left` queues the event for everyone and changes nothing else, as `Receive` says |
| SessionStore.Server.OnStarted | server.go:161-169 | the session starts drawing with one empty stroke appended, and `Started` is queued |
| SessionStore.Server.OnDone | server.go:170-177 | the session stops drawing, and `Done` is queued |
| SessionStore.Server.OnDrawing | server.go:178-184 | the pixel goes onto the last stroke if there is one, and the event is forwarded in both cases |
| SessionStore.Server.OnUndo | server.go:185-193 | the last stroke moves onto the deleted stack and the event is forwarded; with no stroke, nothing changes and nothing is queued |
| SessionStore.Server.OnRedo | server.go:194-208 | the top of the deleted stack moves back onto the strokes, and a `Redo` carrying it is queued; with an empty stack, nothing changes and nothing is queued |
| SessionStore.Server.EnqueueReplay | server.go:139-150 | the `Joined` loop queues `Replay`'s events after what was queued before |
| SessionStore.Server.Broadcast | server.go:245-251 | the frame is appended to every connection whose write succeeds, and to no other |
| SessionStore.Server.Deliver | server.go:233-305 | a `Pong` is written to its addressee only, and a failed prefix write stops the scheduler; every other registered kind goes to every session; a `Ping` goes to nobody |
| SessionStore.Server.Tick | server.go:218-309 | once per tick the queue is drained and emptied; each connection gets the frames of the events delivered to it, in queue order, up to where the scheduler stops; after it stops, nothing changes; each event is encoded as it was queued |
| SessionStore.Server.DeliverAll | server.go:232-309 | events are delivered in queue order until the first that stops the scheduler |
| SessionProperties.RunAppend | server.go:124-212 | handling two batches of per-player events in turn is handling their concatenation |
| SessionProperties.EmittedAppend | server.go:124-212 | what a concatenation queues is what the first batch queues, then what the second queues from the state the first left |
| SessionProperties.RunOne | server.go:124-212 | a run of one event is one handler step |
| SessionProperties.PingRegistersNewClient | server.go:127-135 | `Ping` registers a fresh session under `old id + 1` below MaxInt32 and queues exactly one `Pong` for it; with every id at or below the counter, the new id was never used |
| SessionProperties.InitialIdsBelowCounter | server.go:55-56 | the initial view, with the counter at zero and no sessions, has every id at most the counter |
| SessionProperties.ReceiveKeepsIdsBelowCounter | server.go:127-135 | below MaxInt32, every received event keeps every session id at most the counter, and only `Ping` advances the counter, by one |
| SessionProperties.ReachableIdsBelowCounter | server.go:127-135 | after fewer than MaxInt32 `Ping`s from the initial view, the counter equals the number of `Ping`s and every session id is at most it |
| SessionProperties.PongReachesAddressee | server.go:236-242 | a `Pong` is delivered to its addressee whenever that write has not failed |
| SessionProperties.ReceiveChangesOnlySender | server.go:124-212 | receiving an event never removes a session, only appends to the queue, and changes no session but the sender's (or the new one for `Ping`); `Left` leaves the sessions as they are and queues exactly one `Left` from the sender (server.go:151-157) |
| SessionProperties.JoinedReplaysEverySession | server.go:137-150 | `Joined` leaves the store unchanged and queues exactly one `Joined` per session, carrying that session's id, flag and strokes, tagged with the requester's id and kind; like every event but `Pong`, these are broadcast to every session (server.go:243-251) |
| SessionProperties.StartedOpensStroke | server.go:161-169 | `Started` sets the flag and appends one empty stroke; earlier strokes and the deleted stack are unchanged |
| SessionProperties.DoneClosesStroke | server.go:170-177 | `Done` clears the flag, changes nothing else, and is forwarded |
| SessionProperties.DrawingExtendsLastStroke | server.go:178-184 | `Drawing` appends the pixel to the last stroke only, or changes nothing with no stroke, and is forwarded either way |
| SessionProperties.UndoMovesLastStroke | server.go:185-193 | `Undo` moves the last stroke onto the deleted stack, keeping the total number of strokes; with no stroke it is a no-op and queues nothing |
| SessionProperties.RedoRestoresTopStroke | server.go:194-208 | `Redo` moves the top of the deleted stack back, keeping the total, and queues a `Redo` carrying exactly that stroke; the flag is not touched |
| SessionProperties.UndoRedoInverse | server.go:185-208 | `Undo` then `Redo` restores the session when there is a stroke, and `Redo` then `Undo` restores it when there is something undone |
| SessionProperties.UndoRedoNested | server.go:185-208 | `n` undos followed, as a separate run, by `n` redos restore the session, for any `n` up to the number of strokes |
| SessionProperties.UndoRedoMany | server.go:185-208 | `n` undos then `n` redos in one run restore the session |
| SessionProperties.Drawings | server.go:178-184 | one `Drawing` event per pixel of a stroke, in order |
| SessionProperties.DrawingsExtendLast | server.go:178-184 | a run of `Drawing` events extends the last stroke by their pixels, in order, and changes nothing else |
| SessionProperties.DrawingsForwarded | server.go:184 | every `Drawing` event is forwarded as received, whatever the session holds |
| SessionProperties.StrokeRecorded | server.go:161-184 | a whole gesture (`Started`, one `Drawing` per pixel, `Done`) records exactly that stroke after the earlier ones, ends not drawing, and is echoed event for event |
| SessionProperties.SameStreamForAll | server.go:243-305 | when no `Pong` is queued, every connection whose writes succeed receives the same bytes |
| SessionProperties.PongOnlyToAddressee | server.go:236-242 | a `Pong` adds nothing to any connection but its addressee's |
| SessionProperties.ConnectionReadsBack | client.go:50-62 | the client's read loop gets back exactly the payloads the server delivered to it, in queue order |
| Replica.Cache.constructor | client.go:80-86 | a new cache is being drawn into, holds nothing rendered and has the zero texture |
| Replica.PlayerStep | client.go:136-175 | a per-player event changes only the strokes, their cache count and the drawing flag; the flag is set by `Started` and `Redo`, cleared by `Done`, and kept otherwise; `Started` and `Redo` add one stroke, `Undo` removes one when there is one |
| Replica.DoneAsWritten | client.go:143-147 | `Done` as written fails exactly when the player has no cache, and otherwise agrees with the guarded step |
| Replica.JoinedPlayer | client.go:123-130 | a player built from `Joined` has one cache per stroke and is marked just joined |
| Replica.Player.constructor | client.go:96-104 | `NewPlayer(id)` has the given id, both flags off, no strokes and no caches |
| Replica.Player.Apply | client.go:136-175 | each per-player event gives `PlayerStep` of the old value; `Started` and `Redo` add a fresh drawing cache; `Done` ends drawing into the last cache and leaves its `Empty` flag and texture as they were; `Undo` drops the last cache |
| Replica.Player.OpenStroke | client.go:136-175 | `Started` and `Redo` give `PlayerStep` of the old value, keep the earlier caches and append a fresh cache that is being drawn into and empty |
| Replica.Player.EndStroke | client.go:143-147 | `Done` gives `PlayerStep` of the old value, and the last cache stops being drawn into, keeping its `Empty` flag and texture |
| Replica.Player.ExtendStroke | client.go:148-154 | `Drawing` gives `PlayerStep` of the old value |
| Replica.Player.DropStroke | client.go:155-167 | `Undo` gives `PlayerStep` of the old value and drops the last cache, if any |
| Replica.Client.constructor | client.go:15-18 | there are no players, `me` is `NewPlayer(0)`, and nothing is changed or queued |
| Replica.Client.HandleReceived | client.go:106-179 | `Pong` adopts the id and queues one `Joined` about `me`; `Joined` follows `JoinedHandled`; `Left` and `Ping` change nothing; a per-player event for a known player is its `PlayerStep` (with the guarded `Done` that marks the last cache only when there is one, the corrected behaviour of the Findings row for client.go:143-147), and for an unknown player is a crash; `Started` and `Redo` keep the old caches and append a fresh, drawing, empty one, `Undo` drops the last cache, `Drawing` keeps the list, and `Done` keeps the list and changes only the last cache's drawing flag; a `Joined` for another id binds a fresh player whose caches are fresh, drawing, empty and blank; `me` changes only for `Pong` or when `me` is the named player, and every other player keeps its object and value |
| Replica.Client.OnPong | client.go:108-115 | `me` takes the id the server gave, and one `Joined` about it is queued |
| Replica.Client.OnPlayerEvent | client.go:136-175 | the named player's value becomes its `PlayerStep`, the redraw flag is updated; `Started` and `Redo` keep the old caches and append a fresh, drawing, empty one, `Undo` drops the last cache, `Drawing` keeps the list, and `Done` keeps the list and changes only the last cache's drawing flag |
| Replica.Client.OnJoined | client.go:116-132 | `Joined` for `me`'s id binds `me` without a new player; for another id it creates a fresh player with the event's flag and strokes, marked just joined, with one fresh cache per stroke |
| Replica.PlayerStepBalanced | client.go:136-175 | every per-player event keeps exactly one cache per stroke |
| Replica.StartedOpensStroke | client.go:136-142 | `Started` sets the flag and appends one empty stroke with one cache |
| Replica.DrawingExtendsLastStroke | client.go:148-154 | `Drawing` appends the pixel to the last stroke if there is one, else leaves the strokes unchanged |
| Replica.UndoRedoOnReplica | client.go:155-175 | `Undo` truncates the last stroke and cache and never fails on empty lists; `Redo` appends the carried stroke and a cache and sets the flag; `Undo` after `Redo` restores the strokes |
| Replica.UndoneStrokeCrashesDone | client.go:143-147 | a counterexample: `Started`, `Undo`, then `Done` leaves no cache for `Done` as written to index |
| Replica.DoneEndsStroke | client.go:143-147 | the guarded `Done` clears the flag and keeps strokes and caches, whatever the player holds |
| Replication.MirrorAppend | client.go:106-179 | handling two batches in turn on the client is handling their concatenation |
| Replication.StepForwardsSessionEvents | server.go:161-208 | each per-player handler forwards at most one event, itself per-player |
| Replication.StepMirrored | client.go:136-175 | for one event, a replica holding the session's strokes holds the new strokes after handling what the server forwards; it keeps one cache per stroke, and its flag stays in step except after `Redo` |
| Replication.Convergence | client.go:106-179 | for any run of one player's events, a replica that started with the session's strokes and handles what the server forwards, with the guarded `Done` of `Replica.PlayerStep`, ends with the session's strokes, one cache each |
| Replication.JoinCatchUp | client.go:116-132 | each replayed `Joined` builds a player holding exactly the session's flag and strokes |
| Replication.LateJoinerConverges | client.go:116-132 | a late joiner that builds a player from the snapshot replay, then handles everything forwarded afterwards with the guarded `Done` of `Replica.PlayerStep`, holds the session's strokes |
| Replication.ReplayAsWritten | server.go:141-148 | the replayed `Joined` as the tick encodes it when the session only receives `Drawing`s in between: the flag as queued, the strokes as they are at the tick; the snapshot when nothing is drawn in between |
| Replication.AsWrittenConvergesWhenIdle | server.go:139-150 | with the replay as server.go writes it, a late joiner that handles the forwarded events with the guarded `Done` of `Replica.PlayerStep` converges when the player draws nothing between the `Joined` and the tick that encodes the replay |
| Replication.MirrorDrawings | client.go:148-154 | a client handling a run of `Drawing`s extends its last stroke by their pixels, in order |
| Replication.SourceReplayDiverges | server.go:182 | as written, when the joined player holds a stroke and draws before the tick, the replay already carries the new pixels, which are then forwarded again: the joiner's last stroke holds them twice and differs from the session's |
| Sender.Encodable | client.go:208-213 | the encodable prefix of a batch ends exactly at the first event whose encoding fails |
| Sender.Sender.constructor | client.go:185 | nothing is batched, nothing is written, and nothing has failed |
| Sender.Sender.HandleEvent | client.go:208-245 | the length prefix is written, then the payload for every kind that has a sending case, then `wg.Done()` for `Left`; an encoding failure writes nothing |
| Sender.Sender.Flush | client.go:191-196 | every batched event is handled in enqueue order and the batch is left empty; a failed encoding stops the sender at that event |
| Sender.Sender.Receive | client.go:188-197 | each received event is appended at the end, and the batch is flushed exactly when it exceeds 50 events |
| Sender.Sender.OnTick | client.go:198-204 | on a tick the batch is flushed if it is non-empty, and nothing happens otherwise |
| Sender.Emit | client.go:214-245 | the length prefix always comes first; the payload follows for every kind the client enqueues (all but `Ping` and `Pong`); `wg.Done()` is signalled for `Left` only, after its payload |
| Sender.TraceIsFrames | client.go:191-196 | for client events, the bytes a flush writes are the payloads, each framed, in order |
| Sender.EmitFrame | client.go:214-245 | one client event writes exactly its frame |
| Sender.FlushReadBack | server.go:93-108 | the server's read loop reads a client's flushed bytes back as exactly the payloads, in enqueue order |
| Sender.PrefixOnlyForPingPong | client.go:220-244 | `Ping` and `Pong` have no sending case, so only their prefix is written |
| Paint.GetMinAndMax | paint.go:394-412 | the result contains the pixel's centre, only widens the box, and leaves Z untouched |
| Paint.GetMinAndMaxLeast | paint.go:394-412 | any box holding the old box and the pixel holds the result: it is the least such box |
| Paint.GetMinAndMaxInside | paint.go:394-412 | a pixel already inside leaves the box unchanged |
| Paint.GetMinAndMaxIdempotent | paint.go:394-412 | widening twice by the same pixel is widening once |
| Paint.PaintEvent | paint.go:252-285 | the frame's event is `Started` exactly when the button is down and `me` is not drawing; `Drawing` with the new pixel exactly when the button is down, `me` is drawing and the position moved; `Done` exactly when the button is up while drawing; otherwise none |
| Paint.PaintingFollowsButton | paint.go:252-285 | once the frame's event is echoed back, `me`'s drawing flag equals the button state |
| Paint.ServerFollowsButton | paint.go:252-285 | the server's session flag, after the frame's event, equals the button state when it was in step with the client |
| Paint.HeldStillSendsOnce | paint.go:266-275 | a mouse held still sends one `Drawing` and then nothing |
| Paint.KeyEvents | paint.go:110-124 | U sends `Undo` and R sends `Redo` with no pixels, in that order, both tagged with `me`'s id |
| Paint.UndoRedoKeysRestore | paint.go:110-124 | U and R in the same frame leave the session as it was, and the server forwards the undo and then a redo carrying the undone stroke |
| Paint.Painter.constructor | paint.go:14-22 | the last mouse position is the origin, the pencil size is 10 and the colour is black |
| Paint.Painter.HandlePainting | paint.go:252-285 | the channel gets `PaintEvent`'s event for `me`; the position is remembered exactly when a `Drawing` is sent |
| Paint.Painter.UndoRedoKeys | paint.go:110-124 | the channel gets `KeyEvents` for `me` |
| Paint.Painter.PencilKeys | paint.go:102-108 | `=` grows the pencil by one; `-` shrinks it by one only while above one, so it never drops below one |
| Paint.GetCache | paint.go:317-331 | no cache exactly when the player has none; otherwise the indexed cache, no longer empty, given the loaded texture the first time and left as it was after |
| Board.LayeredCache.constructor | client_types.go:103-108 | a new cache is being drawn into, empty, on the given layer |
| Board.NextLayer | client_types.go:102 | the counter advances by one, and wraps to the least `int32` after MaxInt32 |
| Board.CounterAdvances | client_types.go:101-109 | after `n` caches, the counter has moved up by exactly `n` while below MaxInt32 |
| Board.IssuedIncreasing | client_types.go:101-109 | successive caches get strictly increasing, hence distinct, layer indices, each one more than the last, while below MaxInt32 |
| Board.LayerIndexWraps | client_types.go:102 | past MaxInt32 the next layer index is lower than the last |
| Board.BoardClient.constructor | client_types.go:21-30 | no players, `me` is `NewPlayer(0)`, nothing to send, no caches, and a counter of zero |
| Board.BoardClient.EnqueueEvent | client_types.go:32-38 | the channel gets exactly the event the arguments describe |
| Board.BoardClient.NewCache | client_types.go:101-109 | the counter advances by one, and the returned fresh cache is on the new layer, being drawn into and empty |

## Left out

- Sockets, goroutines and channel blocking are left out. `net.Listen`, `Accept` and `Dial`, the `go` statements and `time.Ticker` timing are I/O and concurrency. Queues are sequences, and a tick or flush is an explicit method call.
- Once the scheduler returns, the server's event channel blocks every reader goroutine. The model only records `halted`, and later ticks do nothing.
- gob's `Encode` and `Decode` (common.go:84-98) are a foreign library. `Encode` is a function parameter, and no decode round trip is claimed. Only the framing is proved.
- Payload writes (`conn.Write`) whose errors the code ignores are taken to succeed. Only prefix-write failures are modelled.
- The client's connect-time `Ping` frame (client.go:27-39) is one `Frame`. Its panic on a failed prefix write is not modelled.
- The client panics when a prefix write fails (client.go:214-218) or a frame cannot be read (client.go:50-66). That is process exit, and it is not modelled.
- Rendering is not modelled: `DrawBoard`, `DrawIfChanged`, `DrawScribble`, `DrawCache`, the texture contents of `GetCache`, and ui.go.
- `IsMouseClickOnScribble`, `Interpolate` and the `atan2` colour picker (paint.go:287-392) are floating-point hit-testing.
- The `D` debug key (paint.go:127-129) prints, or panics when `me` has no strokes.
- The `wg` shutdown barrier is a synchronisation concern. It is modelled only as the `WgDone` output of `HandleEvent`.
- The unsynchronised shared `clients` map and byte counter are data races, not logic.
- `Tick`, `prettySIByteSize` and the loggers only produce output.
- test.go is a concurrency demo.
- Sessions are keyed by id. Each session's connection is the `wire` entry under the same id, and the server does not keep a connection value.
- Nil pixel pointers in `DrawingEvent` and `RedoEvent` are not modelled: a pixel is a value.
- `SessionStore.Replay` queues a snapshot of each session's strokes. In server.go:141-148 the queued `JoinedEvent` shares the session's stroke slice, and gob encodes it only at the tick (server.go:232-233). The model follows the evidently intended snapshot (see Findings). `Replication.ReplayAsWritten` models the code only for the case where the player sends `Drawing`s in between. After a `Started`, `Undo` or `Redo` in between, what the tick encodes depends on the slice's capacity, and that is not modelled.
- `SessionStore.Server.Tick` encodes each queued event as it was queued, so it does not capture the shared stroke slice of a replayed `Joined` described above.
- `Replication.LateJoinerConverges` and `Replication.Convergence` hold for the snapshot replay. Every client rebuilds a player from a broadcast `Joined`, so with server.go's replay as written they hold when the player draws nothing between the `Joined` and the tick that sends the replay (`Replication.AsWrittenConvergesWhenIdle`). `Replication.SourceReplayDiverges` shows that they fail otherwise. All three replicas handle the forwarded events with the guarded `Done` of `Replica.PlayerStep`: with client.go's unguarded `Done`, a run such as `Started`, `Undo`, `Done` panics the replica instead (`Replica.UndoneStrokeCrashesDone`, the client.go:143-147 Findings row), so none of them holds for client.go as written on such runs.
- `Paint.GetCache` requires a valid index when the player has caches. Its callers (paint.go:172, 185) pass `len-1` or a loop index; an index out of range would be a panic.
- `Paint.Painter.PencilKeys` models `pixelSize` as an unbounded integer. It starts at 10 and moves by one, so it is exact up to 2^24. The model does not capture float32 saturation past 2^24, where adding one no longer changes the value.
- `SessionProperties.PingRegistersNewClient` proves that a new id is unused only while the counter is below MaxInt32, and only for a view where every id is at most the counter (`IdsBelowCounter`). `SessionProperties.InitialIdsBelowCounter`, `ReceiveKeepsIdsBelowCounter` and `ReachableIdsBelowCounter` show that every view reached from the initial one satisfies that hypothesis, through fewer than MaxInt32 connections. Past MaxInt32, `atomic.AddInt32` wraps to negative ids, and those can eventually repeat.
- `Board.IssuedIncreasing` proves that layer indices are distinct only below MaxInt32. `Board.LayerIndexWraps` shows the wrap.
- The model of client_types.go keeps its `NewPlayer` (lines 119-127) as `Replica.Player.constructor`. That version's `Scribble` is a struct carrying a bounding box, which is left out together with hit-testing.
- The `Board` (client_types.go:40-93) globals are not modelled beyond the fields that `HandlePainting` and `Input` use: `Paint.Painter`.

## Findings

| source | as written | input that shows it | evidently intended | confidence | as-written member | corrected member |
|---|---|---|---|---|---|---|
| client.go:143-147 | `Done` marks `CachedScribbles[len(CachedScribbles)-1]` with no check for an empty list | a new player draws (`Started`), presses U while still holding the mouse (`Undo`, which the server forwards because a stroke exists), then releases (`Done`): the index is -1 and every client panics | mark the last cache only when there is one, as the `Drawing` and `Undo` cases guard their indices | not executed | Replica.DoneAsWritten, Replica.UndoneStrokeCrashesDone | Replica.PlayerStep, Replica.DoneEndsStroke |
| server.go:141-148 | the replayed `JoinedEvent` carries `client.Scribbles`, a slice that shares its backing array with the live session; gob encodes it only at the tick (server.go:232-233), and a `Drawing` in between replaces the last stroke's slot in that array (server.go:182) | player Y holds one stroke s1; B sends `Joined`; Y sends `Drawing p` before the tick; the tick writes `Joined(Y, [s1+[p]])` and then `Drawing p`, so every client that rebuilds Y from the replay holds s1+[p,p] while the server holds s1+[p] | the replay is a snapshot of the strokes when the `Joined` is handled (a copy of the slice) | not executed | Replication.ReplayAsWritten, Replication.SourceReplayDiverges | SessionStore.Replay, Replication.LateJoinerConverges |
