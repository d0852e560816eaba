# go-game-explorer, modelled in Dafny

go-game-explorer is a small Go web server. It keeps an in-memory catalog of
free-to-play games fetched from an upstream JSON API and refreshes that
catalog every hour. Over a server-sent event stream it pushes one randomly
chosen game to each connected browser: one at once, then one every three
seconds until the browser goes away. A stats endpoint reports the catalog
size.

This project models the logic of `main.go` that can be stated without
real I/O or concurrency, in four modules:

- `Catalog` (catalog.dfy) holds the `Game` record and the `GameStore` class.
  The class's `games` field is replaced wholesale by `SetGames` and read by
  `GetRandom` and `Count`. The random index is a nondeterministic choice in
  `[0, |games|)`.
- `Refresh` (refresh.dfy) models `fetchGames` and the calls to it at
  startup and from the hourly refresher.
  - The outcome of the HTTP request is an input: `Ok(body)` or
    `Err(message)`.
  - The JSON decoder is a function parameter, `decode`.
  - `Installed` says which catalog a series of attempts leaves behind.
- `Handlers` (handlers.dfy) models the stats reply and the `/stream` session.
  - A `ResponseWriter` class records the status, the bytes written and how
    many of them were flushed.
  - `SendGame` writes the error frame or the data frame for one draw.
  - `StreamHandler` and `Stream` run the capability check, then the
    send-at-once-then-per-tick loop. The loop runs over a trace of `Tick`
    and `Done` signals.
  - `json.Marshal` is a function parameter, `serialize`.
- `EventStream` (event_stream.dfy) is the receiving side of the stream. It
  models how an `EventSource` client interprets a `text/event-stream`
  body, following section 9.2.6 of the WHATWG HTML Living Standard
  ("Interpreting an event stream"). It is the independent partner the
  server's frames are checked against: `Handlers.WireParses` proves that
  parsing everything a session writes yields exactly one event per frame,
  in order.

One consequence is visible in `Handlers.ClientView`. While the catalog is
empty, every event the page receives has type "error". The page's script
(main.go:377-402) reads games with `onmessage`, which only sees "message"
events. An event of type "error" reaches its `onerror` handler, the same
one that handles a dropped connection.

## Model

| member | source | states |
|---|---|---|
| Catalog.GameStore.constructor | main.go:30-35 | a store starts with no games |
| Catalog.GameStore.SetGames | main.go:37-41 | the stored catalog becomes exactly the given sequence; nothing of the old one is merged in |
| Catalog.GameStore.GetRandom | main.go:43-50 | found exactly when the store is non-empty; when found, the game is the entry at some index in [0, len); otherwise the zero-valued Game; the store is not written |
| Catalog.GameStore.Count | main.go:52-56 | the result is the number of stored games, zero exactly when the store is empty; the store is not written |
| Refresh.Fetched | main.go:58-70 | one attempt succeeds exactly when both the request and the decoding succeed, yielding the decoded games; a request error is passed through unchanged |
| Refresh.FetchGames | main.go:58-74 | no error is returned exactly when the attempt succeeded; otherwise the error is the request's or the decoder's; the store holds the decoded games after a success and its old catalog after a failure |
| Refresh.RefreshLoop | main.go:84-91 | after a series of periodic attempts whose failures are only logged, the store holds the catalog that Installed describes |
| Refresh.Startup | main.go:76-91 | the process starts from an empty store, makes one attempt whose failure does not stop it, then the periodic ones; the result is Installed over all of them |
| Refresh.FailuresKeepCatalog | main.go:60-71 | a series of failed attempts leaves the catalog exactly as it was |
| Refresh.InstalledIsSnapshot | main.go:67-71 | the catalog is always either the previous one or exactly the games of one successful attempt, never a mixture |
| Refresh.LatestSuccessWins | main.go:71 | once an attempt succeeds and every later one fails, the catalog is that attempt's games |
| Refresh.InstalledAppend | main.go:79-90 | running two series of attempts one after the other is running their concatenation |
| Handlers.StatsHandler | main.go:115-120 | the reply carries the current catalog size and the status "online" |
| Handlers.SendGame | main.go:135-145 | the draw obeys GetRandom's contract; the body grows by exactly the error frame when the draw found nothing, and by "data: " + payload + LF LF otherwise; everything written is flushed; the status is unchanged |
| Handlers.StreamHandler | main.go:122-161 | a writer that cannot flush gets status 500 and the "SSE not supported" body and no frame; otherwise the session writes 1 + (Ticks before the first Done) frames, each a draw from the catalog, all flushed |
| Handlers.Stream | main.go:147-160 | one frame at once, then one per Tick until the first Done; the body grows by exactly the frames of the recorded draws, in order |
| Handlers.Events | main.go:135-145 | the events intended for a series of draws, one per draw in order: a "message" event with the serialized game, or an "error" event with the no-games message |
| Handlers.TicksBeforeDoneIsRun | main.go:153-159 | the number of frames sent after the first is the length of the leading run of Ticks: every signal before it is a Tick, and the signal that ends it is a Done |
| Handlers.TicksUpTo | main.go:153-159 | Ticks up to a position, and a Done there or the end of the trace, mean exactly that many ticks are served |
| Handlers.TicksAt | main.go:153-159 | within the run of ticks served, a Done at a position ends the session there and a Tick is served |
| Handlers.NothingAfterDone | main.go:155-156 | after the first Done nothing more is sent, whatever signals follow |
| Handlers.AllTicksSentIffNoDone | main.go:153-159 | every Tick of a trace is served if and only if no Done occurs in it |
| Handlers.DrawnFromAppend | main.go:136 | a series of draws from the catalog stays one when a further draw is added |
| Handlers.DrawnFromAt | main.go:136 | every draw in a series drawn from the catalog obeys GetRandom's contract |
| Handlers.WireAppend | main.go:138-143 | writing one more frame extends what the session has written by exactly that frame |
| Handlers.WireStep | main.go:138-143 | appending a frame to a written body is writing the frames of the extended series of draws |
| Handlers.DataFrameLines | main.go:143 | a data frame whose payload is on one line splits into the data line and a blank line |
| Handlers.TypedFrameLines | main.go:138 | the error frame's shape splits into an event line, a data line and a blank line |
| Handlers.DataFrameParses | main.go:143 | a client reads a data frame as one "message" event carrying exactly the payload, then goes on with its buffers cleared |
| Handlers.TypedFrameParses | main.go:138 | a client reads a frame with an event line as one event of that type carrying the payload |
| Handlers.ErrorFrameParses | main.go:138 | a client reads the error frame as one "error" event carrying {"message":"No games available"} |
| Handlers.WireParses | main.go:135-160 | round trip: parsing everything a session writes yields exactly the intended events, one per frame, in order, provided serialized games contain no line break |
| Handlers.DispatchWire | main.go:135-160 | the line-level half of WireParses: the lines of a session's output dispatch exactly the intended events |
| Handlers.ClientView | main.go:370-392 | the page receives 1 + (Ticks before the first Done) events; all are "error" events with the no-games message when the catalog is empty, otherwise "message" events carrying some game of the catalog |
| EventStream.SplitLinesLF | main.go:138-143 | a line without a terminator followed by LF splits off as one complete line, whatever follows |
| EventStream.SplitFieldLine | main.go:138-143 | a field line "name: value" splits back into exactly name and value |
| EventStream.DataLine | main.go:143 | a data line appends its value and a line feed to the data buffer and dispatches nothing |
| EventStream.EventLine | main.go:138 | an event line sets the event type buffer and dispatches nothing |
| EventStream.DispatchOneData | main.go:138-143 | a data line then a blank line dispatch one event with exactly the line's value, of the pending type or "message" |

## Left out

- HTTP and gin plumbing, the response headers, route registration, port selection and logging (main.go:93-113, 123-127) are left out. They are I/O and configuration with nothing to state beyond the capability check. `c.JSON`'s serialization of the 500 reply is written as its fixed body.
- The network request and the JSON decoder (main.go:59-68) are inputs: a `Fetch<string>` outcome and a `decode` parameter. The 30-second client timeout is part of the request's outcome.
- `json.Marshal` (main.go:142) is the `serialize` parameter. Its ignored error is not modelled, because marshalling a `Game` cannot fail.
- Handlers.WireParses: the round trip assumes serialized games contain no CR or LF. `encoding/json` escapes both inside strings, but the encoder is not part of this model.
- `sync.RWMutex`, the goroutine and the tickers (main.go:32, 84-91, 150-160) are left out. Operations run one at a time, so the catalog does not change during a session. Ticks and the request's cancellation are an input trace of `Tick` and `Done`. The one-hour and three-second periods are not modelled.
- Catalog.GameStore.GetRandom: the uniform distribution and the seeding of `math/rand` (main.go:49, 77) are not modelled. Only the index range is stated.
- Go slice aliasing between the caller's slice and the stored one is not modelled, because sequences are values.
- The HTML, CSS and JavaScript page (main.go:163-497) is left out, apart from its use of `EventSource`, which `EventStream` models. The browser's reconnection and the last-event-ID and `retry` fields are not modelled.
- EventStream.Parse decodes no bytes: the stream is a string of characters, and UTF-8 decoding is not modelled.
