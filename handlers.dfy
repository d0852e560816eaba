/** The HTTP side of the program reduced to what it decides: the stats
    reply (main.go:115-120) and the event-stream session (main.go:122-161):
    the capability check, the frame written for each draw from the catalog,
    and the loop that sends one frame at once and one per timer tick until
    the client goes away. Timer ticks and the request's cancellation arrive
    as a trace of signals. */
module Handlers {
  import opened Catalog
  import opened EventStream

  /** The data of the error event sent while the catalog is empty. */
  const NoGamesPayload := "{\"message\":\"No games available\"}"

  /** The frame sent while the catalog is empty:
      `event: error` LF `data: {"message":"No games available"}` LF LF. */
  const ErrorFrame := "event: " + ErrorEventType + "\n" + DataFrame(NoGamesPayload)

  /** The event type of the frame sent while the catalog is empty. */
  const ErrorEventType := "error"

  /** The body of the 500 reply for a connection that cannot flush. */
  const NotSupportedBody := "{\"error\":\"SSE not supported\"}"

  /** The liveness marker of the stats reply. */
  const Online := "online"

  /** The frame carrying one serialized game. */
  function DataFrame(payload: string): string {
    "data: " + payload + "\n\n"
  }

  /** The frame written for one result of GetRandom. */
  function GameFrame(pick: (Game, bool), serialize: Game -> string): string {
    if pick.1 then DataFrame(serialize(pick.0)) else ErrorFrame
  }

  /** The event a client should dispatch for one result of GetRandom: a
      "message" event carrying the game, or an "error" event when the
      catalog had nothing to offer. */
  function Delivered(pick: (Game, bool), serialize: Game -> string): Event {
    if pick.1 then Event("message", serialize(pick.0)) else Event(ErrorEventType, NoGamesPayload)
  }

  /** Everything written for a series of draws, frame after frame. */
  function Wire(picks: seq<(Game, bool)>, serialize: Game -> string): string
    decreases |picks|
  {
    if picks == [] then "" else GameFrame(picks[0], serialize) + Wire(picks[1..], serialize)
  }

  /** The events a client should dispatch for a series of draws, one per draw
      and in the same order. */
  function Events(picks: seq<(Game, bool)>, serialize: Game -> string): (events: seq<Event>)
    ensures |events| == |picks|
    ensures forall k :: 0 <= k < |picks| ==> events[k] == Delivered(picks[k], serialize)
    decreases |picks|
  {
    if picks == [] then [] else [Delivered(picks[0], serialize)] + Events(picks[1..], serialize)
  }

  /** Every draw in a series came from `games` (see IsDraw). */
  predicate DrawnFrom(games: seq<Game>, picks: seq<(Game, bool)>)
    decreases |picks|
  {
    picks == [] || (IsDraw(games, picks[0]) && DrawnFrom(games, picks[1..]))
  }

  /** The serializer's output for the games that can be drawn never breaks
      a line (JSON encoding escapes CR and LF inside strings). */
  predicate SerializesOnOneLine(picks: seq<(Game, bool)>, serialize: Game -> string) {
    forall k :: 0 <= k < |picks| && picks[k].1 ==> SingleLine(serialize(picks[k].0))
  }

  /** Signals a session reacts to: the three-second timer firing, or the
      request's context being done because the client went away. */
  datatype Signal = Tick | Done

  /** How many ticks arrive before the first Done (all of them if none). */
  function TicksBeforeDone(trace: seq<Signal>): nat
  {
    if trace == [] || trace[0] == Done then 0 else 1 + TicksBeforeDone(trace[1..])
  }

  /** The reply of the stats endpoint. */
  datatype StatsReply = StatsReply(totalGames: int, status: string)

  /** The response as far as the handlers shape it: a status code, the bytes
      written, and how many of them were flushed to the client. Whether the
      underlying writer can flush is fixed per connection. */
  class ResponseWriter {
    const flushable: bool
    var status: int
    var body: string
    var delivered: nat

    ghost predicate Valid()
      reads this
    {
      delivered <= |body|
    }

    /** A fresh response: status 200, nothing written yet. */
    constructor (flushable: bool)
      ensures Valid()
      ensures this.flushable == flushable
      ensures status == 200 && body == "" && delivered == 0
    {
      this.flushable := flushable;
      status, body, delivered := 200, "", 0;
    }

    /** Appends to the response, without pushing it to the client. */
    method Write(text: string)
      requires Valid()
      modifies this`body
      ensures Valid()
      ensures body == old(body) + text
    {
      body := body + text;
    }

    /** Pushes everything written so far to the client. */
    method Flush()
      requires Valid() && flushable
      modifies this`delivered
      ensures Valid()
      ensures delivered == |body|
    {
      delivered := |body|;
    }

    /** Sends a JSON reply with the given status code. */
    method Json(code: int, text: string)
      requires Valid()
      modifies this`status, this`body
      ensures Valid()
      ensures status == code && body == old(body) + text
    {
      status := code;
      body := body + text;
    }
  }

  /** The stats endpoint: the current catalog size and the liveness marker;
      it reads the store and writes nothing. */
  method StatsHandler(store: GameStore) returns (reply: StatsReply)
    ensures reply.totalGames == |store.games|
    ensures reply.status == Online
  {
    var n := store.Count();
    reply := StatsReply(n, Online);
  }

  /** Sends one frame: draws from the store, writes the error frame or the
      serialized game, and flushes. The draw is returned for the proof. */
  method SendGame(w: ResponseWriter, store: GameStore, serialize: Game -> string)
    returns (ghost pick: (Game, bool))
    requires w.Valid() && w.flushable
    modifies w
    ensures w.Valid()
    ensures IsDraw(store.games, pick)
    ensures w.body == old(w.body) + GameFrame(pick, serialize)
    ensures w.delivered == |w.body| && w.status == old(w.status)
  {
    var game, found := store.GetRandom();
    pick := (game, found);
    if !found {
      w.Write(ErrorFrame);
      w.Flush();
      return;
    }
    var data := serialize(game);
    w.Write("data: " + data + "\n\n");
    w.Flush();
  }

  /** One stream session. A connection that cannot flush gets the 500 reply
      and no frame; otherwise the session streams (see Stream). */
  method StreamHandler(w: ResponseWriter, store: GameStore, trace: seq<Signal>, serialize: Game -> string)
    returns (ghost sent: seq<(Game, bool)>)
    requires w.Valid()
    modifies w
    ensures w.Valid()
    ensures !w.flushable ==> w.status == 500 && w.body == old(w.body) + NotSupportedBody && sent == []
    ensures w.flushable ==> w.status == old(w.status) && w.delivered == |w.body|
    ensures w.flushable ==> |sent| == 1 + TicksBeforeDone(trace)
    ensures w.flushable ==> w.body == old(w.body) + Wire(sent, serialize)
    ensures DrawnFrom(store.games, sent)
  {
    if !w.flushable {
      w.Json(500, NotSupportedBody);
      return [];
    }
    sent := Stream(w, store, trace, serialize);
  }

  /** The streaming part of a session: one frame at once, then one per Tick
      until the first Done, after which nothing more is sent. Every frame is
      flushed as soon as it is written. `sent` records the draws, one per
      frame, in order. */
  method Stream(w: ResponseWriter, store: GameStore, trace: seq<Signal>, serialize: Game -> string)
    returns (ghost sent: seq<(Game, bool)>)
    requires w.Valid() && w.flushable
    modifies w
    ensures w.Valid() && w.status == old(w.status) && w.delivered == |w.body|
    ensures |sent| == 1 + TicksBeforeDone(trace)
    ensures w.body == old(w.body) + Wire(sent, serialize)
    ensures DrawnFrom(store.games, sent)
  {
    ghost var pick := SendGame(w, store, serialize);
    WireStep(old(w.body), [], pick, serialize);
    sent := [pick];
    var i := 0;
    while i < |trace|
      invariant 0 <= i <= |trace|
      invariant i <= TicksBeforeDone(trace)
      invariant |sent| == 1 + i
      invariant w.Valid() && w.status == old(w.status) && w.delivered == |w.body|
      invariant w.body == old(w.body) + Wire(sent, serialize)
      invariant DrawnFrom(store.games, sent)
    {
      TicksAt(trace, i);
      if trace[i] == Done {
        return;
      }
      pick := SendGame(w, store, serialize);
      WireStep(old(w.body), sent, pick, serialize);
      DrawnFromAppend(store.games, sent, pick);
      sent := sent + [pick];
      i := i + 1;
    }
    TicksBeforeDoneIsRun(trace);
  }

  /** TicksBeforeDone counts the leading run of ticks: every signal before
      position TicksBeforeDone(trace) is a Tick, and the one at that
      position, if any, is a Done. */
  lemma {:induction false} TicksBeforeDoneIsRun(trace: seq<Signal>)
    ensures TicksBeforeDone(trace) <= |trace|
    ensures forall j :: 0 <= j < TicksBeforeDone(trace) ==> trace[j] == Tick
    ensures TicksBeforeDone(trace) < |trace| ==> trace[TicksBeforeDone(trace)] == Done
  {
    if trace != [] && trace[0] == Tick {
      TicksBeforeDoneIsRun(trace[1..]);
    }
  }

  /** Ticks up to position `i`, and a Done there or the end of the trace,
      mean exactly `i` ticks before the first Done. */
  lemma TicksUpTo(trace: seq<Signal>, i: nat)
    requires i <= |trace|
    requires forall j :: 0 <= j < i ==> trace[j] == Tick
    requires i == |trace| || trace[i] == Done
    ensures TicksBeforeDone(trace) == i
  {
    TicksBeforeDoneIsRun(trace);
  }

  /** Inside the leading run of ticks, the signal at `i` decides: a Done
      ends the run there, a Tick extends it past `i`. */
  lemma TicksAt(trace: seq<Signal>, i: nat)
    requires i < |trace| && i <= TicksBeforeDone(trace)
    ensures trace[i] == Done ==> TicksBeforeDone(trace) == i
    ensures trace[i] == Tick ==> i < TicksBeforeDone(trace)
  {
    TicksBeforeDoneIsRun(trace);
  }

  /** A series of draws stays drawn from the catalog when one more draw
      from it is added. */
  lemma {:induction false} DrawnFromAppend(games: seq<Game>, picks: seq<(Game, bool)>, pick: (Game, bool))
    requires DrawnFrom(games, picks) && IsDraw(games, pick)
    ensures DrawnFrom(games, picks + [pick])
    decreases |picks|
  {
    if picks != [] {
      assert (picks + [pick])[1..] == picks[1..] + [pick];
      DrawnFromAppend(games, picks[1..], pick);
    }
  }

  /** Each draw of a series drawn from the catalog is a draw from it. */
  lemma {:induction false} DrawnFromAt(games: seq<Game>, picks: seq<(Game, bool)>, k: nat)
    requires DrawnFrom(games, picks) && k < |picks|
    ensures IsDraw(games, picks[k])
    decreases |picks|
  {
    if k > 0 {
      DrawnFromAt(games, picks[1..], k - 1);
    }
  }

  /** Writing the frame of one more draw after the frames of earlier draws
      is writing the frames of all of them. */
  lemma WireStep(base: string, picks: seq<(Game, bool)>, pick: (Game, bool), serialize: Game -> string)
    ensures base + Wire(picks, serialize) + GameFrame(pick, serialize) == base + Wire(picks + [pick], serialize)
  {
    WireAppend(picks, pick, serialize);
    assert base + Wire(picks, serialize) + GameFrame(pick, serialize)
        == base + (Wire(picks, serialize) + GameFrame(pick, serialize));
  }

  /** Sending one more frame extends what was written by exactly that frame. */
  lemma {:induction false} WireAppend(picks: seq<(Game, bool)>, pick: (Game, bool), serialize: Game -> string)
    ensures Wire(picks + [pick], serialize) == Wire(picks, serialize) + GameFrame(pick, serialize)
    decreases |picks|
  {
    if picks == [] {
      assert [pick][1..] == [];
    } else {
      assert (picks + [pick])[1..] == picks[1..] + [pick];
      WireAppend(picks[1..], pick, serialize);
    }
  }

  /** The lines of a data frame: the `data:` line and the blank line. */
  lemma DataFrameLines(payload: string, rest: string)
    requires SingleLine(payload)
    ensures SplitLines(DataFrame(payload) + rest).0 == ["data: " + payload, ""] + SplitLines(rest).0
  {
    var dataLine := "data: " + payload;
    SingleLineConcat("data: ", payload);
    assert DataFrame(payload) + rest == dataLine + "\n" + ("" + "\n" + rest);
    SplitLinesLF(dataLine, "" + "\n" + rest);
    SplitLinesLF("", rest);
  }

  /** The lines of a frame with an `event:` line: that line, the `data:`
      line and the blank line. */
  lemma TypedFrameLines(eventType: string, payload: string, rest: string)
    requires SingleLine(eventType) && SingleLine(payload)
    ensures SplitLines("event: " + eventType + "\n" + DataFrame(payload) + rest).0
         == ["event: " + eventType, "data: " + payload, ""] + SplitLines(rest).0
  {
    var typeLine, tail := "event: " + eventType, DataFrame(payload) + rest;
    SingleLineConcat("event: ", eventType);
    assert typeLine + "\n" + DataFrame(payload) + rest == typeLine + "\n" + tail;
    SplitLinesLF(typeLine, tail);
    DataFrameLines(payload, rest);
  }

  /** A client reads a data frame whose payload is on one line as one
      "message" event carrying exactly that payload, and then goes on with
      what follows, its buffers cleared. */
  lemma DataFrameParses(payload: string, rest: string)
    requires SingleLine(payload)
    ensures Dispatch(SplitLines(DataFrame(payload) + rest).0, Cleared)
         == [Event("message", payload)] + Dispatch(SplitLines(rest).0, Cleared)
  {
    DataFrameLines(payload, rest);
    DispatchOneData(payload, SplitLines(rest).0, "");
  }

  /** A client reads a frame with an `event:` line as one event of that
      type carrying the payload, and then goes on with what follows. */
  lemma TypedFrameParses(eventType: string, payload: string, rest: string)
    requires SingleLine(eventType) && SingleLine(payload) && eventType != ""
    ensures Dispatch(SplitLines("event: " + eventType + "\n" + DataFrame(payload) + rest).0, Cleared)
         == [Event(eventType, payload)] + Dispatch(SplitLines(rest).0, Cleared)
  {
    var tail := SplitLines(rest).0;
    TypedFrameLines(eventType, payload, rest);
    assert ["event: " + eventType, "data: " + payload, ""] + tail
        == ["event: " + eventType] + (["data: " + payload, ""] + tail);
    DispatchCons("event: " + eventType, ["data: " + payload, ""] + tail, Cleared);
    EventLine(eventType, Cleared);
    DispatchOneData(payload, tail, eventType);
  }

  /** A client reads the error frame as one "error" event carrying the
      no-games message, and then goes on with what follows. */
  lemma ErrorFrameParses(rest: string)
    ensures Dispatch(SplitLines(ErrorFrame + rest).0, Cleared)
         == [Event(ErrorEventType, NoGamesPayload)] + Dispatch(SplitLines(rest).0, Cleared)
  {
    TypedFrameParses(ErrorEventType, NoGamesPayload, rest);
  }

  /** Round trip of a whole session's output: a client parsing everything
      written for a series of draws dispatches exactly the intended events,
      one per frame, in order. */
  lemma {:induction false} WireParses(picks: seq<(Game, bool)>, serialize: Game -> string)
    requires SerializesOnOneLine(picks, serialize)
    ensures Parse(Wire(picks, serialize)) == Events(picks, serialize)
  {
    var wire := Wire(picks, serialize);
    if picks != [] {
      assert wire[0] == GameFrame(picks[0], serialize)[0];
    }
    DispatchWire(picks, serialize);
  }

  lemma {:induction false} DispatchWire(picks: seq<(Game, bool)>, serialize: Game -> string)
    requires SerializesOnOneLine(picks, serialize)
    ensures Dispatch(SplitLines(Wire(picks, serialize)).0, Cleared) == Events(picks, serialize)
    decreases |picks|
  {
    if picks != [] {
      var rest := Wire(picks[1..], serialize);
      if picks[0].1 {
        DataFrameParses(serialize(picks[0].0), rest);
      } else {
        ErrorFrameParses(rest);
      }
      assert SerializesOnOneLine(picks[1..], serialize) by {
        assert forall k :: 0 <= k < |picks[1..]| ==> picks[1..][k] == picks[k + 1];
      }
      DispatchWire(picks[1..], serialize);
    }
  }

  /** What the client of one session sees: as many events as the session
      sent frames (one, plus one per Tick before the first Done); all of
      them "error" events with the no-games message when the catalog is
      empty, otherwise "message" events carrying a game of the catalog. */
  lemma ClientView(games: seq<Game>, sent: seq<(Game, bool)>, trace: seq<Signal>, serialize: Game -> string)
    requires |sent| == 1 + TicksBeforeDone(trace)
    requires DrawnFrom(games, sent)
    requires forall i :: 0 <= i < |games| ==> SingleLine(serialize(games[i]))
    ensures |Parse(Wire(sent, serialize))| == 1 + TicksBeforeDone(trace)
    ensures forall k :: 0 <= k < |sent| ==>
      var e := Parse(Wire(sent, serialize))[k];
      if games == [] then e == Event(ErrorEventType, NoGamesPayload)
      else e.eventType == "message" && exists i :: 0 <= i < |games| && e.data == serialize(games[i])
  {
    assert SerializesOnOneLine(sent, serialize) by {
      forall k | 0 <= k < |sent| && sent[k].1
        ensures SingleLine(serialize(sent[k].0))
      {
        DrawnFromAt(games, sent, k);
        var i :| 0 <= i < |games| && games[i] == sent[k].0;
      }
    }
    WireParses(sent, serialize);
    forall k | 0 <= k < |sent|
      ensures Delivered(sent[k], serialize) == Event(ErrorEventType, NoGamesPayload) <== games == []
      ensures games != [] ==> Delivered(sent[k], serialize).eventType == "message"
      ensures games != [] ==> exists i :: 0 <= i < |games| && Delivered(sent[k], serialize).data == serialize(games[i])
    {
      DrawnFromAt(games, sent, k);
      if games != [] {
        var i :| 0 <= i < |games| && games[i] == sent[k].0;
      }
    }
  }

  /** The first Done ends the session for good: signals after it change
      nothing about how many frames are sent. */
  lemma NothingAfterDone(trace: seq<Signal>, later: seq<Signal>)
    requires Done in trace
    ensures TicksBeforeDone(trace + later) == TicksBeforeDone(trace)
  {
    var j :| 0 <= j < |trace| && trace[j] == Done;
    TicksBeforeDoneIsRun(trace);
    var n := TicksBeforeDone(trace);
    assert n <= j;
    assert forall k :: 0 <= k < |trace| ==> (trace + later)[k] == trace[k];
    TicksUpTo(trace + later, n);
  }

  /** Until the client goes away the session keeps going: with no Done in
      the trace every Tick sends a frame, and conversely. */
  lemma AllTicksSentIffNoDone(trace: seq<Signal>)
    ensures TicksBeforeDone(trace) == |trace| <==> Done !in trace
  {
    TicksBeforeDoneIsRun(trace);
    var n := TicksBeforeDone(trace);
    if Done in trace {
      var j :| 0 <= j < |trace| && trace[j] == Done;
      assert n <= j;
    } else {
      TicksUpTo(trace, |trace|);
    }
  }
}
