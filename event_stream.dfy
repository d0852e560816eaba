/** The receiving side of the stream: how a client such as the page's
    EventSource turns the bytes of a text/event-stream response into events,
    following the event-stream interpretation of the WHATWG HTML Living
    Standard, section 9.2.6 ("Interpreting an event stream"). It is the
    partner against which the frames the server writes are checked. */
module EventStream {
  /** A dispatched event: its type ("message" unless an `event:` field named
      another) and its data. The last event ID is not modelled. */
  datatype Event = Event(eventType: string, data: string)
  /** The event type and data buffers the parser fills between two blank
      lines. */
  datatype Pending = Pending(eventType: string, data: string)
  const Cleared := Pending("", "")

  /** A string with no line terminator in it. */
  predicate SingleLine(s: string) {
    '\n' !in s && '\r' !in s
  }

  /** Line terminators do not appear in a concatenation of single lines. */
  lemma SingleLineConcat(a: string, b: string)
    requires SingleLine(a) && SingleLine(b)
    ensures SingleLine(a + b)
  {
    assert forall j :: 0 <= j < |a + b| ==> (a + b)[j] == if j < |a| then a[j] else b[j - |a|];
  }

  /** Index of the first character of `s` in `stops`, or |s| if none is. */
  function FirstOf(s: string, stops: set<char>): (i: nat)
    ensures i <= |s|
    ensures forall j :: 0 <= j < i ==> s[j] !in stops
    ensures i < |s| ==> s[i] in stops
  {
    if s == [] || s[0] in stops then 0 else 1 + FirstOf(s[1..], stops)
  }

  /** Splits a stream at CR, LF and CRLF into its complete lines and the
      unterminated rest, which is never processed. */
  function SplitLines(s: string): (seq<string>, string)
    decreases |s|
  {
    if s == [] then ([], "")
    else if s[0] == '\n' || s[0] == '\r' then
      var next := if s[0] == '\r' && |s| > 1 && s[1] == '\n' then 2 else 1;
      var r := SplitLines(s[next..]);
      ([""] + r.0, r.1)
    else
      var r := SplitLines(s[1..]);
      if r.0 == [] then ([], [s[0]] + r.1)
      else ([[s[0]] + r.0[0]] + r.0[1..], r.1)
  }

  /** Splits a field line at its first colon into name and value, dropping
      one space after the colon; a line without a colon is a name with an
      empty value. */
  function SplitField(line: string): (string, string) {
    var c := FirstOf(line, {':'});
    if c == |line| then (line, "")
    else
      var value := line[c + 1..];
      (line[..c], if |value| > 0 && value[0] == ' ' then value[1..] else value)
  }

  /** One line of the stream: a blank line dispatches the pending event
      (unless no data arrived, which only clears the buffers); a line
      starting with a colon is a comment; `event` sets the type; `data`
      appends a line to the data; every other field (`id`, `retry`, unknown
      names) leaves type and data alone. */
  function ProcessLine(line: string, p: Pending): (Pending, seq<Event>) {
    if line == "" then
      if p.data == "" then (Cleared, [])
      else
        var eventType := if p.eventType == "" then "message" else p.eventType;
        (Cleared, [Event(eventType, p.data[..|p.data| - 1])])
    else if line[0] == ':' then (p, [])
    else
      var field := SplitField(line);
      if field.0 == "event" then (p.(eventType := field.1), [])
      else if field.0 == "data" then (p.(data := p.data + field.1 + "\n"), [])
      else (p, [])
  }

  /** The events dispatched while processing complete lines in order. */
  function Dispatch(lines: seq<string>, p: Pending): seq<Event>
    decreases |lines|
  {
    if lines == [] then []
    else
      var step := ProcessLine(lines[0], p);
      step.1 + Dispatch(lines[1..], step.0)
  }

  /** The events a client dispatches for a whole received stream; a leading
      byte order mark is skipped, and an event left incomplete when the
      stream ends is discarded. */
  function Parse(stream: string): seq<Event> {
    var body := if |stream| > 0 && stream[0] == '\U{FEFF}' then stream[1..] else stream;
    Dispatch(SplitLines(body).0, Cleared)
  }

  /** A line ended by LF splits off as one line, whatever follows it. */
  lemma {:induction false} SplitLinesLF(line: string, rest: string)
    requires SingleLine(line)
    ensures SplitLines(line + "\n" + rest) == ([line] + SplitLines(rest).0, SplitLines(rest).1)
    decreases |line|
  {
    var s := line + "\n" + rest;
    if line == [] {
      assert s == "\n" + rest;
      assert s[1..] == rest;
    } else {
      assert s[0] == line[0];
      assert s[1..] == line[1..] + "\n" + rest;
      assert SingleLine(line[1..]) by {
        assert forall j :: 0 <= j < |line[1..]| ==> line[1..][j] == line[j + 1];
      }
      SplitLinesLF(line[1..], rest);
      assert [line[0]] + line[1..] == line;
    }
  }

  /** A field line `name: value` splits back into name and value. */
  lemma SplitFieldLine(name: string, value: string)
    requires ':' !in name
    ensures SplitField(name + ": " + value) == (name, value)
  {
    var line := name + ": " + value;
    var c := FirstOf(line, {':'});
    assert line[|name|] == ':';
    assert line[..c] == name;
    assert line[c + 1..] == " " + value;
  }

  /** Processing a line and then the rest is processing them all. */
  lemma DispatchCons(line: string, tail: seq<string>, p: Pending)
    ensures Dispatch([line] + tail, p)
         == ProcessLine(line, p).1 + Dispatch(tail, ProcessLine(line, p).0)
  {
    assert ([line] + tail)[1..] == tail;
  }

  /** A `data:` line appends its value and a line feed to the data buffer. */
  lemma DataLine(value: string, p: Pending)
    ensures ProcessLine("data: " + value, p) == (p.(data := p.data + value + "\n"), [])
  {
    SplitFieldLine("data", value);
    assert "data" + ": " + value == "data: " + value;
    assert ("data: " + value)[0] == 'd';
    assert "data" != "event";
  }

  /** An `event:` line sets the event type buffer. */
  lemma EventLine(value: string, p: Pending)
    ensures ProcessLine("event: " + value, p) == (p.(eventType := value), [])
  {
    SplitFieldLine("event", value);
    assert "event" + ": " + value == "event: " + value;
    assert ("event: " + value)[0] == 'e';
  }

  /** One `data:` line followed by a blank line, with no data pending,
      dispatches one event whose data is exactly the line's value and whose
      type is the pending type ("message" if none was set). */
  lemma DispatchOneData(value: string, tail: seq<string>, eventType: string)
    ensures Dispatch(["data: " + value, ""] + tail, Pending(eventType, ""))
         == [Event(if eventType == "" then "message" else eventType, value)] + Dispatch(tail, Cleared)
  {
    var p := Pending(eventType, value + "\n");
    DataLine(value, Pending(eventType, ""));
    assert "" + value + "\n" == value + "\n";
    assert ["data: " + value, ""] + tail == ["data: " + value] + ([""] + tail);
    DispatchCons("data: " + value, [""] + tail, Pending(eventType, ""));
    DispatchCons("", tail, p);
    assert (value + "\n")[..|value|] == value;
  }
}
