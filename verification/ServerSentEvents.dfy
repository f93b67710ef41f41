/**
 The Server-Sent Events printer (python/django_bolt/responses.py) against the
 event stream interpreter of the WHATWG HTML Living Standard, sections 9.2.5
 and 9.2.6.  Text is modelled as characters; UTF-8 encoding is not.
 */
module ServerSentEvents {
  import opened Common

  // --- Python's str.splitlines --------------------------------------------------

  /** The line boundaries of Python strings, apart from the pair CR LF. */
  predicate IsBoundary(c: char) {
    c == '\n' || c == '\r' || c == 0x0B as char || c == 0x0C as char
    || c == 0x1C as char || c == 0x1D as char || c == 0x1E as char
    || c == 0x85 as char || c == 0x2028 as char || c == 0x2029 as char
  }

  predicate NoBoundary(s: string) {
    forall i :: 0 <= i < |s| ==> !IsBoundary(s[i])
  }

  /** cur is the line being collected; a trailing boundary opens no further line. */
  function SplitFrom(cur: string, s: string): (lines: seq<string>)
    ensures NoBoundary(cur) ==> forall l :: l in lines ==> NoBoundary(l)
    decreases |s|
  {
    if s == "" then (if cur == "" then [] else [cur])
    else if s[0] == '\r' && |s| > 1 && s[1] == '\n' then [cur] + SplitFrom("", s[2..])
    else if IsBoundary(s[0]) then [cur] + SplitFrom("", s[1..])
    else SplitFrom(cur + [s[0]], s[1..])
  }

  function SplitLines(s: string): seq<string> {
    SplitFrom("", s)
  }

  // --- Python's str of a non-negative integer -----------------------------------

  function Digit(d: nat): char
    requires d < 10
  {
    '0' + d as char
  }

  function Decimal(n: nat): string {
    if n < 10 then [Digit(n)] else Decimal(n / 10) + [Digit(n % 10)]
  }

  /** str(n) in Python. */
  function Str(n: int): string {
    if n < 0 then "-" + Decimal(-n) else Decimal(n)
  }

  // --- the printer -----------------------------------------------------------------

  /** The arguments of `format_sse_event`; dataBytes holds the text the bytes encode. */
  datatype Event = Event(
    dataStr: Option<string>,
    dataBytes: Option<string>,
    event: Option<string>,
    id: Option<string>,
    retry: Option<int>,
    comment: Option<string>)

  predicate FastPath(e: Event) {
    e.dataBytes.Some? && e.event.None? && e.id.None? && e.retry.None? && e.comment.None?
  }

  function Prefixed(prefix: string, lines: seq<string>): seq<string> {
    if lines == [] then [] else [prefix + lines[0]] + Prefixed(prefix, lines[1..])
  }

  /** The lines of the data field: `data_str` wins over `data_bytes`. */
  function DataLines(e: Event): seq<string> {
    if FastPath(e) then [e.dataBytes.value]
    else if e.dataStr.Some? then SplitLines(e.dataStr.value)
    else if e.dataBytes.Some? then SplitLines(e.dataBytes.value)
    else []
  }

  function FieldLine(prefix: string, value: Option<string>): seq<string> {
    if value.None? then [] else [prefix + value.value]
  }

  function RetryText(e: Event): Option<string> {
    if e.retry.None? then None else Some(Str(e.retry.value))
  }

  function CommentLines(e: Event): seq<string> {
    if e.comment.None? then [] else SplitLines(e.comment.value)
  }

  /** The emitted lines without the terminator. */
  function Lines(e: Event): seq<string> {
    Prefixed(": ", CommentLines(e)) + FieldLine("event: ", e.event) + Prefixed("data: ", DataLines(e))
    + FieldLine("id: ", e.id) + FieldLine("retry: ", RetryText(e))
  }

  /** Each line followed by a line feed. */
  function Terminated(lines: seq<string>): string {
    if lines == [] then "" else lines[0] + "\n" + Terminated(lines[1..])
  }

  function Format(e: Event): string {
    Terminated(Lines(e) + [""])
  }

  /** The loops of `format_sse_event`. */
  method FormatSseEvent(e: Event) returns (out: string)
    ensures out == Format(e)
  {
    if e.dataBytes.Some? && e.event.None? && e.id.None? && e.retry.None? && e.comment.None? {
      out := "data: " + e.dataBytes.value + "\n\n";
      FastPathIsFormat(e);
      return;
    }
    var lines: seq<string> := [];
    if e.comment.Some? {
      lines := AppendPrefixed(lines, ": ", SplitLines(e.comment.value));
    }
    ghost var l1 := Prefixed(": ", CommentLines(e));
    assert lines == l1;
    if e.event.Some? {
      lines := lines + ["event: " + e.event.value];
    }
    ghost var l2 := l1 + FieldLine("event: ", e.event);
    assert lines == l2;
    if e.dataStr.Some? {
      lines := AppendPrefixed(lines, "data: ", SplitLines(e.dataStr.value));
    } else if e.dataBytes.Some? {
      lines := AppendPrefixed(lines, "data: ", SplitLines(e.dataBytes.value));
    }
    ghost var l3 := l2 + Prefixed("data: ", DataLines(e));
    assert lines == l3;
    if e.id.Some? {
      lines := lines + ["id: " + e.id.value];
    }
    ghost var l4 := l3 + FieldLine("id: ", e.id);
    assert lines == l4;
    if e.retry.Some? {
      lines := lines + ["retry: " + Str(e.retry.value)];
    }
    assert lines == Lines(e);
    lines := lines + [""];
    JoinIsTerminated(lines);
    lines := lines + [""];
    out := Join(lines);
  }

  method AppendPrefixed(lines: seq<string>, prefix: string, extra: seq<string>) returns (r: seq<string>)
    ensures r == lines + Prefixed(prefix, extra)
  {
    r := lines;
    for i := 0 to |extra|
      invariant r == lines + Prefixed(prefix, extra[..i])
    {
      PrefixedSnoc(prefix, extra[..i], extra[i]);
      assert extra[..i + 1] == extra[..i] + [extra[i]];
      r := r + [prefix + extra[i]];
    }
    assert extra[..|extra|] == extra;
  }

  lemma {:induction false} PrefixedSnoc(prefix: string, lines: seq<string>, l: string)
    ensures Prefixed(prefix, lines + [l]) == Prefixed(prefix, lines) + [prefix + l]
  {
    if lines != [] {
      assert (lines + [l])[0] == lines[0] && (lines + [l])[1..] == lines[1..] + [l];
      PrefixedSnoc(prefix, lines[1..], l);
    }
  }

  /** "\n".join(lines) in Python. */
  function Join(lines: seq<string>): string {
    if lines == [] then "" else if |lines| == 1 then lines[0] else lines[0] + "\n" + Join(lines[1..])
  }

  lemma {:induction false} JoinIsTerminated(lines: seq<string>)
    ensures Join(lines + [""]) == Terminated(lines)
  {
    if lines != [] {
      assert (lines + [""])[0] == lines[0] && (lines + [""])[1..] == lines[1..] + [""];
      JoinIsTerminated(lines[1..]);
    }
  }

  lemma FastPathIsFormat(e: Event)
    requires FastPath(e)
    ensures Format(e) == "data: " + e.dataBytes.value + "\n\n"
  {
    var l := "data: " + e.dataBytes.value;
    assert Prefixed("data: ", [e.dataBytes.value]) == [l] + Prefixed("data: ", [e.dataBytes.value][1..]) == [l];
    assert Prefixed(": ", CommentLines(e)) == [] && FieldLine("event: ", e.event) == [];
    assert Lines(e) == [l];
    assert [l, ""][1..] == [""] && [""][1..] == [];
    assert Terminated([""]) == "\n";
    assert Terminated([l, ""]) == l + "\n" + "\n";
    assert l + "\n" + "\n" == l + "\n\n";
  }

  // --- the WHATWG interpreter -----------------------------------------------------------

  datatype Message = Message(kind: string, data: string, lastEventId: string)

  /** The buffers of section 9.2.6, the reconnection time and what was dispatched. */
  datatype Stream = Stream(
    data: string,
    kind: string,
    lastEventId: string,
    reconnection: Option<nat>,
    dispatched: seq<Message>)

  predicate IsLineBreak(c: char) {
    c == '\n' || c == '\r'
  }

  predicate OneLine(s: string) {
    forall i :: 0 <= i < |s| ==> !IsLineBreak(s[i])
  }

  /** The complete lines of a stream; LF, CR and CR LF end a line, and an unfinished
      last line is discarded. */
  function StreamLines(cur: string, s: string): (lines: seq<string>)
    ensures OneLine(cur) ==> forall l :: l in lines ==> OneLine(l)
    decreases |s|
  {
    if s == "" then []
    else if s[0] == '\n' then [cur] + StreamLines("", s[1..])
    else if s[0] == '\r' then [cur] + StreamLines("", if |s| > 1 && s[1] == '\n' then s[2..] else s[1..])
    else StreamLines(cur + [s[0]], s[1..])
  }

  function FirstColon(s: string): (i: nat)
    ensures i <= |s|
    ensures i < |s| ==> s[i] == ':'
    ensures forall k :: 0 <= k < i ==> s[k] != ':'
  {
    if s == "" || s[0] == ':' then 0 else 1 + FirstColon(s[1..])
  }

  predicate OnlyDigits(s: string) {
    forall i :: 0 <= i < |s| ==> '0' <= s[i] <= '9'
  }

  predicate AllDigits(s: string) {
    s != "" && OnlyDigits(s)
  }

  function DecimalValue(s: string): nat
    requires OnlyDigits(s)
  {
    if s == "" then 0 else 10 * DecimalValue(s[..|s| - 1]) + (s[|s| - 1] - '0') as nat
  }

  function ProcessField(st: Stream, field: string, value: string): Stream {
    if field == "event" then st.(kind := value)
    else if field == "data" then st.(data := st.data + value + "\n")
    else if field == "id" then (if 0 as char in value then st else st.(lastEventId := value))
    else if field == "retry" then
      (if AllDigits(value) then st.(reconnection := Some(DecimalValue(value))) else st)
    else st
  }

  function Dispatch(st: Stream): Stream {
    if st.data == "" then st.(kind := "")
    else
      var data := if st.data[|st.data| - 1] == '\n' then st.data[..|st.data| - 1] else st.data;
      var kind := if st.kind == "" then "message" else st.kind;
      st.(data := "", kind := "", dispatched := st.dispatched + [Message(kind, data, st.lastEventId)])
  }

  function ProcessLine(st: Stream, line: string): Stream {
    if line == "" then Dispatch(st)
    else if line[0] == ':' then st
    else
      var i := FirstColon(line);
      if i == |line| then ProcessField(st, line, "")
      else
        var value := line[i + 1..];
        ProcessField(st, line[..i], if value != "" && value[0] == ' ' then value[1..] else value)
  }

  function ProcessLines(st: Stream, lines: seq<string>): Stream
    decreases |lines|
  {
    if lines == [] then st else ProcessLines(ProcessLine(st, lines[0]), lines[1..])
  }

  const FRESH := Stream("", "", "", None, [])

  /** Interprets a whole stream; at most one leading byte order mark is ignored. */
  function Interpret(s: string): Stream {
    var body := if s != "" && s[0] == 0xFEFF as char then s[1..] else s;
    ProcessLines(FRESH, StreamLines("", body))
  }

  // --- lines survive printing ---------------------------------------------------------------

  lemma {:induction false} OneLineThenRest(cur: string, l: string, rest: string)
    requires OneLine(l)
    ensures StreamLines(cur, l + "\n" + rest) == [cur + l] + StreamLines("", rest)
    decreases |l|
  {
    var s := l + "\n" + rest;
    if l == "" {
      assert s[1..] == rest && cur + l == cur;
    } else {
      assert s[1..] == l[1..] + "\n" + rest;
      OneLineThenRest(cur + [l[0]], l[1..], rest);
      assert cur + [l[0]] + l[1..] == cur + l;
    }
  }

  lemma {:induction false} PrintedLinesAreRead(lines: seq<string>, rest: string)
    requires AllOneLine(lines)
    ensures StreamLines("", Terminated(lines) + rest) == lines + StreamLines("", rest)
  {
    if lines == [] {
      assert Terminated(lines) + rest == rest;
    } else {
      var tail := Terminated(lines[1..]);
      assert Terminated(lines) + rest == lines[0] + "\n" + (tail + rest);
      OneLineThenRest("", lines[0], tail + rest);
      PrintedLinesAreRead(lines[1..], rest);
      assert "" + lines[0] == lines[0];
    }
  }

  lemma {:induction false} ProcessAppend(st: Stream, a: seq<string>, b: seq<string>)
    ensures ProcessLines(st, a + b) == ProcessLines(ProcessLines(st, a), b)
    decreases |a|
  {
    if a == [] {
      assert a + b == b;
    } else {
      assert (a + b)[0] == a[0] && (a + b)[1..] == a[1..] + b;
      ProcessAppend(ProcessLine(st, a[0]), a[1..], b);
    }
  }

  // --- what each printed group does ------------------------------------------------------------

  lemma FieldLineIsRead(st: Stream, name: string, value: string)
    requires name != "" && ':' !in name
    ensures ProcessLine(st, name + ": " + value) == ProcessField(st, name, value)
  {
    var line := name + ": " + value;
    var i := FirstColon(line);
    assert line[|name|] == ':';
    assert forall k :: 0 <= k < |name| ==> line[k] == name[k] && name[k] in name;
    assert i == |name|;
    assert line[..i] == name && line[i + 1..] == " " + value && (" " + value)[1..] == value;
  }

  lemma {:induction false} CommentsAreIgnored(st: Stream, lines: seq<string>)
    ensures ProcessLines(st, Prefixed(": ", lines)) == st
    decreases |lines|
  {
    if lines != [] {
      assert (": " + lines[0])[0] == ':';
      CommentsAreIgnored(st, lines[1..]);
    }
  }

  lemma DataLineIsRead(st: Stream, value: string, line: string)
    requires line == "data: " + value
    ensures ProcessLine(st, line) == st.(data := st.data + (value + "\n"))
  {
    assert line == "data" + ": " + value;
    FieldLineIsRead(st, "data", value);
    ConcatAssociative(st.data, value, "\n");
  }

  lemma {:induction false} DataLinesAccumulate(st: Stream, lines: seq<string>)
    ensures ProcessLines(st, Prefixed("data: ", lines)) == st.(data := st.data + Terminated(lines))
    decreases |lines|
  {
    if lines == [] {
      assert st.data + "" == st.data;
    } else {
      DataLineIsRead(st, lines[0], "data: " + lines[0]);
      var u := st.(data := st.data + (lines[0] + "\n"));
      DataLinesAccumulate(u, lines[1..]);
      ConcatAssociative(st.data, lines[0] + "\n", Terminated(lines[1..]));
    }
  }

  lemma SingleField(st: Stream, prefix: string, name: string, value: Option<string>)
    requires name != "" && ':' !in name && prefix == name + ": "
    ensures ProcessLines(st, FieldLine(prefix, value)) == if value.None? then st else ProcessField(st, name, value.value)
  {
    if value.Some? {
      FieldLineIsRead(st, name, value.value);
      assert prefix + value.value == name + ": " + value.value;
      assert ProcessLines(st, [prefix + value.value]) == ProcessLines(ProcessLine(st, prefix + value.value), []);
    }
  }

  // --- what one event means -----------------------------------------------------------------------

  function NextId(e: Event, lastId: string): string {
    if e.id.Some? && 0 as char !in e.id.value then e.id.value else lastId
  }

  function NextReconnection(e: Event, r: Option<nat>): Option<nat> {
    if e.retry.Some? && e.retry.value >= 0 then Some(e.retry.value) else r
  }

  /** The message the application meant, if the event carries data at all. */
  function Meant(e: Event, lastId: string): seq<Message> {
    if DataLines(e) == [] then []
    else [Message(if e.event.Some? && e.event.value != "" then e.event.value else "message",
                  Join(DataLines(e)), NextId(e, lastId))]
  }

  /** Event names and ids are one line; pre-encoded data on the fast path is too. */
  predicate WellFormed(e: Event) {
    && (e.event.Some? ==> OneLine(e.event.value))
    && (e.id.Some? ==> OneLine(e.id.value))
    && (FastPath(e) ==> OneLine(e.dataBytes.value))
  }

  lemma {:induction false} DecimalRoundTrip(n: nat)
    ensures AllDigits(Decimal(n)) && DecimalValue(Decimal(n)) == n
  {
    if n < 10 {
      assert Decimal(n)[..0] == "";
    } else {
      DecimalRoundTrip(n / 10);
      var s := Decimal(n);
      assert s[..|s| - 1] == Decimal(n / 10) && s[|s| - 1] == Digit(n % 10);
    }
  }

  lemma StrIsReadBack(r: int)
    ensures OneLine(Str(r))
    ensures AllDigits(Str(r)) <==> r >= 0
    ensures r >= 0 ==> DecimalValue(Str(r)) == r
  {
    DecimalRoundTrip(if r < 0 then -r else r);
    if r < 0 {
      assert Str(r)[0] == '-' && Str(r)[1..] == Decimal(-r);
    }
  }

  lemma {:induction false} PrefixedIsOneLine(prefix: string, lines: seq<string>)
    requires OneLine(prefix) && AllOneLine(lines)
    ensures AllOneLine(Prefixed(prefix, lines))
  {
    if lines != [] {
      assert lines[0] in lines;
      assert OneLine(prefix + lines[0]);
      PrefixedIsOneLine(prefix, lines[1..]);
    }
  }

  predicate AllOneLine(lines: seq<string>) {
    forall l :: l in lines ==> OneLine(l)
  }

  lemma SplitTextIsOneLine(e: Event)
    requires WellFormed(e)
    ensures AllOneLine(CommentLines(e)) && AllOneLine(DataLines(e))
  {
  }

  lemma AllOneLineConcat(a: seq<string>, b: seq<string>)
    requires AllOneLine(a) && AllOneLine(b)
    ensures AllOneLine(a + b)
  {
  }

  lemma EmittedLinesAreOneLine(e: Event)
    requires WellFormed(e)
    ensures AllOneLine(Lines(e))
  {
    SplitTextIsOneLine(e);
    if e.retry.Some? { StrIsReadBack(e.retry.value); }
    PrefixedIsOneLine(": ", CommentLines(e));
    PrefixedIsOneLine("data: ", DataLines(e));
    var a, b, c := Prefixed(": ", CommentLines(e)), FieldLine("event: ", e.event), Prefixed("data: ", DataLines(e));
    var d, f := FieldLine("id: ", e.id), FieldLine("retry: ", RetryText(e));
    AllOneLineConcat(a, b);
    AllOneLineConcat(a + b, c);
    AllOneLineConcat(a + b + c, d);
    AllOneLineConcat(a + b + c + d, f);
  }

  lemma {:induction false} TerminatedIsJoinPlusFeed(lines: seq<string>)
    requires lines != []
    ensures Terminated(lines) == Join(lines) + "\n"
  {
    if |lines| == 1 {
      assert Terminated(lines[1..]) == "";
    } else {
      TerminatedIsJoinPlusFeed(lines[1..]);
    }
  }

  lemma CommentAndEventAreRead(st: Stream, e: Event)
    requires st.kind == ""
    ensures ProcessLines(st, Prefixed(": ", CommentLines(e)) + FieldLine("event: ", e.event))
         == st.(kind := if e.event.Some? then e.event.value else "")
  {
    ProcessAppend(st, Prefixed(": ", CommentLines(e)), FieldLine("event: ", e.event));
    CommentsAreIgnored(st, CommentLines(e));
    SingleField(st, "event: ", "event", e.event);
  }

  lemma IdAndRetryAreRead(st: Stream, e: Event)
    ensures ProcessLines(st, FieldLine("id: ", e.id) + FieldLine("retry: ", RetryText(e)))
         == st.(lastEventId := NextId(e, st.lastEventId), reconnection := NextReconnection(e, st.reconnection))
  {
    ProcessAppend(st, FieldLine("id: ", e.id), FieldLine("retry: ", RetryText(e)));
    SingleField(st, "id: ", "id", e.id);
    var u := st.(lastEventId := NextId(e, st.lastEventId));
    SingleField(u, "retry: ", "retry", RetryText(e));
    if e.retry.Some? { StrIsReadBack(e.retry.value); }
  }

  lemma FieldsAreRead(st: Stream, e: Event)
    requires st.data == "" && st.kind == ""
    ensures ProcessLines(st, Lines(e)) ==
              Stream(Terminated(DataLines(e)), if e.event.Some? then e.event.value else "",
                     NextId(e, st.lastEventId), NextReconnection(e, st.reconnection), st.dispatched)
  {
    var front := Prefixed(": ", CommentLines(e)) + FieldLine("event: ", e.event);
    var data := Prefixed("data: ", DataLines(e));
    var back := FieldLine("id: ", e.id) + FieldLine("retry: ", RetryText(e));
    assert Lines(e) == (front + data) + back;
    ProcessAppend(st, front + data, back);
    ProcessAppend(st, front, data);
    CommentAndEventAreRead(st, e);
    var u := st.(kind := if e.event.Some? then e.event.value else "");
    DataLinesAccumulate(u, DataLines(e));
    assert "" + Terminated(DataLines(e)) == Terminated(DataLines(e));
    IdAndRetryAreRead(u.(data := Terminated(DataLines(e))), e);
  }

  /** The lines of one event, read between two events. */
  lemma EventIsRead(st: Stream, e: Event)
    requires st.data == "" && st.kind == ""
    ensures ProcessLines(st, Lines(e) + [""]) ==
              Stream("", "", NextId(e, st.lastEventId), NextReconnection(e, st.reconnection),
                     st.dispatched + Meant(e, st.lastEventId))
  {
    var u := Stream(Terminated(DataLines(e)), if e.event.Some? then e.event.value else "",
                    NextId(e, st.lastEventId), NextReconnection(e, st.reconnection), st.dispatched);
    ProcessAppend(st, Lines(e), [""]);
    FieldsAreRead(st, e);
    assert ProcessLines(u, [""]) == ProcessLines(ProcessLine(u, ""), [""][1..]) == Dispatch(u);
    if DataLines(e) != [] {
      TerminatedIsJoinPlusFeed(DataLines(e));
    }
  }

  // --- the keep-alive stream --------------------------------------------------------------------------

  /** What one wait on the inner stream yields: the next event, or idle time. */
  datatype Frame = Item(event: Event) | Idle

  const KEEPALIVE_COMMENT := ": ping\n\n"

  /** The chunks `keepalive_stream` sends for a script of waits. */
  function Chunks(frames: seq<Frame>): seq<string> {
    if frames == [] then []
    else [if frames[0].Item? then Format(frames[0].event) else KEEPALIVE_COMMENT] + Chunks(frames[1..])
  }

  /** The messages the application meant, in order, with the last event id carried along. */
  function MeantBy(frames: seq<Frame>, lastId: string): seq<Message> {
    if frames == [] then []
    else if frames[0].Idle? then MeantBy(frames[1..], lastId)
    else Meant(frames[0].event, lastId) + MeantBy(frames[1..], NextId(frames[0].event, lastId))
  }

  lemma PingIsIgnored(st: Stream, rest: string)
    requires st.data == "" && st.kind == ""
    ensures ProcessLines(st, StreamLines("", KEEPALIVE_COMMENT + rest)) == ProcessLines(st, StreamLines("", rest))
  {
    var lines := [": ping", ""];
    assert lines[1..] == [""] && [""][1..] == [];
    assert Terminated([""]) == "\n";
    assert Terminated(lines) == ": ping" + "\n" + "\n" == KEEPALIVE_COMMENT;
    assert OneLine(": ping");
    PrintedLinesAreRead(lines, rest);
    ProcessAppend(st, lines, StreamLines("", rest));
    assert ProcessLine(st, ": ping") == st;
    assert ProcessLines(st, lines) == ProcessLines(st, [""]) == ProcessLines(Dispatch(st), []);
  }

  lemma FormattedEventIsRead(st: Stream, e: Event, rest: string)
    requires WellFormed(e)
    ensures ProcessLines(st, StreamLines("", Format(e) + rest))
         == ProcessLines(ProcessLines(st, Lines(e) + [""]), StreamLines("", rest))
  {
    EmittedLinesAreOneLine(e);
    PrintedLinesAreRead(Lines(e) + [""], rest);
    ProcessAppend(st, Lines(e) + [""], StreamLines("", rest));
  }

  lemma {:induction false} FramesAreRead(st: Stream, frames: seq<Frame>)
    requires st.data == "" && st.kind == ""
    requires forall e :: Item(e) in frames ==> WellFormed(e)
    ensures ProcessLines(st, StreamLines("", Flatten(Chunks(frames)))).dispatched
         == st.dispatched + MeantBy(frames, st.lastEventId)
    decreases |frames|
  {
    if frames != [] {
      var rest := Flatten(Chunks(frames[1..]));
      assert Flatten(Chunks(frames)) == Chunks(frames)[0] + rest;
      if frames[0].Idle? {
        PingIsIgnored(st, rest);
        FramesAreRead(st, frames[1..]);
      } else {
        var e := frames[0].event;
        assert Item(e) in frames;
        FormattedEventIsRead(st, e, rest);
        var u := ProcessLines(st, Lines(e) + [""]);
        EventIsRead(st, e);
        FramesAreRead(u, frames[1..]);
        ConcatAssociative(st.dispatched, Meant(e, st.lastEventId), MeantBy(frames[1..], u.lastEventId));
      }
    }
  }

  /** Main result: whatever events the generator yields and wherever keep-alive pings
      fall between them, the interpreter dispatches exactly the meant messages. */
  lemma StreamDispatchesWhatWasMeant(frames: seq<Frame>)
    requires forall e :: Item(e) in frames ==> WellFormed(e)
    ensures Interpret(Flatten(Chunks(frames))).dispatched == MeantBy(frames, "")
  {
    FramesAreRead(FRESH, frames);
  }

  lemma OneEventDispatchesWhatItMeans(e: Event)
    requires WellFormed(e)
    ensures Interpret(Format(e)).dispatched == Meant(e, "")
  {
    StreamDispatchesWhatWasMeant([Item(e)]);
    assert [Item(e)][1..] == [] && Chunks([]) == [] && MeantBy([], NextId(e, "")) == [];
    assert Chunks([Item(e)]) == [Format(e)];
    assert Flatten([Format(e)]) == Format(e) + Flatten([Format(e)][1..]) == Format(e);
    assert MeantBy([Item(e)], "") == Meant(e, "");
  }

  // --- where the printer's promises stop --------------------------------------------------------------

  ghost predicate NamesOneLine(st: Stream) {
    && OneLine(st.kind) && OneLine(st.lastEventId)
    && forall i :: 0 <= i < |st.dispatched| ==> OneLine(st.dispatched[i].kind) && OneLine(st.dispatched[i].lastEventId)
  }

  lemma LineKeepsNames(st: Stream, line: string)
    requires NamesOneLine(st) && OneLine(line)
    ensures NamesOneLine(ProcessLine(st, line))
  {
    if line == "" {
    } else if line[0] != ':' {
      var i := FirstColon(line);
      if i == |line| {
      } else {
        var value := line[i + 1..];
        var trimmed := if value != "" && value[0] == ' ' then value[1..] else value;
      }
    }
  }

  lemma {:induction false} NamesAreOneLine(st: Stream, lines: seq<string>)
    requires NamesOneLine(st) && AllOneLine(lines)
    ensures NamesOneLine(ProcessLines(st, lines))
    decreases |lines|
  {
    if lines != [] {
      assert OneLine(lines[0]);
      LineKeepsNames(st, lines[0]);
      NamesAreOneLine(ProcessLine(st, lines[0]), lines[1..]);
    }
  }

  /** An event name reaches the client exactly when it contains no line break. */
  lemma EventNameSurvivesIffOneLine(e: Event)
    requires e.event.Some? && e.event.value != "" && DataLines(e) != []
    requires e.id.Some? ==> OneLine(e.id.value)
    ensures OneLine(e.event.value) <==> exists m :: m in Interpret(Format(e)).dispatched && m.kind == e.event.value
  {
    if OneLine(e.event.value) {
      OneEventDispatchesWhatItMeans(e);
      assert Meant(e, "")[0] in Meant(e, "");
    } else {
      var s := Format(e);
      NamesAreOneLine(FRESH, StreamLines("", if s != "" && s[0] == 0xFEFF as char then s[1..] else s));
    }
  }

  /** An id reaches the client exactly when it contains no line break and no NUL; of these the
      source refuses only the NUL. */
  lemma IdSurvivesIffOneLine(e: Event)
    requires e.id.Some? && DataLines(e) != []
    requires e.event.Some? ==> OneLine(e.event.value)
    ensures (exists m :: m in Interpret(Format(e)).dispatched && m.lastEventId == e.id.value)
            <==> OneLine(e.id.value) && 0 as char !in e.id.value
  {
    if OneLine(e.id.value) {
      OneEventDispatchesWhatItMeans(e);
      assert Meant(e, "")[0] in Meant(e, "");
    } else {
      var s := Format(e);
      NamesAreOneLine(FRESH, StreamLines("", if s != "" && s[0] == 0xFEFF as char then s[1..] else s));
    }
  }

  /** The documented ending of two line feeds holds exactly when some line is printed;
      without any line the output is a single line feed. */
  lemma EndsWithBlankLineIffSomethingPrinted(e: Event)
    ensures var s := Format(e);
            (|s| >= 2 && s[|s| - 2] == '\n' && s[|s| - 1] == '\n') <==>
              (e.event.Some? || e.id.Some? || e.retry.Some?
               || (e.comment.Some? && e.comment.value != "")
               || FastPath(e)
               || (if e.dataStr.Some? then e.dataStr.value != "" else e.dataBytes.Some? && e.dataBytes.value != ""))
    ensures Lines(e) == [] ==> Format(e) == "\n"
  {
    if e.comment.Some? { SplitIsEmptyIff("", e.comment.value); }
    if e.dataStr.Some? { SplitIsEmptyIff("", e.dataStr.value); }
    if e.dataBytes.Some? { SplitIsEmptyIff("", e.dataBytes.value); }
    PrefixedLength(": ", CommentLines(e));
    PrefixedLength("data: ", DataLines(e));
    assert Terminated([""]) == "\n";
    if Lines(e) == [] {
      assert Lines(e) + [""] == [""];
    } else {
      TerminatedAppend(Lines(e), [""]);
      TerminatedIsJoinPlusFeed(Lines(e));
    }
  }

  lemma {:induction false} SplitIsEmptyIff(cur: string, s: string)
    ensures SplitFrom(cur, s) == [] <==> cur == "" && s == ""
    decreases |s|
  {
    if s != "" && !IsBoundary(s[0]) { SplitIsEmptyIff(cur + [s[0]], s[1..]); }
  }

  lemma {:induction false} PrefixedLength(prefix: string, lines: seq<string>)
    ensures |Prefixed(prefix, lines)| == |lines|
  {
    if lines != [] { PrefixedLength(prefix, lines[1..]); }
  }

  lemma {:induction false} TerminatedAppend(a: seq<string>, b: seq<string>)
    ensures Terminated(a + b) == Terminated(a) + Terminated(b)
  {
    if a == [] {
      assert a + b == b;
    } else {
      assert (a + b)[0] == a[0] && (a + b)[1..] == a[1..] + b;
      TerminatedAppend(a[1..], b);
    }
  }

  /** Text whose only line boundaries are line feeds. */
  predicate OnlyLineFeeds(s: string) {
    forall i :: 0 <= i < |s| ==> IsBoundary(s[i]) ==> s[i] == '\n'
  }

  /** s without a final line feed. */
  function Chop(s: string): string {
    if s != "" && s[|s| - 1] == '\n' then s[..|s| - 1] else s
  }

  lemma ChopTail(s: string)
    requires s != "" && s != "\n"
    ensures Chop(s) == [s[0]] + Chop(s[1..])
  {
    if |s| == 1 {
      assert s == [s[0]];
      assert s[1..] == "";
    } else {
      assert s[1..][|s| - 2] == s[|s| - 1];
    }
  }

  /** Every line boundary, CR LF being one, replaced by a line feed. */
  function Unified(s: string): string
    decreases |s|
  {
    if s == "" then ""
    else if s[0] == '\r' && |s| > 1 && s[1] == '\n' then "\n" + Unified(s[2..])
    else if IsBoundary(s[0]) then "\n" + Unified(s[1..])
    else [s[0]] + Unified(s[1..])
  }

  lemma {:induction false} UnifiedIsIdle(s: string)
    requires OnlyLineFeeds(s)
    ensures Unified(s) == s
  {
    if s != "" { UnifiedIsIdle(s[1..]); }
  }

  /** What follows a boundary is joined behind a line feed. */
  lemma JoinBehindBoundary(cur: string, lines: seq<string>, rest: string)
    requires lines == [] <==> rest == ""
    requires Join(lines) == Chop(rest)
    ensures Join([cur] + lines) == cur + Chop("\n" + rest)
  {
    if rest == "" {
      assert "\n" + rest == "\n" && Chop("\n") == "";
    } else {
      ChopTail("\n" + rest);
      assert ("\n" + rest)[1..] == rest && ([cur] + lines)[1..] == lines;
      ConcatAssociative(cur, "\n", Chop(rest));
    }
  }

  lemma {:induction false} SplitThenJoin(cur: string, s: string)
    ensures Join(SplitFrom(cur, s)) == cur + Chop(Unified(s))
    decreases |s|
  {
    if s == "" {
      assert cur + s == cur;
    } else if IsBoundary(s[0]) {
      var rest := if s[0] == '\r' && |s| > 1 && s[1] == '\n' then s[2..] else s[1..];
      SplitThenJoin("", rest);
      SplitIsEmptyIff("", rest);
      assert "" + Chop(Unified(rest)) == Chop(Unified(rest));
      JoinBehindBoundary(cur, SplitFrom("", rest), Unified(rest));
    } else {
      ChopTail(Unified(s));
      SplitThenJoin(cur + [s[0]], s[1..]);
      ConcatAssociative(cur, [s[0]], Chop(Unified(s[1..])));
    }
  }

  lemma {:induction false} JoinHasOnlyLineFeeds(lines: seq<string>)
    requires forall l :: l in lines ==> NoBoundary(l)
    ensures OnlyLineFeeds(Join(lines))
  {
    if lines != [] {
      assert NoBoundary(lines[0]);
      JoinHasOnlyLineFeeds(lines[1..]);
    }
  }

  /** Splitting and joining gives a text back when its only line boundaries are line feeds
      and it does not end with one; the empty text has no line at all. */
  lemma SplitJoinIff(s: string)
    ensures Join(SplitLines(s)) == s <==> OnlyLineFeeds(s) && (s == "" || s[|s| - 1] != '\n')
    ensures SplitLines(s) == [] <==> s == ""
  {
    JoinHasOnlyLineFeeds(SplitLines(s));
    SplitIsEmptyIff("", s);
    if OnlyLineFeeds(s) {
      SplitThenJoin("", s);
      UnifiedIsIdle(s);
      assert "" + Chop(s) == Chop(s);
      if s != "" && s[|s| - 1] == '\n' { assert |Join(SplitLines(s))| == |s| - 1; }
    }
  }

  /** The text that is split into data lines, if the event takes that path. */
  function SplitText(e: Event): Option<string> {
    if FastPath(e) then None else if e.dataStr.Some? then e.dataStr else e.dataBytes
  }

  /** The client is handed a message with this data. */
  ghost predicate Delivers(e: Event, data: string) {
    exists m :: m in Interpret(Format(e)).dispatched && m.data == data
  }

  /** Main result: data that is split into lines reaches the client unchanged exactly when it
      is not empty, its only line boundaries are line feeds and it does not end with one. */
  lemma DataSurvivesIff(e: Event, s: string)
    requires SplitText(e) == Some(s)
    requires (e.event.Some? ==> OneLine(e.event.value)) && (e.id.Some? ==> OneLine(e.id.value))
    ensures Delivers(e, s) <==> s != "" && OnlyLineFeeds(s) && s[|s| - 1] != '\n'
  {
    OneEventDispatchesWhatItMeans(e);
    SplitJoinIff(s);
    if s != "" {
      assert Meant(e, "")[0].data == Join(SplitLines(s));
      assert Meant(e, "")[0] in Meant(e, "");
    }
  }

  /** Main result: whatever the text, split data is dispatched as one message with every line
      boundary turned into a line feed and a final one dropped; empty data is not dispatched. */
  lemma SplitDataIsDispatched(e: Event, s: string)
    requires !FastPath(e) && (e.dataStr == Some(s) || (e.dataStr.None? && e.dataBytes == Some(s)))
    requires (e.event.Some? ==> OneLine(e.event.value)) && (e.id.Some? ==> OneLine(e.id.value))
    ensures Interpret(Format(e)).dispatched ==
              if s == "" then []
              else [Message(if e.event.None? || e.event.value == "" then "message" else e.event.value,
                            Chop(Unified(s)),
                            if e.id.None? || 0 as char in e.id.value then "" else e.id.value)]
  {
    OneEventDispatchesWhatItMeans(e);
    SplitThenJoin("", s);
    SplitIsEmptyIff("", s);
    assert "" + Chop(Unified(s)) == Chop(Unified(s));
  }

  /** The comments among the lines, without their prefix. */
  function CommentsIn(lines: seq<string>): seq<string> {
    if lines == [] then []
    else (if ": " <= lines[0] then [lines[0][2..]] else []) + CommentsIn(lines[1..])
  }

  lemma {:induction false} CommentsAppend(a: seq<string>, b: seq<string>)
    ensures CommentsIn(a + b) == CommentsIn(a) + CommentsIn(b)
  {
    if a == [] {
      assert a + b == b;
    } else {
      assert (a + b)[0] == a[0] && (a + b)[1..] == a[1..] + b;
      CommentsAppend(a[1..], b);
    }
  }

  lemma {:induction false} PrefixedComments(prefix: string, lines: seq<string>)
    requires prefix == ": " || (prefix != "" && prefix[0] != ':')
    ensures CommentsIn(Prefixed(prefix, lines)) == if prefix == ": " then lines else []
  {
    if lines != [] {
      PrefixedComments(prefix, lines[1..]);
      var l := prefix + lines[0];
      assert prefix == ": " ==> l[2..] == lines[0];
      assert l[0] == prefix[0];
    }
  }

  lemma NoCommentInField(prefix: string, value: Option<string>)
    requires prefix != "" && prefix[0] != ':'
    ensures CommentsIn(FieldLine(prefix, value)) == []
  {
    if value.Some? {
      var l := prefix + value.value;
      assert l[0] == prefix[0];
      assert CommentsIn([l]) == CommentsIn([l][1..]);
    }
  }

  lemma CommentsOfLines(e: Event)
    ensures CommentsIn(Lines(e) + [""]) == CommentLines(e)
  {
    var a, b, c := Prefixed(": ", CommentLines(e)), FieldLine("event: ", e.event), Prefixed("data: ", DataLines(e));
    var d, f := FieldLine("id: ", e.id), FieldLine("retry: ", RetryText(e));
    CommentsAppend(a + b + c + d + f, [""]);
    CommentsAppend(a + b + c + d, f);
    CommentsAppend(a + b + c, d);
    CommentsAppend(a + b, c);
    CommentsAppend(a, b);
    PrefixedComments(": ", CommentLines(e));
    PrefixedComments("data: ", DataLines(e));
    NoCommentInField("event: ", e.event);
    NoCommentInField("id: ", e.id);
    NoCommentInField("retry: ", RetryText(e));
    assert CommentsIn([""]) == CommentsIn([""][1..]);
  }

  /** The comment is printed: read back from the stream it is the text with every line boundary
      turned into a line feed and a final one dropped. */
  lemma CommentIsPrinted(e: Event, s: string)
    requires e.comment == Some(s) && WellFormed(e)
    ensures Join(CommentsIn(StreamLines("", Format(e)))) == Chop(Unified(s))
  {
    var lines := Lines(e) + [""];
    EmittedLinesAreOneLine(e);
    PrintedLinesAreRead(lines, "");
    assert Terminated(lines) + "" == Terminated(lines) && lines + [] == lines;
    assert StreamLines("", "") == [];
    CommentsOfLines(e);
    SplitThenJoin("", s);
    assert "" + Chop(Unified(s)) == Chop(Unified(s));
  }

  /** Empty text is the input that joins back and is still never delivered: an event with
      empty raw data is dropped. */
  lemma EmptyDataIsDropped(e: Event)
    requires SplitText(e) == Some("")
    requires (e.event.Some? ==> OneLine(e.event.value)) && (e.id.Some? ==> OneLine(e.id.value))
    ensures Join(SplitLines("")) == "" && Interpret(Format(e)).dispatched == []
  {
    OneEventDispatchesWhatItMeans(e);
  }

  // --- the fast path with any data ---------------------------------------------------------------

  function TotalLength(lines: seq<string>): nat {
    if lines == [] then 0 else |lines[0]| + TotalLength(lines[1..])
  }

  /** The data buffer is a sequence of terminated lines. */
  predicate Buffered(st: Stream) {
    st.data != "" ==> st.data[|st.data| - 1] == '\n'
  }

  /** One line adds at most its own length to the data buffer, and a message is shorter than
      the buffer was. */
  lemma LineGrowth(st: Stream, line: string)
    requires Buffered(st)
    ensures var t := ProcessLine(st, line);
            && Buffered(t)
            && |t.data| <= |st.data| + |line|
            && st.dispatched <= t.dispatched
            && forall i :: |st.dispatched| <= i < |t.dispatched| ==> |t.dispatched[i].data| < |st.data|
  {
  }

  lemma {:induction false} MessagesAreShort(st: Stream, lines: seq<string>, bound: nat)
    requires Buffered(st) && |st.data| + TotalLength(lines) <= bound
    ensures var t := ProcessLines(st, lines);
            && |st.dispatched| <= |t.dispatched| && t.dispatched[..|st.dispatched|] == st.dispatched
            && forall i :: |st.dispatched| <= i < |t.dispatched| ==> |t.dispatched[i].data| < bound
    decreases |lines|
  {
    if lines != [] {
      var u := ProcessLine(st, lines[0]);
      LineGrowth(st, lines[0]);
      MessagesAreShort(u, lines[1..], bound);
      var t := ProcessLines(st, lines);
      forall i | |st.dispatched| <= i < |t.dispatched| ensures |t.dispatched[i].data| < bound {
        if i < |u.dispatched| { assert t.dispatched[i] == t.dispatched[..|u.dispatched|][i]; }
      }
    }
  }

  /** The characters that do not break lines. */
  function Text(s: string): string {
    if s == "" then "" else (if IsLineBreak(s[0]) then "" else [s[0]]) + Text(s[1..])
  }

  lemma {:induction false} TextIsShorterIff(s: string)
    ensures |Text(s)| <= |s|
    ensures |Text(s)| < |s| <==> !OneLine(s)
  {
    if s != "" {
      TextIsShorterIff(s[1..]);
      assert OneLine(s) <==> !IsLineBreak(s[0]) && OneLine(s[1..]) by {
        assert s == [s[0]] + s[1..];
      }
    }
  }

  lemma {:induction false} TextAppend(a: string, b: string)
    ensures Text(a + b) == Text(a) + Text(b)
  {
    if a == "" {
      assert a + b == b;
    } else {
      assert (a + b)[0] == a[0] && (a + b)[1..] == a[1..] + b;
      TextAppend(a[1..], b);
    }
  }

  /** Lines hold no more than the text that does not break lines, and the first one goes on
      from what was collected. */
  lemma {:induction false} StreamLinesAreShort(cur: string, s: string)
    ensures TotalLength(StreamLines(cur, s)) <= |cur| + |Text(s)|
    ensures StreamLines(cur, s) != [] ==> cur <= StreamLines(cur, s)[0]
    decreases |s|
  {
    if s != "" {
      if s[0] == '\n' {
        StreamLinesAreShort("", s[1..]);
      } else if s[0] == '\r' {
        var rest := if |s| > 1 && s[1] == '\n' then s[2..] else s[1..];
        if |s| > 1 && s[1] == '\n' { assert s[1..][1..] == rest; }
        StreamLinesAreShort("", rest);
      } else {
        StreamLinesAreShort(cur + [s[0]], s[1..]);
        if StreamLines(cur, s) != [] { assert cur <= cur + [s[0]] <= StreamLines(cur, s)[0]; }
      }
    }
  }

  lemma {:induction false} LineGoesOn(cur: string, l: string, rest: string)
    requires OneLine(l)
    ensures StreamLines(cur, l + rest) == StreamLines(cur + l, rest)
    decreases |l|
  {
    if l == "" {
      assert l + rest == rest && cur + l == cur;
    } else {
      assert (l + rest)[0] == l[0] && (l + rest)[1..] == l[1..] + rest;
      LineGoesOn(cur + [l[0]], l[1..], rest);
      assert cur + [l[0]] + l[1..] == cur + l;
    }
  }

  /** The first line of the fast path puts the text behind its prefix into the buffer. */
  lemma DataPrefixIsRead(line: string, prefix: string)
    requires prefix == "data: " && prefix <= line
    ensures ProcessLine(FRESH, line).data == line[6..] + "\n"
    ensures ProcessLine(FRESH, line).dispatched == []
  {
    assert line == prefix + line[6..];
    DataLineIsRead(FRESH, line[6..], line);
    assert "" + (line[6..] + "\n") == line[6..] + "\n";
  }

  lemma BrokenDataIsTruncated(data: string, prefix: string, s: string)
    requires !OneLine(data) && prefix == "data: " && s == prefix + (data + "\n\n")
    ensures forall m :: m in ProcessLines(FRESH, StreamLines("", s)).dispatched ==> |m.data| < |data|
  {
    var lines := StreamLines("", s);
    LineGoesOn("", prefix, data + "\n\n");
    assert "" + prefix == prefix;
    StreamLinesAreShort(prefix, data + "\n\n");
    TextAppend(data, "\n\n");
    TextIsShorterIff(data);
    assert Text("\n\n") == Text("\n") == "" by {
      assert "\n\n"[1..] == "\n" && "\n"[1..] == "";
    }
    assert TotalLength(lines) < |prefix| + |data|;
    if lines != [] {
      DataPrefixIsRead(lines[0], prefix);
      MessagesAreShort(ProcessLine(FRESH, lines[0]), lines[1..], |data|);
    }
  }

  /** Main result: on the fast path the encoded data reaches the client unchanged exactly when
      it has no line break, so empty data is delivered here. */
  lemma FastPathDataSurvivesIff(e: Event)
    requires FastPath(e)
    ensures Delivers(e, e.dataBytes.value) <==> OneLine(e.dataBytes.value)
  {
    var data := e.dataBytes.value;
    if OneLine(data) {
      OneEventDispatchesWhatItMeans(e);
      assert Meant(e, "")[0].data == data && Meant(e, "")[0] in Meant(e, "");
    } else {
      var s := Format(e);
      FastPathIsFormat(e);
      assert s == "data: " + (data + "\n\n") && s[0] == 'd';
      BrokenDataIsTruncated(data, "data: ", s);
    }
  }

  /** The fast path prints what the line-splitting path prints, for non-empty data
      without any line boundary. */
  lemma FastPathAgreesWithSlowPath(data: string)
    requires data != "" && NoBoundary(data)
    ensures Format(Event(None, Some(data), None, None, None, None))
         == Format(Event(Some(data), None, None, None, None, None))
  {
    SplitWithoutBoundary("", data);
    assert "" + data == data;
    assert Lines(Event(None, Some(data), None, None, None, None))
        == Lines(Event(Some(data), None, None, None, None, None));
  }

  lemma {:induction false} SplitWithoutBoundary(cur: string, s: string)
    requires NoBoundary(s) && cur + s != ""
    ensures SplitFrom(cur, s) == [cur + s]
    decreases |s|
  {
    if s == "" {
      assert cur + s == cur;
    } else {
      SplitWithoutBoundary(cur + [s[0]], s[1..]);
      assert cur + [s[0]] + s[1..] == cur + s;
    }
  }
}
