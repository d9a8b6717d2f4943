/** The wire format of the log endpoint: the printer of internal/api/api.go and the parser that
    clients run, section 9.2.6 of the WHATWG HTML Living Standard (Server-Sent Events). */
module EventStream {
  import opened Text
  import opened LogStream

  // ---- Printer: internal/api/api.go, lines 408 and 412 ----

  const EOF_EVENT := "event: eof\ndata: done\n\n"

  function LineEvent(e: LogEntry): string {
    "id: " + e.id + "\ndata: " + e.line + "\n\n"
  }

  function Print(entries: seq<LogEntry>): string {
    if entries == [] then "" else LineEvent(entries[0]) + Print(entries[1..])
  }

  lemma Assoc(a: string, b: string, c: string)
    ensures a + (b + c) == (a + b) + c
  {
  }

  lemma {:induction false} PrintAppend(a: seq<LogEntry>, b: seq<LogEntry>)
    ensures Print(a + b) == Print(a) + Print(b)
  {
    if a == [] {
      assert a + b == b;
    } else {
      PrintAppend(a[1..], b);
      assert (a + b)[1..] == a[1..] + b;
      Assoc(LineEvent(a[0]), Print(a[1..]), Print(b));
    }
  }

  // ---- Parser ----

  datatype Event = Event(kind: string, data: string, lastEventID: string)

  /** The state of a parse: the line being read, the three buffers of the standard, the last event ID
      string of the event source, and the events dispatched so far. */
  datatype Parser = Parser(
    line: string,
    afterCR: bool,
    data: string,
    kind: string,
    idBuffer: string,
    lastEventID: string,
    events: seq<Event>)

  function Dispatch(p: Parser): Parser {
    var q := p.(lastEventID := p.idBuffer, data := "", kind := "");
    if p.data == "" then q
    else
      var data := if p.data[|p.data| - 1] == '\n' then p.data[..|p.data| - 1] else p.data;
      q.(events := p.events + [Event(if p.kind == "" then "message" else p.kind, data, p.idBuffer)])
  }

  function ProcessField(p: Parser, field: string, value: string): Parser {
    if field == "event" then p.(kind := value)
    else if field == "data" then p.(data := p.data + value + "\n")
    else if field == "id" then (if '\0' in value then p else p.(idBuffer := value))
    else p  // "retry" sets a delay that has no part in what is delivered
  }

  function ProcessLine(p: Parser, line: string): Parser {
    if line == "" then Dispatch(p)
    else if line[0] == ':' then p
    else
      var colon := IndexOf(line, ':');
      var rest := if colon == |line| then "" else line[colon + 1..];
      ProcessField(p, line[..colon], if rest != "" && rest[0] == ' ' then rest[1..] else rest)
  }

  /** One character; a line ends with LF, CR, or CR LF. */
  function Feed(p: Parser, c: char): Parser {
    if c == '\n' && p.afterCR then p.(afterCR := false)
    else if c == '\n' || c == '\r' then ProcessLine(p.(line := ""), p.line).(afterCR := c == '\r')
    else p.(line := p.line + [c], afterCR := false)
  }

  function FeedAll(p: Parser, s: string): Parser
    decreases |s|
  {
    if s == "" then p else FeedAll(Feed(p, s[0]), s[1..])
  }

  /** The start of a stream; `remembered` is the last event ID string of the event source. */
  function Open(remembered: string, idBuffer: string): Parser {
    Parser("", false, "", "", idBuffer, remembered, [])
  }

  function WithoutBom(s: string): string {
    if s != "" && s[0] == '\U{FEFF}' then s[1..] else s
  }

  function Parse(p: Parser, s: string): Parser {
    FeedAll(p, WithoutBom(s))
  }

  // ---- Facts about feeding ----

  lemma {:induction false} FeedAppend(p: Parser, a: string, b: string)
    ensures FeedAll(p, a + b) == FeedAll(FeedAll(p, a), b)
    decreases |a|
  {
    if a == "" {
      assert a + b == b;
    } else {
      FeedAppend(Feed(p, a[0]), a[1..], b);
      assert (a + b)[1..] == a[1..] + b;
    }
  }

  predicate OneLine(s: string) {
    '\n' !in s && '\r' !in s
  }

  lemma {:induction false} FeedText(p: Parser, s: string)
    requires OneLine(s) && !p.afterCR
    ensures FeedAll(p, s) == p.(line := p.line + s)
    decreases |s|
  {
    if s == "" {
      assert p.line + s == p.line;
    } else {
      FeedText(Feed(p, s[0]), s[1..]);
      assert p.line + [s[0]] + s[1..] == p.line + s;
    }
  }

  /** Between lines. */
  predicate Fresh(p: Parser) {
    p.line == "" && !p.afterCR
  }

  lemma FeedLine(p: Parser, s: string)
    requires OneLine(s) && Fresh(p)
    ensures FeedAll(p, s + "\n") == ProcessLine(p, s)
  {
    FeedAppend(p, s, "\n");
    FeedText(p, s);
    var q := p.(line := s);
    assert p.line + s == s;
    assert FeedAll(q, "\n") == Feed(q, '\n');
    assert q.(line := "") == p;
  }

  /** An unfinished or non-blank line dispatches nothing. */
  lemma FeedPartOfLine(p: Parser, s: string, q: string)
    requires OneLine(s) && s != "" && Fresh(p) && q <= s + "\n"
    ensures FeedAll(p, q).events == p.events && FeedAll(p, q).lastEventID == p.lastEventID
  {
    if q == s + "\n" {
      FeedLine(p, s);
    } else {
      assert |q| <= |s| && q == s[..|q|];
      FeedText(p, q);
    }
  }

  // ---- One event ----

  predicate Idle(p: Parser) {
    Fresh(p) && p.data == "" && p.kind == ""
  }

  predicate PlainID(id: string) {
    OneLine(id) && '\0' !in id
  }

  lemma FieldLine(p: Parser, field: string, value: string)
    requires field != "" && ':' !in field
    ensures ProcessLine(p, field + ": " + value) == ProcessField(p, field, value)
  {
    hide ProcessField, IndexOf;
    var line := field + [':'] + (" " + value);
    assert field + ": " + value == line;
    IndexOfCut(field, " " + value, ':');
    assert line[..|field|] == field && line[|field| + 1..] == " " + value && (" " + value)[1..] == value;
  }

  lemma IDLine(p: Parser, id: string)
    requires Fresh(p) && PlainID(id)
    ensures FeedAll(p, "id: " + id + "\n") == p.(idBuffer := id)
  {
    FeedLine(p, "id: " + id);
    FieldLine(p, "id", id);
    assert "id" + ": " == "id: ";
  }

  lemma DataLine(p: Parser, line: string)
    requires Fresh(p) && p.data == "" && OneLine(line)
    ensures FeedAll(p, "data: " + line + "\n") == p.(data := line + "\n")
  {
    FeedLine(p, "data: " + line);
    FieldLine(p, "data", line);
    assert "data" + ": " == "data: ";
    assert "" + line == line;
  }

  lemma BlankLine(p: Parser, line: string)
    requires Fresh(p) && p.data == line + "\n"
    ensures FeedAll(p, "\n")
         == p.(lastEventID := p.idBuffer, data := "", kind := "",
               events := p.events + [Event(if p.kind == "" then "message" else p.kind, line, p.idBuffer)])
  {
    FeedLine(p, "");
    assert "" + "\n" == "\n";
    assert (line + "\n")[..|line + "\n"| - 1] == line;
  }

  /** A data line and the blank line after it. */
  lemma DataLines(p: Parser, line: string)
    requires Fresh(p) && p.data == "" && OneLine(line)
    ensures FeedAll(p, "data: " + line + "\n\n")
         == p.(lastEventID := p.idBuffer, kind := "",
               events := p.events + [Event(if p.kind == "" then "message" else p.kind, line, p.idBuffer)])
  {
    DataLine(p, line);
    assert "data: " + line + "\n\n" == ("data: " + line + "\n") + "\n";
    FeedAppend(p, "data: " + line + "\n", "\n");
    BlankLine(p.(data := line + "\n"), line);
  }

  lemma FeedLineEvent(p: Parser, e: LogEntry)
    requires Idle(p) && PlainID(e.id) && OneLine(e.line)
    ensures FeedAll(p, LineEvent(e))
         == p.(idBuffer := e.id, lastEventID := e.id, events := p.events + [Event("message", e.line, e.id)])
  {
    var first, second := "id: " + e.id + "\n", "data: " + e.line + "\n\n";
    assert LineEvent(e) == first + second;
    FeedAppend(p, first, second);
    IDLine(p, e.id);
    DataLines(p.(idBuffer := e.id), e.line);
  }

  lemma KindLine(p: Parser, kind: string)
    requires Fresh(p) && OneLine(kind)
    ensures FeedAll(p, "event: " + kind + "\n") == p.(kind := kind)
  {
    FeedLine(p, "event: " + kind);
    FieldLine(p, "event", kind);
    assert "event" + ": " == "event: ";
  }

  lemma EofEventPieces()
    ensures EOF_EVENT == ("event: " + "eof" + "\n") + ("data: " + "done" + "\n\n")
  {
  }

  lemma FeedNamedEvent(p: Parser, kind: string, line: string)
    requires Idle(p) && OneLine(kind) && kind != "" && OneLine(line)
    ensures FeedAll(p, ("event: " + kind + "\n") + ("data: " + line + "\n\n"))
         == p.(lastEventID := p.idBuffer, events := p.events + [Event(kind, line, p.idBuffer)])
  {
    KindLine(p, kind);
    FeedAppend(p, "event: " + kind + "\n", "data: " + line + "\n\n");
    DataLines(p.(kind := kind), line);
  }

  lemma FeedEofEvent(p: Parser)
    requires Idle(p)
    ensures FeedAll(p, EOF_EVENT)
         == p.(lastEventID := p.idBuffer, events := p.events + [Event("eof", "done", p.idBuffer)])
  {
    EofEventPieces();
    FeedNamedEvent(p, "eof", "done");
  }

  /** An event cut short anywhere leaves no trace in what was delivered. */
  lemma CutEvent(p: Parser, first: string, second: string, q: string)
    requires Fresh(p) && OneLine(first) && first != "" && OneLine(second) && second != ""
    requires !(first[0] == ':' || second[0] == ':')
    requires var whole := first + "\n" + second + "\n\n"; q <= whole && |q| < |whole|
    ensures FeedAll(p, q).events == p.events && FeedAll(p, q).lastEventID == p.lastEventID
  {
    var a, b := first + "\n", second + "\n";
    var whole := first + "\n" + second + "\n\n";
    assert whole == a + b + "\n";
    assert q <= a + b by { assert q == (a + b + "\n")[..|q|]; }
    if |q| <= |a| {
      assert q <= a;
      FeedPartOfLine(p, first, q);
    } else {
      var r := q[|a|..];
      assert q == a + r && r <= b;
      FeedAppend(p, a, r);
      FeedLine(p, first);
      FeedPartOfLine(ProcessLine(p, first), second, r);
    }
  }

  // ---- Whole outputs ----

  function EofText(eof: bool): string {
    if eof then EOF_EVENT else ""
  }

  function Output(entries: seq<LogEntry>, eof: bool): string {
    Print(entries) + EofText(eof)
  }

  /** What a client should get for some entries. */
  function Messages(entries: seq<LogEntry>): seq<Event> {
    seq(|entries|, i requires 0 <= i < |entries| => Event("message", entries[i].line, entries[i].id))
  }

  function LastID(entries: seq<LogEntry>, otherwise: string): string {
    if entries == [] then otherwise else entries[|entries| - 1].id
  }

  function EofEvents(eof: bool, id: string): seq<Event> {
    if eof then [Event("eof", "done", id)] else []
  }

  ghost predicate Printable(entries: seq<LogEntry>) {
    forall i :: 0 <= i < |entries| ==> PlainID(entries[i].id) && OneLine(entries[i].line)
  }

  /** A client that received `n` whole line events and perhaps the eof event. */
  ghost predicate Received(p: Parser, entries: seq<LogEntry>, n: nat, sawEof: bool, r: Parser) {
    && n <= |entries|
    && (sawEof ==> n == |entries|)
    && r.events == p.events + Messages(entries[..n]) + EofEvents(sawEof, LastID(entries[..n], p.idBuffer))
    && r.lastEventID == LastID(entries[..n], if sawEof then p.idBuffer else p.lastEventID)
  }

  lemma CutNamedEvent(p: Parser, kind: string, line: string, q: string)
    requires Fresh(p) && OneLine(kind) && OneLine(line)
    requires var whole := ("event: " + kind + "\n") + ("data: " + line + "\n\n"); q <= whole && |q| < |whole|
    ensures FeedAll(p, q).events == p.events && FeedAll(p, q).lastEventID == p.lastEventID
  {
    var first, second := "event: " + kind, "data: " + line;
    assert ("event: " + kind + "\n") + ("data: " + line + "\n\n") == first + "\n" + second + "\n\n";
    CutEvent(p, first, second, q);
  }

  lemma CutEofEvent(p: Parser, q: string)
    requires Fresh(p) && q <= EOF_EVENT && |q| < |EOF_EVENT|
    ensures FeedAll(p, q).events == p.events && FeedAll(p, q).lastEventID == p.lastEventID
  {
    EofEventPieces();
    CutNamedEvent(p, "eof", "done", q);
  }

  lemma NothingReceived(p: Parser, entries: seq<LogEntry>, r: Parser)
    requires r.events == p.events && r.lastEventID == p.lastEventID
    ensures Received(p, entries, 0, false, r)
  {
    assert entries[..0] == [];
    assert p.events + [] + [] == p.events;
  }

  lemma OnlyEofReceived(p: Parser, r: Parser)
    requires r.events == p.events + EofEvents(true, p.idBuffer) && r.lastEventID == p.idBuffer
    ensures Received(p, [], 0, true, r)
  {
    var none: seq<LogEntry> := [];
    assert none[..0] == none;
    assert p.events + [] == p.events;
  }

  lemma CutEof(p: Parser, eof: bool, q: string) returns (sawEof: bool)
    requires Idle(p) && q <= EofText(eof)
    ensures Received(p, [], 0, sawEof, FeedAll(p, q))
    ensures sawEof ==> eof
    ensures |q| == |EofText(eof)| ==> sawEof == eof
  {
    var whole := EofText(eof);
    sawEof := eof && |q| == |whole|;
    if sawEof {
      assert q == whole;
      FeedEofEvent(p);
      OnlyEofReceived(p, FeedAll(p, q));
    } else {
      if eof {
        CutEofEvent(p, q);
      }
      NothingReceived(p, [], FeedAll(p, q));
    }
  }

  /** One more event in front of what was received after it. */
  lemma ReceivedCons(p: Parser, e: LogEntry, rest: seq<LogEntry>, m: nat, sawEof: bool, next: Parser, r: Parser)
    requires next == p.(idBuffer := e.id, lastEventID := e.id, events := p.events + [Event("message", e.line, e.id)])
    requires Received(next, rest, m, sawEof, r)
    ensures Received(p, [e] + rest, m + 1, sawEof, r)
  {
    var entries := [e] + rest;
    assert entries[..m + 1] == [e] + rest[..m];
    assert p.events + Messages(entries[..m + 1]) == next.events + Messages(rest[..m]);
  }

  /** However the output is cut, the client has a whole number of events from its beginning and
      remembers the ID of the last line among them. */
  lemma {:induction false} CutOutput(p: Parser, entries: seq<LogEntry>, eof: bool, q: string) returns (n: nat, sawEof: bool)
    requires Idle(p) && Printable(entries) && q <= Output(entries, eof)
    ensures Received(p, entries, n, sawEof, FeedAll(p, q))
    ensures sawEof ==> eof
    ensures |q| == |Output(entries, eof)| ==> n == |entries| && sawEof == eof
    decreases |entries|
  {
    if entries == [] {
      assert Output(entries, eof) == EofText(eof);
      n := 0;
      sawEof := CutEof(p, eof, q);
      return;
    }
    var e, rest := entries[0], entries[1..];
    var block, tail := LineEvent(e), Output(rest, eof);
    assert entries == [e] + rest;
    OutputCons(e, rest, eof);
    if |q| < |block| {
      CutLineEvent(p, e, tail, q);
      NothingReceived(p, entries, FeedAll(p, q));
      n, sawEof := 0, false;
    } else {
      var q' := q[|block|..];
      assert q == block + q' && q' <= tail;
      FeedAppend(p, block, q');
      FeedLineEvent(p, e);
      var next := p.(idBuffer := e.id, lastEventID := e.id, events := p.events + [Event("message", e.line, e.id)]);
      var m, saw := CutOutput(next, rest, eof, q');
      n, sawEof := m + 1, saw;
      ReceivedCons(p, e, rest, m, saw, next, FeedAll(p, q));
    }
  }

  lemma OutputCons(e: LogEntry, rest: seq<LogEntry>, eof: bool)
    ensures Output([e] + rest, eof) == LineEvent(e) + Output(rest, eof)
  {
    assert ([e] + rest)[1..] == rest;
    assert LineEvent(e) + Print(rest) + EofText(eof) == LineEvent(e) + (Print(rest) + EofText(eof));
  }

  lemma CutLineEvent(p: Parser, e: LogEntry, tail: string, q: string)
    requires Fresh(p) && PlainID(e.id) && OneLine(e.line)
    requires q <= LineEvent(e) + tail && |q| < |LineEvent(e)|
    ensures FeedAll(p, q).events == p.events && FeedAll(p, q).lastEventID == p.lastEventID
  {
    var block := LineEvent(e);
    assert q <= block by { assert q == (block + tail)[..|q|]; }
    assert block == ("id: " + e.id) + "\n" + ("data: " + e.line) + "\n\n";
    CutEvent(p, "id: " + e.id, "data: " + e.line, q);
  }

  lemma OutputHasNoBom(entries: seq<LogEntry>, eof: bool, q: string)
    requires q <= Output(entries, eof)
    ensures WithoutBom(q) == q
  {
    if q != "" {
      EofEventPieces();
      assert entries != [] ==> Print(entries)[0] == 'i';
      assert q[0] == Output(entries, eof)[0];
    }
  }

  // ---- The round trip, and the one character that breaks it ----

  predicate NoCR(p: Parser) {
    && '\r' !in p.line && '\r' !in p.data
    && forall i :: 0 <= i < |p.events| ==> '\r' !in p.events[i].data
  }

  lemma LineKeepsNoCR(p: Parser, line: string)
    requires NoCR(p) && '\r' !in line
    ensures NoCR(ProcessLine(p, line))
  {
  }

  /** No parse ever yields data with a carriage return in it. */
  lemma {:induction false} ParsedDataHasNoCR(p: Parser, s: string)
    requires NoCR(p)
    ensures NoCR(FeedAll(p, s))
    decreases |s|
  {
    if s != "" {
      LineKeepsNoCR(p.(line := ""), p.line);
      ParsedDataHasNoCR(Feed(p, s[0]), s[1..]);
    }
  }

  /** Parsing undoes printing, for all IDs that Redis can make and all lines a scanner can yield
      (free of LF), exactly when no line has a carriage return inside. */
  lemma RoundTripExactlyWithoutCR(entries: seq<LogEntry>, eof: bool, remembered: string)
    requires forall e :: e in entries ==> PlainID(e.id) && '\n' !in e.line
    ensures Parse(Open(remembered, ""), Output(entries, eof)).events == Messages(entries) + EofEvents(eof, LastID(entries, ""))
       <==> forall e :: e in entries ==> '\r' !in e.line
  {
    var p := Open(remembered, "");
    OutputHasNoBom(entries, eof, Output(entries, eof));
    if forall e :: e in entries ==> '\r' !in e.line {
      var n, sawEof := CutOutput(p, entries, eof, Output(entries, eof));
      assert entries[..n] == entries;
    } else {
      var e :| e in entries && '\r' in e.line;
      var i :| 0 <= i < |entries| && entries[i] == e;
      var r := Parse(p, Output(entries, eof));
      ParsedDataHasNoCR(p, Output(entries, eof));
      assert (Messages(entries) + EofEvents(eof, LastID(entries, "")))[i].data == e.line;
    }
  }
}
