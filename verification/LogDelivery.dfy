/** Reading a log over HTTP: the handler's cursor loop (handleGetLogs in internal/api/api.go) and
    clients that drop, reconnect and resume. */
module LogDelivery {
  import opened Text
  import opened LogStream
  import opened EventStream

  /** What one read finds: the stream as it is then, how much of it the server hands over, and whether
      it answers at all. */
  datatype View = View(stream: seq<Message>, cap: nat, up: bool)

  datatype Ending =
    | Eof        // the first end-of-log mark was reached
    | Quiet      // nothing new and the client does not follow
    | Failed     // the read failed
    | Cancelled  // the request's context ended

  datatype Reply = Reply(text: string, lastID: string, turns: nat, ending: Ending)

  datatype Emission = Emission(text: string, lastID: string, eof: bool)

  /** The inner loop, lines 406 to 414. */
  function Emit(entries: seq<LogEntry>, lastID: string): Emission {
    if entries == [] then Emission("", lastID, false)
    else if entries[0].eof then Emission(EOF_EVENT, lastID, true)
    else
      var rest := Emit(entries[1..], entries[0].id);
      rest.(text := LineEvent(entries[0]) + rest.text)
  }

  /** The outer loop, one read per view; the context ends when there are no more. */
  function Serve(views: seq<View>, lastID: string, follow: bool): Reply {
    if views == [] then Reply("", lastID, 0, Cancelled)
    else
      match if views[0].up then ReadPage(views[0].stream, lastID, views[0].cap) else None
      case None => Reply("", lastID, 1, Failed)
      case Some(entries) =>
        var e := Emit(entries, lastID);
        if e.eof then Reply(e.text, e.lastID, 1, Eof)
        else if !follow && entries == [] then Reply(e.text, e.lastID, 1, Quiet)
        else
          var rest := Serve(views[1..], e.lastID, follow);
          Reply(e.text + rest.text, rest.lastID, 1 + rest.turns, rest.ending)
  }

  function StartCursor(header: string): string {
    if header == "" then "0" else header
  }

  method EmitLoop(entries: seq<LogEntry>, start: string) returns (e: Emission)
    ensures e == Emit(entries, start)
  {
    var text, lastID := "", start;
    for i := 0 to |entries|
      invariant var rest := Emit(entries[i..], lastID);
                Emit(entries, start) == Emission(text + rest.text, rest.lastID, rest.eof)
    {
      var rest := entries[i..];
      assert rest[0] == entries[i] && rest[1..] == entries[i + 1..];
      if entries[i].eof {
        return Emission(text + EOF_EVENT, lastID, true);
      }
      Assoc(text, LineEvent(entries[i]), Emit(rest[1..], entries[i].id).text);
      text := text + LineEvent(entries[i]);
      lastID := entries[i].id;
    }
    assert text + "" == text;
    e := Emission(text, lastID, false);
  }

  /** The handler itself. Before every read other parties may have appended to the stream, which is
      what `views` records. */
  method HandleGetLogs(header: string, follow: bool, views: seq<View>) returns (r: Reply)
    ensures r == Serve(views, StartCursor(header), follow)
  {
    var text, lastID, turns := "", header, 0;
    if lastID == "" {
      lastID := "0";
    }
    ghost var start := lastID;
    while true
      invariant turns <= |views|
      invariant var rest := Serve(views[turns..], lastID, follow);
                Serve(views, start, follow) == Reply(text + rest.text, rest.lastID, turns + rest.turns, rest.ending)
      decreases |views| - turns
    {
      assert text + "" == text;
      if turns == |views| {
        return Reply(text, lastID, turns, Cancelled);
      }
      ghost var rest := views[turns..];
      assert rest[0] == views[turns] && rest[1..] == views[turns + 1..];
      var read := ReadStream(views[turns].stream, lastID, views[turns].cap, views[turns].up);
      turns := turns + 1;
      if read.None? {
        return Reply(text, lastID, turns, Failed);
      }
      var e := EmitLoop(read.value, lastID);
      Assoc(text, e.text, Serve(rest[1..], e.lastID, follow).text);
      text, lastID := text + e.text, e.lastID;
      if e.eof {
        return Reply(text, lastID, turns, Eof);
      }
      if !follow && |read.value| == 0 {
        return Reply(text, lastID, turns, Quiet);
      }
    }
  }

  // ---- What a connection sends ----

  /** The entries between two positions of the stream. */
  function Entries(stream: seq<Message>, from: nat, to: nat): seq<LogEntry>
    requires from <= to <= |stream|
  {
    DecodeAll(stream[from..to])
  }

  lemma EntriesSplit(stream: seq<Message>, a: nat, b: nat, c: nat)
    requires a <= b <= c <= |stream|
    ensures Entries(stream, a, c) == Entries(stream, a, b) + Entries(stream, b, c)
  {
  }

  lemma EntriesCons(stream: seq<Message>, a: nat, c: nat)
    requires a < c <= |stream|
    ensures Entries(stream, a, c) == [Decode(stream[a])] + Entries(stream, a + 1, c)
  {
  }

  lemma OutputSplit(stream: seq<Message>, a: nat, b: nat, c: nat, eof: bool)
    requires a <= b <= c <= |stream|
    ensures Output(Entries(stream, a, b), false) + Output(Entries(stream, b, c), eof) == Output(Entries(stream, a, c), eof)
  {
    var first, second := Entries(stream, a, b), Entries(stream, b, c);
    EntriesSplit(stream, a, b, c);
    PrintAppend(first, second);
    assert Print(first) + "" == Print(first);
    Assoc(Print(first), Print(second), EofText(eof));
  }

  lemma EmitCons(e: LogEntry, rest: seq<LogEntry>, lastID: string)
    ensures Emit([e] + rest, lastID)
         == if e.eof then Emission(EOF_EVENT, lastID, true)
            else Emit(rest, e.id).(text := LineEvent(e) + Emit(rest, e.id).text)
  {
    assert ([e] + rest)[1..] == rest;
  }

  /** A page that starts before the first mark is printed up to the mark, if it reaches it. */
  lemma {:induction false} EmitStopsAtEof(stream: seq<Message>, k: nat, to: nat)
    requires k <= FirstEof(stream) && k <= to <= |stream|
    ensures var stop, eof := Min(to, FirstEof(stream)), to > FirstEof(stream);
            Emit(Entries(stream, k, to), CursorAt(stream, k))
            == Emission(Output(Entries(stream, k, stop), eof), CursorAt(stream, stop), eof)
    decreases |stream| - k
  {
    var stop, eof := Min(to, FirstEof(stream)), to > FirstEof(stream);
    if k == to {
      assert Entries(stream, k, to) == [];
      return;
    }
    var e := Decode(stream[k]);
    EntriesCons(stream, k, to);
    EmitCons(e, Entries(stream, k + 1, to), CursorAt(stream, k));
    if k == FirstEof(stream) {
      assert Entries(stream, k, stop) == [];
      assert "" + EOF_EVENT == EOF_EVENT;
    } else {
      EmitStopsAtEof(stream, k + 1, to);
      EntriesCons(stream, k, stop);
      OutputCons(e, Entries(stream, k + 1, stop), eof);
    }
  }

  /** The views of a connection show the stream at various times. */
  ghost predicate ViewsOf(whole: seq<Message>, views: seq<View>) {
    views == [] || (views[0].stream <= whole && ViewsOf(whole, views[1..]))
  }

  /** One turn of the loop, in terms of positions. */
  lemma ServeOneRead(whole: seq<Message>, views: seq<View>, k: nat, follow: bool) returns (to: nat, mid: nat)
    requires Increasing(whole) && views != [] && views[0].stream <= whole && views[0].up && k <= FirstEof(whole)
    ensures to == PageEnd(|views[0].stream|, k, views[0].cap) <= |whole|
    ensures mid == Min(to, FirstEof(whole)) && k <= mid
    ensures Serve(views, CursorAt(whole, k), follow)
         == if to > FirstEof(whole) then Reply(Output(Entries(whole, k, mid), true), CursorAt(whole, mid), 1, Eof)
            else if !follow && to == k then Reply(Output(Entries(whole, k, mid), false), CursorAt(whole, mid), 1, Quiet)
            else
              var rest := Serve(views[1..], CursorAt(whole, mid), follow);
              Reply(Output(Entries(whole, k, mid), false) + rest.text, rest.lastID, 1 + rest.turns, rest.ending)
  {
    ReadContinues(whole, k, views[0].stream, views[0].cap);
    to := PageEnd(|views[0].stream|, k, views[0].cap);
    mid := Min(to, FirstEof(whole));
    EmitStopsAtEof(whole, k, to);
    assert |Entries(whole, k, to)| == to - k;
  }

  predicate AllAnswer(views: seq<View>) {
    views == [] || (views[0].up && AllAnswer(views[1..]))
  }

  /** Whatever the schedule of appends and reads, a connection that starts behind the first k messages
      sends the next ones in order, once each, up to the first mark, and says eof only there. */
  lemma {:induction false} ServeSendsInOrder(whole: seq<Message>, views: seq<View>, k: nat, follow: bool) returns (m: nat)
    requires Increasing(whole) && ViewsOf(whole, views) && k <= FirstEof(whole)
    ensures k <= m <= FirstEof(whole)
    ensures var r := Serve(views, CursorAt(whole, k), follow);
            && r.text == Output(Entries(whole, k, m), r.ending == Eof)
            && r.lastID == CursorAt(whole, m)
            && (r.ending == Failed ==> !AllAnswer(views))
            && (r.ending == Eof ==> m == FirstEof(whole) < |whole|)
    decreases |views|
  {
    if views == [] || !views[0].up {
      assert Entries(whole, k, k) == [];
      return k;
    }
    var to, mid := ServeOneRead(whole, views, k, follow);
    if to > FirstEof(whole) || (!follow && to == k) {
      return mid;
    }
    m := ServeSendsInOrder(whole, views[1..], mid, follow);
    OutputSplit(whole, k, mid, m, Serve(views[1..], CursorAt(whole, mid), follow).ending == Eof);
  }

  // ---- How long the loop runs ----

  /** Reads of a stream that does not change, answered as fully as a page allows. */
  ghost predicate FixedViews(stream: seq<Message>, views: seq<View>) {
    views == [] || (views[0].stream == stream && PAGE <= views[0].cap && views[0].up && FixedViews(stream, views[1..]))
  }

  function PagesFor(entries: nat): nat {
    if entries == 0 then 0 else if entries <= PAGE then 1 else 1 + PagesFor(entries - PAGE)
  }

  lemma {:induction false} PagesForIsCeiling(entries: nat)
    ensures PagesFor(entries) == (entries + 99) / 100
  {
    if entries > PAGE {
      PagesForIsCeiling(entries - PAGE);
    }
  }

  datatype Progress = Progress(turns: nat, ending: Ending)

  /** The loop on a fixed stream in terms of positions only: `n` reads of full pages from position k,
      with the first mark (or the end) at `mark`. */
  function Pages(length: nat, mark: nat, k: nat, n: nat, follow: bool): Progress
    decreases n
  {
    if n == 0 then Progress(0, Cancelled)
    else
      var to := Min(k + PAGE, length);
      if to > mark then Progress(1, Eof)
      else if !follow && to == k then Progress(1, Quiet)
      else
        var rest := Pages(length, mark, to, n - 1, follow);
        Progress(1 + rest.turns, rest.ending)
  }

  /** One full page, leaving the text aside. */
  lemma FullPage(stream: seq<Message>, views: seq<View>, k: nat, follow: bool, r: Reply) returns (to: nat, rest: Reply)
    requires Increasing(stream) && FixedViews(stream, views) && views != [] && k <= FirstEof(stream)
    requires r == Serve(views, CursorAt(stream, k), follow)
    ensures to == Min(k + PAGE, |stream|)
    ensures to > FirstEof(stream) ==> r.turns == 1 && r.ending == Eof
    ensures to <= FirstEof(stream) && !follow && to == k ==> r.turns == 1 && r.ending == Quiet
    ensures to <= FirstEof(stream) && (follow || to != k) ==>
              && rest == Serve(views[1..], CursorAt(stream, to), follow)
              && r.turns == 1 + rest.turns && r.ending == rest.ending
  {
    var mid;
    to, mid := ServeOneRead(stream, views, k, follow);
    rest := Serve(views[1..], CursorAt(stream, mid), follow);
  }

  lemma NothingToRead(lastID: string, length: nat, mark: nat, k: nat, follow: bool)
    ensures var r := Serve([], lastID, follow);
            Progress(r.turns, r.ending) == Pages(length, mark, k, 0, follow)
  {
  }

  lemma FixedTail(stream: seq<Message>, views: seq<View>)
    requires FixedViews(stream, views) && views != []
    ensures FixedViews(stream, views[1..])
  {
  }

  lemma PagesUnfold(length: nat, mark: nat, k: nat, n: nat, follow: bool)
    requires k <= length && mark <= length && 0 < n
    ensures var to := Min(k + PAGE, length);
            k <= to <= length
            && Pages(length, mark, k, n, follow)
            == if to > mark then Progress(1, Eof)
               else if !follow && to == k then Progress(1, Quiet)
               else
                 var rest := Pages(length, mark, to, n - 1, follow);
                 Progress(1 + rest.turns, rest.ending)
  {
  }

  lemma {:induction false} ServeCountsPages(stream: seq<Message>, views: seq<View>, k: nat, follow: bool, r: Reply)
    requires Increasing(stream) && FixedViews(stream, views) && k <= FirstEof(stream)
    requires r == Serve(views, CursorAt(stream, k), follow)
    ensures Progress(r.turns, r.ending) == Pages(|stream|, FirstEof(stream), k, |views|, follow)
    decreases |views|
  {
    hide *;
    if views == [] {
      NothingToRead(CursorAt(stream, k), |stream|, FirstEof(stream), k, follow);
      return;
    }
    FixedTail(stream, views);
    PagesUnfold(|stream|, FirstEof(stream), k, |views|, follow);
    var to, rest := FullPage(stream, views, k, follow, r);
    if to <= FirstEof(stream) && (follow || to != k) {
      ServeCountsPages(stream, views[1..], to, follow, rest);
    }
  }

  lemma {:induction false} PagesToMark(length: nat, mark: nat, k: nat, n: nat, follow: bool)
    requires k <= mark < length
    ensures var p, needed := Pages(length, mark, k, n, follow), PagesFor(mark + 1 - k);
            p.turns == Min(n, needed) && (p.ending == Eof <==> needed <= n)
    decreases n
  {
    if n > 0 && k + PAGE <= mark {
      PagesToMark(length, mark, k + PAGE, n - 1, follow);
    }
  }

  lemma {:induction false} PagesToEnd(length: nat, k: nat, n: nat)
    requires k <= length
    ensures var p, needed := Pages(length, length, k, n, false), PagesFor(length - k) + 1;
            p.turns == Min(n, needed) && (p.ending == Quiet <==> needed <= n)
    decreases n
  {
    if n > 0 && k < length {
      PagesToEnd(length, Min(k + PAGE, length), n - 1);
    }
  }

  /** With `left` entries after the cursor up to and including the first mark, the loop ends with eof
      after exactly ceil(left / 100) reads, and not before. */
  lemma EofAfterExactPages(stream: seq<Message>, views: seq<View>, k: nat, follow: bool, r: Reply)
    requires Increasing(stream) && FixedViews(stream, views) && k <= FirstEof(stream) < |stream|
    requires r == Serve(views, CursorAt(stream, k), follow)
    ensures var left := FirstEof(stream) + 1 - k;
            var pages := (left + 99) / 100;
            r.turns == Min(|views|, pages) && (r.ending == Eof <==> pages <= |views|)
  {
    hide *;
    ServeCountsPages(stream, views, k, follow, r);
    PagesToMark(|stream|, FirstEof(stream), k, |views|, follow);
    PagesForIsCeiling(FirstEof(stream) + 1 - k);
  }

  /** Without a mark, a client that does not follow is done after the pages there are and one empty read. */
  lemma QuietAfterEmptyRead(stream: seq<Message>, views: seq<View>, k: nat, r: Reply)
    requires Increasing(stream) && FixedViews(stream, views) && k <= FirstEof(stream) == |stream|
    requires r == Serve(views, CursorAt(stream, k), false)
    ensures var left := |stream| - k;
            var pages := (left + 99) / 100 + 1;
            r.turns == Min(|views|, pages) && (r.ending == Quiet <==> pages <= |views|)
  {
    hide *;
    ServeCountsPages(stream, views, k, false, r);
    PagesToEnd(|stream|, k, |views|);
    PagesForIsCeiling(|stream| - k);
  }

  // ---- Clients ----

  /** One connection: the reads behind it, and how many characters reach the client before it drops. */
  datatype Connection = Connection(views: seq<View>, follow: bool, cut: nat)

  datatype Client = Client(lastEventID: string, received: seq<Event>)

  /** A client (re)connects with its last event ID string in the Last-Event-ID header (section 9.2.4 of
      the standard). The standard starts every stream with an empty last event ID buffer; `carry` is for
      clients that start it with the remembered string instead. */
  function Connect(c: Client, conn: Connection, carry: bool): Client {
    var text := Serve(conn.views, StartCursor(c.lastEventID), conn.follow).text;
    var p := Parse(Open(c.lastEventID, if carry then c.lastEventID else ""), text[..Min(conn.cut, |text|)]);
    Client(p.lastEventID, c.received + p.events)
  }

  function Session(conns: seq<Connection>, carry: bool): Client {
    if conns == [] then Client("", [])
    else Connect(Session(conns[..|conns| - 1], carry), conns[|conns| - 1], carry)
  }

  /** The last event ID of a client that has the first k lines. */
  function ResumeID(stream: seq<Message>, k: nat): string
    requires k <= |stream|
  {
    if k == 0 then "" else FormatID(stream[k - 1].id)
  }

  /** The lines before the first mark are free of CR and LF. */
  ghost predicate PlainLines(stream: seq<Message>) {
    forall i {:trigger Decode(stream[i])} :: 0 <= i < FirstEof(stream) ==> OneLine(Decode(stream[i]).line)
  }

  lemma PlainLinesPrint(stream: seq<Message>, from: nat, to: nat)
    requires PlainLines(stream) && from <= to <= FirstEof(stream)
    ensures Printable(Entries(stream, from, to))
  {
    var entries := Entries(stream, from, to);
    forall i | 0 <= i < |entries| ensures PlainID(entries[i].id) && OneLine(entries[i].line) {
      assert entries[i] == Decode(stream[from + i]);
      assert forall c :: c in FormatID(stream[from + i].id) ==> IsDigit(c) || c == '-';
    }
  }

  lemma PrintPrefix(stream: seq<Message>, a: nat, b: nat, c: nat)
    requires a <= b <= c <= |stream|
    ensures Entries(stream, a, c)[..b - a] == Entries(stream, a, b)
  {
  }

  function NewParser(c: Client, carry: bool): Parser {
    Open(c.lastEventID, if carry then c.lastEventID else "")
  }

  lemma ReceivedFromStart(p: Parser, entries: seq<LogEntry>, n: nat, sawEof: bool, r: Parser)
    requires Received(p, entries, n, sawEof, r) && p.events == []
    ensures n <= |entries|
    ensures r.events == Messages(entries[..n]) + EofEvents(sawEof, LastID(entries[..n], p.idBuffer))
    ensures r.lastEventID == LastID(entries[..n], if sawEof then p.idBuffer else p.lastEventID)
  {
    assert [] + Messages(entries[..n]) == Messages(entries[..n]);
  }

  lemma LastOfEntries(stream: seq<Message>, k: nat, n: nat, otherwise: string)
    requires k + n <= |stream|
    ensures LastID(Entries(stream, k, k + n), otherwise) == if n == 0 then otherwise else ResumeID(stream, k + n)
  {
    hide FirstEof, FormatID;
    var entries := Entries(stream, k, k + n);
    assert |entries| == n;
    if n > 0 {
      assert stream[k..k + n][n - 1] == stream[k + n - 1];
      assert entries[n - 1] == Decode(stream[k + n - 1]);
    }
  }

  lemma NewParserIsIdle(c: Client, carry: bool)
    ensures var p := NewParser(c, carry);
            Idle(p) && p.events == [] && p.lastEventID == c.lastEventID && p.idBuffer == if carry then c.lastEventID else ""
  {
  }

  lemma MinIsBound(a: nat, b: nat)
    ensures Min(a, b) <= a && Min(a, b) <= b
  {
  }

  lemma ConnectParses(c: Client, conn: Connection, carry: bool)
    ensures var r := Serve(conn.views, StartCursor(c.lastEventID), conn.follow);
            var p := Parse(NewParser(c, carry), r.text[..Min(conn.cut, |r.text|)]);
            Connect(c, conn, carry) == Client(p.lastEventID, c.received + p.events)
  {
  }

  lemma StartCursorResumes(stream: seq<Message>, k: nat)
    requires k <= |stream|
    ensures StartCursor(ResumeID(stream, k)) == CursorAt(stream, k)
    ensures ResumeID(stream, k) == "" <==> k == 0
  {
  }

  lemma ConnectCuts(whole: seq<Message>, k: nat, conn: Connection, start: Parser, r: Reply, p: Parser)
    returns (m: nat, n: nat, sawEof: bool)
    requires Increasing(whole) && PlainLines(whole) && ViewsOf(whole, conn.views)
    requires k <= FirstEof(whole) && Idle(start)
    requires r == Serve(conn.views, CursorAt(whole, k), conn.follow)
    requires p == Parse(start, r.text[..Min(conn.cut, |r.text|)])
    ensures k + n <= m <= FirstEof(whole) && (sawEof ==> k + n == m == FirstEof(whole) < |whole|)
    ensures Received(start, Entries(whole, k, m), n, sawEof, p)
    ensures r.ending == Eof && |r.text| <= conn.cut ==> sawEof
  {
    hide Serve, FeedAll, Decode, Print, FirstEof, CursorAt;
    m := ServeSendsInOrder(whole, conn.views, k, conn.follow);
    var entries, eof, q := Entries(whole, k, m), r.ending == Eof, r.text[..Min(conn.cut, |r.text|)];
    assert |entries| == m - k;
    PlainLinesPrint(whole, k, m);
    OutputHasNoBom(entries, eof, q);
    n, sawEof := CutOutput(start, entries, eof, q);
  }

  /** The parser's view of one connection. */
  lemma ConnectReceives(whole: seq<Message>, k: nat, c: Client, conn: Connection, carry: bool, r: Reply, p: Parser)
    returns (n: nat, sawEof: bool, id: string)
    requires Increasing(whole) && PlainLines(whole) && ViewsOf(whole, conn.views)
    requires k <= FirstEof(whole) && c.lastEventID == ResumeID(whole, k)
    requires r == Serve(conn.views, StartCursor(c.lastEventID), conn.follow)
    requires p == Parse(NewParser(c, carry), r.text[..Min(conn.cut, |r.text|)])
    ensures k + n <= FirstEof(whole) && (sawEof ==> k + n == FirstEof(whole) < |whole|)
    ensures p.events == Messages(Entries(whole, k, k + n)) + EofEvents(sawEof, id)
    ensures p.lastEventID == if n > 0 then ResumeID(whole, k + n) else if sawEof && !carry then "" else c.lastEventID
    ensures r.ending == Eof && |r.text| <= conn.cut ==> sawEof
  {
    hide *;
    var start := NewParser(c, carry);
    NewParserIsIdle(c, carry);
    StartCursorResumes(whole, k);
    var m;
    m, n, sawEof := ConnectCuts(whole, k, conn, start, r, p);
    ReceivedFromStart(start, Entries(whole, k, m), n, sawEof, p);
    PrintPrefix(whole, k, k + n, m);
    id := LastID(Entries(whole, k, m)[..n], start.idBuffer);
    LastOfEntries(whole, k, n, if sawEof then start.idBuffer else c.lastEventID);
  }

  /** One connection of a client that has the first k lines: it gets the next n in order and no others,
      the end of the log only after the last of them, and it can resume where it stopped, with exactly
      one exception: under the standard's rule, a connection that carried nothing but the eof event
      makes it forget. */
  lemma ConnectResumes(whole: seq<Message>, k: nat, c: Client, conn: Connection, carry: bool, d: Client)
    returns (n: nat, sawEof: bool, id: string)
    requires Increasing(whole) && PlainLines(whole) && ViewsOf(whole, conn.views)
    requires k <= FirstEof(whole) && c.lastEventID == ResumeID(whole, k)
    requires d == Connect(c, conn, carry)
    ensures k + n <= FirstEof(whole) && (sawEof ==> k + n == FirstEof(whole) < |whole|)
    ensures d.received == c.received + (Messages(Entries(whole, k, k + n)) + EofEvents(sawEof, id))
    ensures d.lastEventID == ResumeID(whole, k + n) <==> carry || n > 0 || !sawEof || k == 0
    ensures n == 0 && sawEof && !carry ==> d.lastEventID == ""
    ensures var r := Serve(conn.views, StartCursor(c.lastEventID), conn.follow);
            r.ending == Eof && |r.text| <= conn.cut ==> sawEof
  {
    hide *;
    var r := Serve(conn.views, StartCursor(c.lastEventID), conn.follow);
    MinIsBound(conn.cut, |r.text|);
    var p := Parse(NewParser(c, carry), r.text[..Min(conn.cut, |r.text|)]);
    ConnectParses(c, conn, carry);
    n, sawEof, id := ConnectReceives(whole, k, c, conn, carry, r, p);
    StartCursorResumes(whole, k);
    StartCursorResumes(whole, k + n);
  }

  // ---- Sessions ----

  /** The log lines among the events a client received. */
  function LinesOf(events: seq<Event>): seq<Event> {
    if events == [] then []
    else
      var last := events[|events| - 1];
      LinesOf(events[..|events| - 1]) + (if last.kind == "message" then [last] else [])
  }

  predicate SawEof(events: seq<Event>) {
    exists e :: e in events && e.kind == "eof"
  }

  lemma {:induction false} LinesOfAppend(a: seq<Event>, b: seq<Event>)
    ensures LinesOf(a + b) == LinesOf(a) + LinesOf(b)
  {
    if b == [] {
      assert a + b == a;
    } else {
      LinesOfAppend(a, b[..|b| - 1]);
      assert (a + b)[..|a + b| - 1] == a + b[..|b| - 1];
    }
  }

  lemma {:induction false} LinesOfMessages(entries: seq<LogEntry>)
    ensures LinesOf(Messages(entries)) == Messages(entries)
  {
    if entries != [] {
      var n := |entries| - 1;
      var init, last := entries[..n], entries[n];
      var events, event := Messages(entries), Event("message", last.line, last.id);
      LinesOfMessages(init);
      assert events[..n] == Messages(init) && events[n] == event;
      assert events == Messages(init) + [event];
    }
  }

  lemma MessagesAreNotEof(entries: seq<LogEntry>)
    ensures !SawEof(Messages(entries))
  {
    var events := Messages(entries);
    forall e | e in events ensures e.kind != "eof" {
      var i :| 0 <= i < |events| && events[i] == e;
      assert |e.kind| == |"message"| != |"eof"|;
    }
  }

  lemma LinesOfConnection(entries: seq<LogEntry>, eof: bool, id: string)
    ensures var events := Messages(entries) + EofEvents(eof, id);
            LinesOf(events) == Messages(entries) && SawEof(events) == eof
  {
    LinesOfMessages(entries);
    MessagesAreNotEof(entries);
    LinesOfAppend(Messages(entries), EofEvents(eof, id));
    if eof {
      assert EofEvents(eof, id)[0] in Messages(entries) + EofEvents(eof, id);
    }
  }

  lemma MessagesSplit(stream: seq<Message>, k: nat, n: nat)
    requires k + n <= |stream|
    ensures Messages(Entries(stream, 0, k)) + Messages(Entries(stream, k, k + n)) == Messages(Entries(stream, 0, k + n))
  {
    EntriesSplit(stream, 0, k, k + n);
  }

  /** A client that has received the first n lines, in order and once each. */
  ghost predicate HasLines(stream: seq<Message>, n: nat, received: seq<Event>) {
    && n <= FirstEof(stream)
    && LinesOf(received) == Messages(Entries(stream, 0, n))
    && (SawEof(received) ==> n == FirstEof(stream) < |stream|)
  }

  lemma HasMoreLines(stream: seq<Message>, k: nat, n: nat, received: seq<Event>, sawEof: bool, id: string)
    requires HasLines(stream, k, received)
    requires k + n <= FirstEof(stream) && (sawEof ==> k + n == FirstEof(stream) < |stream|)
    ensures var after := received + (Messages(Entries(stream, k, k + n)) + EofEvents(sawEof, id));
            HasLines(stream, k + n, after) && SawEof(after) == (SawEof(received) || sawEof)
  {
    var more := Messages(Entries(stream, k, k + n)) + EofEvents(sawEof, id);
    LinesOfAppend(received, more);
    LinesOfConnection(Entries(stream, k, k + n), sawEof, id);
    MessagesSplit(stream, k, n);
    assert SawEof(received + more) == (SawEof(received) || SawEof(more)) by {
      if SawEof(received) {
        var e :| e in received && e.kind == "eof";
        assert e in received + more;
      }
      if SawEof(more) {
        var e :| e in more && e.kind == "eof";
        assert e in received + more;
      }
    }
  }

  lemma HasLinesBound(stream: seq<Message>, n: nat, received: seq<Event>)
    requires HasLines(stream, n, received)
    ensures n <= FirstEof(stream)
  {
  }

  ghost predicate ConnectionsOf(whole: seq<Message>, conns: seq<Connection>) {
    conns == [] || (ViewsOf(whole, conns[|conns| - 1].views) && ConnectionsOf(whole, conns[..|conns| - 1]))
  }

  /** The client stops reconnecting once it was told that the log has ended. */
  predicate StopsAtEof(conns: seq<Connection>, carry: bool) {
    conns == [] || (!SawEof(Session(conns[..|conns| - 1], carry).received) && StopsAtEof(conns[..|conns| - 1], carry))
  }

  /** Exactly-once delivery: over any number of connections, each dropped after any number of characters
      and resumed with the last event ID, whatever is appended meanwhile and however reads are cut, the
      lines received are a prefix of the lines before the first mark, and all of them once eof arrives. */
  lemma {:induction false} ExactlyOnce(whole: seq<Message>, conns: seq<Connection>, carry: bool) returns (n: nat)
    requires Increasing(whole) && PlainLines(whole) && ConnectionsOf(whole, conns)
    requires carry || StopsAtEof(conns, carry)
    ensures HasLines(whole, n, Session(conns, carry).received)
    ensures carry || !SawEof(Session(conns, carry).received) ==> Session(conns, carry).lastEventID == ResumeID(whole, n)
    decreases |conns|
  {
    if conns == [] {
      assert Entries(whole, 0, 0) == [];
      return 0;
    }
    var k := ExactlyOnce(whole, conns[..|conns| - 1], carry);
    var c, conn := Session(conns[..|conns| - 1], carry), conns[|conns| - 1];
    var d := Connect(c, conn, carry);
    assert Session(conns, carry) == d && ViewsOf(whole, conn.views);
    n := OneMoreConnection(whole, k, c, conn, carry, d);
  }

  lemma OneMoreConnection(whole: seq<Message>, k: nat, c: Client, conn: Connection, carry: bool, d: Client)
    returns (n: nat)
    requires Increasing(whole) && PlainLines(whole) && ViewsOf(whole, conn.views)
    requires HasLines(whole, k, c.received) && c.lastEventID == ResumeID(whole, k)
    requires d == Connect(c, conn, carry)
    ensures HasLines(whole, n, d.received)
    ensures carry || !SawEof(d.received) ==> d.lastEventID == ResumeID(whole, n)
  {
    hide *;
    HasLinesBound(whole, k, c.received);
    var more, sawEof, id := ConnectResumes(whole, k, c, conn, carry, d);
    HasMoreLines(whole, k, more, c.received, sawEof, id);
    n := k + more;
  }

  // ---- The two rules for the ID buffer ----

  /** Every session, whatever its connections, gets each line before the first mark at most once. */
  ghost predicate NeverRepeats(whole: seq<Message>, carry: bool) {
    forall conns: seq<Connection> :: ConnectionsOf(whole, conns) ==>
      |LinesOf(Session(conns, carry).received)| <= FirstEof(whole)
  }

  /** A connection that reads the finished log to its end and is not cut. */
  function FullViews(stream: seq<Message>, n: nat): (views: seq<View>)
    ensures |views| == n
    ensures FixedViews(stream, views) && ViewsOf(stream, views)
  {
    if n == 0 then [] else
      var rest := FullViews(stream, n - 1);
      assert ([View(stream, PAGE, true)] + rest)[1..] == rest;
      [View(stream, PAGE, true)] + rest
  }

  /** Such a connection takes a client to the end of the log. */
  lemma ReadToEnd(whole: seq<Message>, k: nat, c: Client) returns (conn: Connection)
    requires Increasing(whole) && k <= FirstEof(whole) < |whole|
    requires c.lastEventID == ResumeID(whole, k)
    ensures ViewsOf(whole, conn.views)
    ensures var r := Serve(conn.views, StartCursor(c.lastEventID), conn.follow);
            r.ending == Eof && |r.text| <= conn.cut
  {
    var views := FullViews(whole, FirstEof(whole) + 1);
    var r := Serve(views, CursorAt(whole, k), true);
    StartCursorResumes(whole, k);
    conn := Connection(views, true, |r.text|);
    hide *;
    EofAfterExactPages(whole, views, k, true, r);
  }

  lemma FullConnection(whole: seq<Message>, k: nat, c: Client, carry: bool) returns (conn: Connection, id: string)
    requires Increasing(whole) && PlainLines(whole) && k <= FirstEof(whole) < |whole|
    requires c.lastEventID == ResumeID(whole, k)
    ensures ViewsOf(whole, conn.views)
    ensures var d := Connect(c, conn, carry);
            && d.received == c.received + (Messages(Entries(whole, k, FirstEof(whole))) + EofEvents(true, id))
            && (d.lastEventID == ResumeID(whole, FirstEof(whole)) <==> carry || k < FirstEof(whole) || k == 0)
            && (k == FirstEof(whole) && !carry ==> d.lastEventID == "")
  {
    hide *;
    conn := ReadToEnd(whole, k, c);
    var n, sawEof;
    n, sawEof, id := ConnectResumes(whole, k, c, conn, carry, Connect(c, conn, carry));
  }

  /** Three connections to a finished log: under the standard's rule the third starts over. */
  lemma ThirdConnectionReplays(whole: seq<Message>) returns (conns: seq<Connection>)
    requires Increasing(whole) && PlainLines(whole) && 0 < FirstEof(whole) < |whole|
    ensures ConnectionsOf(whole, conns)
    ensures |LinesOf(Session(conns, false).received)| == 2 * FirstEof(whole)
  {
    var end := FirstEof(whole);
    var c0 := Session([], false);
    var a, i := FullConnection(whole, 0, c0, false);
    var c1 := Connect(c0, a, false);
    var b, j := FullConnection(whole, end, c1, false);
    var c2 := Connect(c1, b, false);
    var c, l := FullConnection(whole, 0, c2, false);
    conns := [a, b, c];
    ThreeConnections(whole, a, b, c, false);
    CountLines([], Entries(whole, 0, end), i);
    CountLines(c1.received, Entries(whole, end, end), j);
    CountLines(c2.received, Entries(whole, 0, end), l);
  }

  lemma ThreeConnections(whole: seq<Message>, a: Connection, b: Connection, c: Connection, carry: bool)
    requires ViewsOf(whole, a.views) && ViewsOf(whole, b.views) && ViewsOf(whole, c.views)
    ensures ConnectionsOf(whole, [a, b, c])
    ensures Session([a, b, c], carry) == Connect(Connect(Connect(Session([], carry), a, carry), b, carry), c, carry)
  {
    hide Connect, ViewsOf;
    assert [a, b, c][..2] == [a, b] && [a, b][..1] == [a] && [a][..0] == [];
    assert Session([a], carry) == Connect(Session([], carry), a, carry);
    assert Session([a, b], carry) == Connect(Session([a], carry), b, carry);
    assert ConnectionsOf(whole, [a]);
    assert ConnectionsOf(whole, [a, b]);
  }

  lemma CountLines(before: seq<Event>, entries: seq<LogEntry>, id: string)
    ensures |LinesOf(before + (Messages(entries) + EofEvents(true, id)))| == |LinesOf(before)| + |entries|
  {
    LinesOfAppend(before, Messages(entries) + EofEvents(true, id));
    LinesOfConnection(entries, true, id);
  }

  /** For every finished log with at least one line, clients are safe from repeats in all sessions
      exactly when they start a new stream with the remembered ID in the buffer. */
  lemma NeverRepeatsExactlyWithCarry(whole: seq<Message>, carry: bool)
    requires Increasing(whole) && PlainLines(whole) && 0 < FirstEof(whole) < |whole|
    ensures NeverRepeats(whole, carry) <==> carry
  {
    if carry {
      forall conns: seq<Connection> | ConnectionsOf(whole, conns)
        ensures |LinesOf(Session(conns, carry).received)| <= FirstEof(whole)
      {
        var n := ExactlyOnce(whole, conns, carry);
        assert |Messages(Entries(whole, 0, n))| == n;
      }
    } else {
      var conns := ThirdConnectionReplays(whole);
    }
  }
}
