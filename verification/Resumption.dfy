/** Resuming after a drop when log lines may hold carriage returns: what a client has received is what
    lies before the ID it remembers. Section 9.2.6 of the WHATWG HTML Living Standard ends a line at a
    carriage return, and dispatches an event at a blank line. */
module Resumption {
  import opened Text
  import opened LogStream
  import opened EventStream
  import opened LogDelivery
  import opened RememberedID

  // ---------------------------------------------------------------------------------------------
  // Lines that split into several events

  /** A line of the event stream that adds to the data buffer. */
  predicate IsData(line: string) {
    line != "" && line[0] != ':' && line[..IndexOf(line, ':')] == "data"
  }

  predicate SomePieceIsData(s: string)
    decreases |s|
  {
    IsData(Piece(s)) || ('\r' in s && SomePieceIsData(Later(s)))
  }

  /** An empty piece, and a `data` field anywhere behind it. */
  predicate SplitsLater(s: string)
    decreases |s|
  {
    '\r' in s && if Piece(s) == "" then SomePieceIsData(Later(s)) else SplitsLater(Later(s))
  }

  /** Behind two carriage returns in a row, after which an event is complete, the line goes on with data. */
  predicate SplitsData(line: string) {
    '\r' in line && SplitsLater(Later(line))
  }

  // ---------------------------------------------------------------------------------------------
  // What one line of the event stream does

  lemma LineAddsData(p: Parser, line: string)
    requires line != ""
    ensures var q := ProcessLine(p, line);
            && q.events == p.events && q.lastEventID == p.lastEventID
            && (q.data != "" <==> p.data != "" || IsData(line))
            && (!IsData(line) ==> q.data == p.data)
  {
    hide IndexOf;
  }

  lemma BlankLineDispatches(p: Parser)
    ensures var q := ProcessLine(p, "");
            && q.data == "" && q.kind == "" && q.idBuffer == p.idBuffer == q.lastEventID
            && p.events <= q.events
            && (p.data != "" ==> |q.events| == |p.events| + 1)
            && (p.data == "" ==> q.events == p.events)
  {
  }

  lemma FeedSwallows(p: Parser)
    requires p.afterCR
    ensures Feed(p, '\n') == p.(afterCR := false)
  {
  }

  lemma FeedEnds(p: Parser, c: char)
    requires EndsLine(c) && !(c == '\n' && p.afterCR)
    ensures Feed(p, c) == ProcessLine(p.(line := ""), p.line).(afterCR := c == '\r')
  {
  }

  lemma FeedExtends(p: Parser, c: char)
    requires !EndsLine(c)
    ensures Feed(p, c) == p.(line := p.line + [c], afterCR := false)
  {
  }

  lemma {:induction false} EventsGrow(p: Parser, s: string)
    requires Sound(p)
    ensures p.events <= FeedAll(p, s).events && Sound(FeedAll(p, s))
    decreases |s|
  {
    hide ProcessLine, IsData;
    if s != "" {
      var c := s[0];
      FeedOne(p, c);
      if EndsLine(c) && !(c == '\n' && p.afterCR) {
        FeedEnds(p, c);
        if p.line == "" {
          BlankLineDispatches(p.(line := ""));
        } else {
          LineAddsData(p.(line := ""), p.line);
        }
      }
      EventsGrow(Feed(p, c), s[1..]);
    }
  }

  // ---------------------------------------------------------------------------------------------
  // Text after the event

  /** No complete line of the text sets the ID or adds data. */
  predicate Quiet(begun: string, s: string)
    decreases |s|
  {
    if s == "" then true
    else if EndsLine(s[0]) then !IsData(begun) && IDSetBy(begun).None? && Quiet("", s[1..])
    else Quiet(begun + [s[0]], s[1..])
  }

  lemma {:induction false} FeedQuiet(p: Parser, s: string)
    requires Sound(p) && p.data == "" && p.idBuffer == p.lastEventID && Quiet(p.line, s)
    ensures var r := FeedAll(p, s);
            r.events == p.events && r.lastEventID == p.lastEventID && r.idBuffer == p.idBuffer
    decreases |s|
  {
    hide ProcessLine, IsData, IDSetBy;
    if s != "" {
      var c := s[0];
      FeedOne(p, c);
      if !EndsLine(c) {
        FeedExtends(p, c);
      } else if c == '\n' && p.afterCR {
        FeedSwallows(p);
      } else {
        FeedEnds(p, c);
        LineSetsID(p.(line := ""), p.line);
        if p.line == "" {
          BlankLineDispatches(p.(line := ""));
        } else {
          LineAddsData(p.(line := ""), p.line);
        }
      }
      FeedQuiet(Feed(p, c), s[1..]);
    }
  }

  // ---------------------------------------------------------------------------------------------
  // Text that completes one event

  /** Up to the first blank line nothing sets the ID, and from there on the text is quiet. */
  predicate Once(begun: string, cr: bool, s: string)
    decreases |s|
  {
    if s == "" then true
    else if s[0] == '\n' && cr then Once(begun, false, s[1..])
    else if EndsLine(s[0]) then
      if begun == "" then Quiet("", s[1..]) else IDSetBy(begun).None? && Once("", s[0] == '\r', s[1..])
    else Once(begun + [s[0]], false, s[1..])
  }

  /** There is data, or the line that has been begun will add some. */
  predicate Pending(p: Parser) {
    p.data != "" || "data: " <= p.line
  }

  lemma DataIsData(line: string)
    requires "data: " <= line
    ensures IsData(line)
  {
    assert line == "data" + [':'] + line[5..] && ':' !in "data";
    IndexOfCut("data", line[5..], ':');
    assert line[..4] == "data";
  }

  /** One character of such text, short of the blank line. */
  lemma PendingStep(p: Parser, c: char, rest: string)
    requires Sound(p) && Pending(p) && Once(p.line, p.afterCR, [c] + rest)
    requires !(EndsLine(c) && p.line == "" && !(c == '\n' && p.afterCR))
    ensures var q := Feed(p, c);
            && Sound(q) && Pending(q) && Once(q.line, q.afterCR, rest)
            && q.events == p.events && q.lastEventID == p.lastEventID && q.idBuffer == p.idBuffer
  {
    hide ProcessLine, IsData, IDSetBy;
    assert ([c] + rest)[1..] == rest;
    FeedOne(p, c);
    if !EndsLine(c) {
      FeedExtends(p, c);
    } else if c == '\n' && p.afterCR {
      FeedSwallows(p);
    } else {
      FeedEnds(p, c);
      LineSetsID(p.(line := ""), p.line);
      LineAddsData(p.(line := ""), p.line);
      if p.data == "" {
        DataIsData(p.line);
      }
    }
  }

  /** The blank line. */
  lemma BlankStep(p: Parser, c: char)
    requires Sound(p) && Pending(p) && EndsLine(c) && p.line == "" && !(c == '\n' && p.afterCR)
    ensures var q := Feed(p, c);
            Sound(q) && q.data == "" && q.line == "" && q.idBuffer == q.lastEventID == p.idBuffer
  {
    hide ProcessLine;
    FeedOne(p, c);
    FeedEnds(p, c);
    BlankLineDispatches(p.(line := ""));
  }

  /** However such text is cut, the client has the event or it has nothing of it. */
  lemma {:induction false} FeedOnceCut(p: Parser, q: string, s: string)
    requires Sound(p) && Pending(p) && Once(p.line, p.afterCR, s) && q <= s
    ensures var a, b := FeedAll(p, q), FeedAll(p, s);
            && b.idBuffer == p.idBuffer
            && ((a.events == p.events && a.lastEventID == p.lastEventID)
                || (a.events == b.events && a.lastEventID == b.lastEventID == p.idBuffer))
    decreases |s|
  {
    hide Feed, Once, Pending;
    if s != "" {
      var c, rest := s[0], s[1..];
      assert s == [c] + rest;
      var tail := if q == "" then "" else q[1..];
      assert tail <= rest;
      if EndsLine(c) && p.line == "" && !(c == '\n' && p.afterCR) {
        BlankStep(p, c);
        OnceAtBlank(p.afterCR, c, rest);
        QuietPrefix("", tail, rest);
        FeedQuiet(Feed(p, c), rest);
        FeedQuiet(Feed(p, c), tail);
      } else {
        PendingStep(p, c, rest);
        FeedOnceCut(Feed(p, c), tail, rest);
      }
    }
  }

  lemma OnceAtBlank(cr: bool, c: char, rest: string)
    requires EndsLine(c) && !(c == '\n' && cr) && Once("", cr, [c] + rest)
    ensures Quiet("", rest)
  {
    assert ([c] + rest)[1..] == rest;
  }

  lemma {:induction false} QuietPrefix(begun: string, q: string, s: string)
    requires q <= s && Quiet(begun, s)
    ensures Quiet(begun, q)
    decreases |s|
  {
    hide IsData, IDSetBy;
    if q != "" {
      QuietPrefix(if EndsLine(s[0]) then "" else begun + [s[0]], q[1..], s[1..]);
    }
  }

  // ---------------------------------------------------------------------------------------------
  // Log lines of that kind

  lemma {:induction false} QuietText(begun: string, t: string, s: string)
    requires OneLine(t)
    ensures Quiet(begun, t + s) <==> Quiet(begun + t, s)
    decreases |t|
  {
    hide IsData, IDSetBy;
    if t == "" {
      assert t + s == s && begun + t == begun;
    } else {
      assert (t + s)[1..] == t[1..] + s && t[0] in t;
      QuietText(begun + [t[0]], t[1..], s);
      assert begun + [t[0]] + t[1..] == begun + t;
    }
  }

  lemma {:induction false} OnceText(begun: string, cr: bool, t: string, s: string)
    requires OneLine(t) && t != ""
    ensures Once(begun, cr, t + s) <==> Once(begun + t, false, s)
    decreases |t|
  {
    hide IsData, IDSetBy;
    assert (t + s)[1..] == t[1..] + s && t[0] in t;
    if |t| == 1 {
      assert t[1..] + s == s && t == [t[0]];
    } else {
      OnceText(begun + [t[0]], false, t[1..], s);
      assert begun + [t[0]] + t[1..] == begun + t;
    }
  }

  const END := "\n\n"

  lemma EndFacts()
    ensures END == ['\n'] + "\n" && "\n" == ['\n'] + "" && Quiet("", "") && Quiet("", "\n") && Once("", false, "\n")
    ensures !IsData("") && IDSetBy("").None?
  {
    assert "\n"[1..] == "";
  }

  lemma QuietLine(begun: string, c: char, s: string)
    requires EndsLine(c)
    ensures Quiet(begun, [c] + s) <==> !IsData(begun) && IDSetBy(begun).None? && Quiet("", s)
  {
    hide IsData, IDSetBy;
    assert ([c] + s)[1..] == s;
  }

  lemma {:induction false} QuietPieces(s: string)
    requires '\n' !in s && !SomePieceIsData(s) && !SomePieceSetsID(s)
    ensures Quiet("", s + END)
    decreases |s|
  {
    hide IsData, IDSetBy, Quiet;
    PieceFacts(s);
    EndFacts();
    var t := Piece(s);
    assert "" + t == t;
    if '\r' in s {
      QuietPieces(Later(s));
      var rest := Later(s) + END;
      assert s + END == t + (['\r'] + rest);
      QuietText("", t, ['\r'] + rest);
      QuietLine(t, '\r', rest);
    } else {
      QuietText("", t, END);
      QuietLine(t, '\n', "\n");
    }
  }

  lemma OnceLine(begun: string, c: char, s: string)
    requires EndsLine(c) && begun != "" && IDSetBy(begun).None? && Once("", c == '\r', s)
    ensures Once(begun, false, [c] + s)
  {
    hide IDSetBy;
    assert ([c] + s)[1..] == s;
  }

  lemma OnceBlank(c: char, cr: bool, s: string)
    requires EndsLine(c) && !(c == '\n' && cr) && Quiet("", s)
    ensures Once("", cr, [c] + s)
  {
    assert ([c] + s)[1..] == s;
  }

  lemma OnceSwallows()
    ensures Once("", true, END)
  {
    EndFacts();
    assert END[1..] == "\n";
  }

  /** Behind the first carriage return. */
  lemma {:induction false} OnceLater(s: string)
    requires '\n' !in s && !SplitsLater(s) && !SomePieceSetsID(s)
    ensures Once("", true, s + END)
    decreases |s|
  {
    hide IsData, IDSetBy, Quiet, Once, SomePieceIsData;
    PieceFacts(s);
    EndFacts();
    var t := Piece(s);
    assert "" + t == t;
    if '\r' in s {
      var rest := Later(s) + END;
      assert s + END == t + (['\r'] + rest);
      if t == "" {
        QuietPieces(Later(s));
        OnceBlank('\r', true, rest);
        assert "" + (['\r'] + rest) == ['\r'] + rest;
      } else {
        OnceLater(Later(s));
        OnceLine(t, '\r', rest);
        OnceText("", true, t, ['\r'] + rest);
      }
    } else if t == "" {
      OnceSwallows();
      assert s + END == END;
    } else {
      OnceLine(t, '\n', "\n");
      OnceText("", true, t, END);
    }
  }

  lemma OnceLogLine(line: string)
    requires '\n' !in line && !SetsID(line) && !SplitsData(line)
    ensures Once("data: ", false, line + END)
  {
    hide IsData, IDSetBy, Quiet, Once, SomePieceIsData;
    PieceFacts(line);
    EndFacts();
    var t := Piece(line);
    var begun := "data: " + t;
    DataSetsNone(begun);
    if '\r' in line {
      var rest := Later(line) + END;
      assert line + END == t + (['\r'] + rest);
      OnceLater(Later(line));
      OnceLine(begun, '\r', rest);
      OnceAfterText(t, ['\r'] + rest);
    } else {
      OnceLine(begun, '\n', "\n");
      OnceAfterText(t, END);
    }
  }

  lemma OnceAfterText(t: string, s: string)
    requires OneLine(t) && Once("data: " + t, false, s)
    ensures Once("data: ", false, t + s)
  {
    hide IDSetBy, Quiet;
    if t == "" {
      assert t + s == s && "data: " + t == "data: ";
    } else {
      OnceText("data: ", false, t, s);
    }
  }

  /** A line that may hold carriage returns and still resumes where it stopped. */
  predicate Resumable(line: string) {
    !SetsID(line) && !SplitsData(line)
  }

  lemma EndsIdle(p: Parser, s: string)
    requires Sound(p)
    ensures Idle(FeedAll(p, s + END)) && FeedAll(p, s + END).lastEventID == FeedAll(p, s + END).idBuffer
  {
    hide ProcessLine;
    var t := s + "\n";
    assert s + END == t + "\n";
    FeedAppend(p, t, "\n");
    EventsGrow(p, t);
    EndsFresh(p, t);
    var q := FeedAll(p, t);
    NothingFed(Feed(q, '\n'));
    assert "\n"[1..] == "" && FeedAll(q, "\n") == FeedAll(Feed(q, '\n'), "");
    FeedEnds(q, '\n');
    BlankLineDispatches(q.(line := ""));
    FeedOne(q, '\n');
  }

  /** The data line of a printed entry and what follows it, cut anywhere. */
  lemma CutData(w: Parser, line: string, r: string)
    requires Fresh(w) && '\n' !in line && Resumable(line) && r <= "data: " + (line + END)
    ensures var a, b := FeedAll(w, r), FeedAll(w, "data: " + (line + END));
            && b.idBuffer == w.idBuffer
            && ((a.events == w.events && a.lastEventID == w.lastEventID)
                || (a.events == b.events && a.lastEventID == b.lastEventID == w.idBuffer))
  {
    hide SetsID, SplitsData, Feed, FeedAll, Once;
    var data, tail := "data: ", line + END;
    FeedAppend(w, data, tail);
    FeedText(w, data);
    var z := w.(line := data);
    assert w.line + data == data;
    OnceLogLine(line);
    var k := Min(|r|, |data|);
    var u := r[k..];
    assert r == r[..k] + u;
    assert u <= tail && (u != "" ==> r[..k] == data) by {
      assert r == (data + tail)[..|r|];
    }
    FeedOnceCut(z, u, tail);
    if u == "" {
      assert r <= data by { assert r == (data + tail)[..|r|]; }
      FeedText(w, r);
    } else {
      FeedAppend(w, data, u);
    }
  }

  /** One printed entry, cut anywhere. */
  lemma CutResumable(p: Parser, e: LogEntry, q: string)
    requires Idle(p) && PlainID(e.id) && '\n' !in e.line && Resumable(e.line) && q <= LineEvent(e)
    ensures var a, b := FeedAll(p, q), FeedAll(p, LineEvent(e));
            && Idle(b) && b.idBuffer == b.lastEventID == e.id
            && ((a.events == p.events && a.lastEventID == p.lastEventID) || (a.events == b.events && a.lastEventID == e.id))
  {
    hide SetsID, SplitsData, Feed, FeedAll;
    var first, rest := "id: " + e.id + "\n", "data: " + (e.line + END);
    var w := p.(idBuffer := e.id);
    assert LineEvent(e) == first + rest;
    FeedAppend(p, first, rest);
    IDLine(p, e.id);
    EventEnds(p, e);
    if |q| <= |first| {
      CutData(w, e.line, "");
      assert q <= first by { assert q == (first + rest)[..|q|]; }
      FeedPartOfLine(p, "id: " + e.id, q);
    } else {
      var r := q[|first|..];
      assert q == first + r && r <= rest;
      FeedAppend(p, first, r);
      CutData(w, e.line, r);
    }
  }

  lemma EventEnds(p: Parser, e: LogEntry)
    requires Idle(p)
    ensures var b := FeedAll(p, LineEvent(e)); Idle(b) && b.idBuffer == b.lastEventID
  {
    hide FeedAll;
    var most := ("id: " + e.id + "\n") + ("data: " + e.line);
    assert LineEvent(e) == most + END;
    EndsIdle(p, most);
  }

  // ---------------------------------------------------------------------------------------------
  // Whole outputs

  /** The client has the events of the first n entries, and of the end of the log if it saw that, and
      remembers the last of these entries. */
  ghost predicate Stopped(p: Parser, entries: seq<LogEntry>, n: nat, sawEof: bool, r: Parser) {
    && n <= |entries|
    && (sawEof ==> n == |entries|)
    && r.events == FeedAll(p, Output(entries[..n], sawEof)).events
    && r.lastEventID == LastID(entries[..n], if sawEof then p.idBuffer else p.lastEventID)
  }

  lemma StoppedAtStart(p: Parser, entries: seq<LogEntry>, r: Parser)
    requires r.events == p.events && r.lastEventID == p.lastEventID
    ensures Stopped(p, entries, 0, false, r)
  {
    assert entries[..0] == [] && Output([], false) == "";
    NothingFed(p);
  }

  lemma StoppedAfter(p: Parser, e: LogEntry, rest: seq<LogEntry>, m: nat, sawEof: bool, next: Parser, r: Parser)
    requires next == FeedAll(p, LineEvent(e)) && next.idBuffer == next.lastEventID == e.id
    requires Stopped(next, rest, m, sawEof, r)
    ensures Stopped(p, [e] + rest, m + 1, sawEof, r)
  {
    hide FeedAll;
    var entries := [e] + rest;
    assert entries[..m + 1] == [e] + rest[..m];
    OutputCons(e, rest[..m], sawEof);
    FeedAppend(p, LineEvent(e), Output(rest[..m], sawEof));
  }

  lemma StoppedAtEof(p: Parser, eof: bool, q: string) returns (sawEof: bool)
    requires Idle(p) && q <= EofText(eof)
    ensures Stopped(p, [], 0, sawEof, FeedAll(p, q))
    ensures sawEof ==> eof
    ensures |q| == |EofText(eof)| ==> sawEof == eof
  {
    hide FeedAll;
    sawEof := CutEof(p, eof, q);
    var none: seq<LogEntry> := [];
    assert none[..0] == none && Output(none, sawEof) == EofText(sawEof);
    var same := CutEof(p, sawEof, EofText(sawEof));
  }

  lemma {:induction false} CutAnywhere(p: Parser, entries: seq<LogEntry>, eof: bool, q: string) returns (n: nat, sawEof: bool)
    requires Idle(p) && Writable(entries) && q <= Output(entries, eof)
    requires forall e :: e in entries ==> Resumable(e.line)
    ensures Stopped(p, entries, n, sawEof, FeedAll(p, q))
    ensures sawEof ==> eof
    decreases |entries|
  {
    hide FeedAll, Resumable, Stopped;
    if entries == [] {
      assert Output(entries, eof) == EofText(eof);
      n := 0;
      sawEof := StoppedAtEof(p, eof, q);
      return;
    }
    var e, rest := entries[0], entries[1..];
    var block, tail := LineEvent(e), Output(rest, eof);
    assert entries == [e] + rest;
    OutputCons(e, rest, eof);
    if |q| < |block| {
      assert q <= block by { assert q == (block + tail)[..|q|]; }
      CutResumable(p, e, q);
      var a, b := FeedAll(p, q), FeedAll(p, block);
      sawEof := false;
      if a.events == p.events && a.lastEventID == p.lastEventID {
        n := 0;
        StoppedAtStart(p, entries, a);
      } else {
        n := 1;
        StoppedAtStart(b, rest, a);
        StoppedAfter(p, e, rest, 0, false, b, a);
      }
    } else {
      var q' := q[|block|..];
      assert q == block + q' && q' <= tail;
      FeedAppend(p, block, q');
      CutResumable(p, e, block);
      var next := FeedAll(p, block);
      var m;
      m, sawEof := CutAnywhere(next, rest, eof, q');
      n := m + 1;
      StoppedAfter(p, e, rest, m, sawEof, next, FeedAll(p, q));
    }
  }

  // ---------------------------------------------------------------------------------------------
  // Lines that lose data

  lemma ShiftSplit(s: string, t: string, later: string, a: string, b: string)
    requires s == t + ("\r" + later) && "\r" + later == a + ("\r\r" + b)
    ensures "\r" + s == ("\r" + t + a) + ("\r\r" + b)
  {
  }

  lemma SplitHere(s: string, later: string)
    requires s == "" + ("\r" + later)
    ensures "\r" + s == "" + ("\r\r" + later)
  {
  }

  lemma {:induction false} FindSplit(s: string) returns (a: string, b: string)
    requires '\n' !in s && SplitsLater(s)
    ensures "\r" + s == a + ("\r\r" + b) && SomePieceIsData(b)
    decreases |s|
  {
    hide IsData, SomePieceIsData;
    PieceFacts(s);
    var t, later := Piece(s), Later(s);
    if t == "" {
      a, b := "", later;
      SplitHere(s, later);
    } else {
      var a', b' := FindSplit(later);
      a, b := "\r" + t + a', b';
      ShiftSplit(s, t, later, a', b');
    }
  }

  /** Data that has been added leads to an event. */
  lemma {:induction false} DataStays(p: Parser, s: string)
    requires Sound(p) && p.data != ""
    ensures FeedAll(p, s).data != "" || |FeedAll(p, s).events| > |p.events|
    decreases |s|
  {
    hide ProcessLine, IsData;
    if s != "" {
      var c := s[0];
      FeedOne(p, c);
      if !EndsLine(c) {
        FeedExtends(p, c);
      } else if c == '\n' && p.afterCR {
        FeedSwallows(p);
      } else {
        FeedEnds(p, c);
        if p.line == "" {
          BlankLineDispatches(p.(line := ""));
        } else {
          LineAddsData(p.(line := ""), p.line);
        }
      }
      if Feed(p, c).data != "" {
        DataStays(Feed(p, c), s[1..]);
      }
      EventsGrow(Feed(p, c), s[1..]);
      EventsGrow(p, [c]);
      assert FeedAll(p, [c]) == Feed(p, c) by { assert [c][1..] == ""; NothingFed(Feed(p, c)); }
    }
  }

  /** A started line is complete with the next line end. */
  lemma PieceFed(p: Parser, t: string, c: char)
    requires Sound(p) && p.line == "" && OneLine(t) && t != "" && EndsLine(c)
    ensures var q := FeedAll(p, t + [c]);
            && Sound(q) && q.line == "" && p.events <= q.events && (IsData(t) ==> q.data != "")
  {
    hide ProcessLine, IsData;
    FeedAppend(p, t, [c]);
    TextStarts(p, t);
    var w := FeedAll(p, t);
    assert FeedAll(w, [c]) == Feed(w, c) by { assert [c][1..] == ""; NothingFed(Feed(w, c)); }
    FeedEnds(w, c);
    LineAddsData(w.(line := ""), t);
    FeedOne(w, c);
  }

  lemma TextStarts(p: Parser, t: string)
    requires Sound(p) && p.line == "" && OneLine(t) && t != ""
    ensures FeedAll(p, t) == p.(line := t, afterCR := false)
  {
    hide ProcessLine;
    assert t[0] in t;
    FeedExtends(p, t[0]);
    FeedText(Feed(p, t[0]), t[1..]);
    assert [t[0]] + t[1..] == t;
  }

  lemma {:induction false} PieceLeavesData(p: Parser, s: string)
    requires Sound(p) && p.line == "" && '\n' !in s && SomePieceIsData(s)
    ensures var q := FeedAll(p, s + "\n"); q.data != "" || |q.events| > |p.events|
    decreases |s|
  {
    hide IsData, FeedAll, Feed;
    PieceFacts(s);
    EndFacts();
    var t := Piece(s);
    var c := if '\r' in s then '\r' else '\n';
    var rest := if '\r' in s then Later(s) + "\n" else "";
    assert s + "\n" == (t + [c]) + rest;
    FeedAppend(p, t + [c], rest);
    EventsGrow(p, t + [c]);
    var q := FeedAll(p, t + [c]);
    EventsGrow(q, rest);
    if IsData(t) {
      PieceFed(p, t, c);
      DataStays(q, rest);
    } else {
      if t != "" {
        PieceFed(p, t, c);
      } else {
        EmptyFed(p, c);
        assert t + [c] == [c];
      }
      PieceLeavesData(q, Later(s));
    }
  }

  lemma EmptyFed(p: Parser, c: char)
    requires Sound(p) && p.line == "" && EndsLine(c)
    ensures Sound(FeedAll(p, [c])) && FeedAll(p, [c]).line == ""
  {
    FeedOne(p, c);
    assert [c][1..] == "";
    NothingFed(Feed(p, c));
  }

  lemma DataIsDelivered(p: Parser, s: string)
    requires Sound(p) && p.line == "" && '\n' !in s && SomePieceIsData(s)
    ensures |FeedAll(p, s + END).events| > |p.events|
  {
    hide FeedAll, Feed, SomePieceIsData;
    var t := s + "\n";
    assert s + END == t + "\n";
    PieceLeavesData(p, s);
    EventsGrow(p, t);
    EndsFresh(p, t);
    FeedAppend(p, t, "\n");
    LastBlank(FeedAll(p, t));
  }

  lemma LastBlank(p: Parser)
    requires Fresh(p)
    ensures var q := FeedAll(p, "\n"); p.events <= q.events && (p.data != "" ==> |q.events| > |p.events|)
  {
    hide ProcessLine;
    assert "\n"[1..] == "";
    NothingFed(Feed(p, '\n'));
    FeedEnds(p, '\n');
    BlankLineDispatches(p.(line := ""));
  }

  /** Such a line can be cut behind its first event: the client then remembers its entry, and lacks an
      event that an uncut connection delivers. */
  lemma SplitLosesData(p: Parser, e: LogEntry) returns (q: string)
    requires Idle(p) && PlainID(e.id) && '\n' !in e.line && !SetsID(e.line) && SplitsData(e.line)
    ensures q <= LineEvent(e) && FeedAll(p, q).lastEventID == e.id
    ensures |FeedAll(p, q).events| < |FeedAll(p, LineEvent(e)).events|
  {
    hide SetsID, SomePieceIsData, SplitsLater, FeedAll, Feed;
    PieceFacts(e.line);
    var a, b := FindSplit(Later(e.line));
    var id, head := "id: " + e.id + "\n", Piece(e.line) + a;
    SplitText(e.line, Piece(e.line), Later(e.line), a, b);
    var most := "data: " + head + "\r";
    q := id + (most + "\r");
    LineEventOf(e);
    EventText(id, "data: ", head, b);
    FeedAppend(p, q, b + END);
    FeedAppend(p, id, most + "\r");
    IDLine(p, e.id);
    var w := p.(idBuffer := e.id);
    NoLineFeedIn(e.line, head, b);
    SplitDispatches(w, e.line, head, b);
    DataIsDelivered(FeedAll(p, q), b);
  }

  lemma SplitText(line: string, t: string, later: string, a: string, b: string)
    requires line == t + ("\r" + later) && "\r" + later == a + ("\r\r" + b)
    ensures line == (t + a) + ("\r\r" + b)
  {
  }

  lemma LineEventOf(e: LogEntry)
    ensures LineEvent(e) == ("id: " + e.id + "\n") + ("data: " + (e.line + END))
  {
  }

  lemma EventText(id: string, data: string, head: string, b: string)
    ensures id + (data + ((head + ("\r\r" + b)) + END)) == (id + ((data + head + "\r") + "\r")) + (b + END)
  {
  }

  lemma NoLineFeedIn(line: string, head: string, b: string)
    requires '\n' !in line && line == head + ("\r\r" + b)
    ensures '\n' !in b
  {
    assert forall c :: c in b ==> c in line;
  }

  /** At the second carriage return the buffered ID becomes the remembered one. */
  lemma SplitDispatches(w: Parser, line: string, head: string, b: string)
    requires Fresh(w) && '\n' !in line && !SetsID(line) && line == head + ("\r\r" + b)
    ensures var r := FeedAll(w, ("data: " + head + "\r") + "\r");
            Sound(r) && r.line == "" && r.lastEventID == w.idBuffer
  {
    hide SetsID, FeedAll, Feed, IDSetBy, ProcessLine;
    var most := "data: " + head + "\r";
    var ids := {w.idBuffer};
    EmptySetsNone();
    SetsOnlyLogLineData(line, ids);
    SetsOnlyPrefix("", most, "data: " + (line + END), ids);
    FeedAppend(w, most, "\r");
    FeedBuffers(w, most, ids);
    CarriageReturnFed(w, "data: " + head);
    var z := FeedAll(w, most);
    assert "\r"[1..] == "";
    CRFed(z);
  }

  lemma CRFed(z: Parser)
    requires Sound(z) && z.line == ""
    ensures var r := FeedAll(z, "\r"); Sound(r) && r.line == "" && r.lastEventID == z.idBuffer
  {
    hide ProcessLine;
    assert "\r"[1..] == "";
    NothingFed(Feed(z, '\r'));
    FeedOne(z, '\r');
    FeedEnds(z, '\r');
    BlankLineDispatches(z.(line := ""));
  }

  lemma CarriageReturnFed(w: Parser, t: string)
    requires Sound(w)
    ensures Sound(FeedAll(w, t + "\r")) && FeedAll(w, t + "\r").line == ""
  {
    FeedAppend(w, t, "\r");
    FeedSetsID(w, t);
    FeedOne(FeedAll(w, t), '\r');
    assert "\r"[1..] == "";
    NothingFed(Feed(FeedAll(w, t), '\r'));
  }

  lemma {:induction false} FeedBuffers(p: Parser, s: string, ids: set<string>)
    requires Sound(p) && SetsOnly(p.line, s, ids) && p.idBuffer in ids
    ensures FeedAll(p, s).idBuffer in ids
    decreases |s|
  {
    hide Feed, IDSetBy;
    if s != "" {
      FeedOne(p, s[0]);
      FeedBuffers(Feed(p, s[0]), s[1..], ids);
    }
  }

  lemma SetsOnlyLogLineData(line: string, ids: set<string>)
    requires '\n' !in line && !SetsID(line)
    ensures SetsOnly("", "data: " + (line + END), ids)
  {
    hide IDSetBy, SetsID;
    EmptySetsNone();
    assert END == "\n" + "\n" && ("\n" + "")[1..] == "";
    assert SetsOnly("", "\n", ids) by { assert "\n"[1..] == ""; }
    DataSetsNone("data: " + Piece(line));
    SetsOnlyLogLine("data: ", line, "\n", ids);
    SetsOnlyText("", "data: ", line + END, ids);
    assert "" + "data: " == "data: ";
  }

  // ---------------------------------------------------------------------------------------------
  // The exact condition

  ghost predicate Resumes(p: Parser, entries: seq<LogEntry>, q: string) {
    exists n, sawEof :: Stopped(p, entries, n, sawEof, Parse(p, q))
  }

  /** Wherever a connection that sends these lines is cut, and whatever IDs their entries have: what the
      client has received is exactly the events of the entries up to the one it remembers. */
  ghost predicate ResumesWhereItStopped(lines: seq<string>) {
    forall entries: seq<LogEntry>, eof: bool, remembered: string, buffer: string, q: string ::
      Writable(entries) && LinesIn(entries) == lines && q <= Output(entries, eof) ==>
        Resumes(Open(remembered, buffer), entries, q)
  }

  lemma StoppedRemembersAnID(p: Parser, entries: seq<LogEntry>, n: nat, sawEof: bool, r: Parser)
    requires Stopped(p, entries, n, sawEof, r)
    ensures r.lastEventID in IDs(entries) + {p.lastEventID, p.idBuffer}
  {
    hide FeedAll, Output;
    if n > 0 {
      assert entries[n - 1] in entries && LastID(entries[..n], "") == entries[n - 1].id;
    }
  }

  lemma ResumingRemembersAnID(lines: seq<string>)
    requires ResumesWhereItStopped(lines)
    ensures AlwaysRemembersAnID(lines)
  {
    hide Stopped, Parse, Output, Writable, IDs;
    forall entries: seq<LogEntry>, eof: bool, remembered: string, buffer: string, q: string
      | Writable(entries) && LinesIn(entries) == lines && q <= Output(entries, eof)
      ensures Parse(Open(remembered, buffer), q).lastEventID in IDs(entries) + {remembered, buffer}
    {
      var p := Open(remembered, buffer);
      assert Resumes(p, entries, q);
      var n, sawEof :| Stopped(p, entries, n, sawEof, Parse(p, q));
      StoppedRemembersAnID(p, entries, n, sawEof, Parse(p, q));
    }
  }

  /** Entries with these lines, of which only the k-th has the ID "2-0". */
  function Marked(lines: seq<string>, k: nat): seq<LogEntry> {
    seq(|lines|, i requires 0 <= i < |lines| => LogEntry(if i < k then "1-0" else if i == k then "2-0" else "3-0", lines[i], false))
  }

  lemma OnlyKIsMarked(lines: seq<string>, k: nat, n: nat)
    requires k < |lines| && n <= |lines| && LastID(Marked(lines, k)[..n], "9-0") == "2-0"
    ensures n == k + 1
  {
    var entries := Marked(lines, k);
    if n > 0 {
      assert entries[..n][n - 1] == entries[n - 1];
    }
  }

  lemma SplitLineShows(lines: seq<string>, k: nat)
    requires forall line :: line in lines ==> '\n' !in line
    requires k < |lines| && !SetsID(lines[k]) && SplitsData(lines[k])
    ensures !ResumesWhereItStopped(lines)
  {
    hide SetsID, SplitsData, FeedAll, Stopped;
    var entries, p := Marked(lines, k), Open("9-0", "9-0");
    var first, e := Print(entries[..k]), entries[k];
    FirstIsIdle(entries, k, p);
    var w := FeedAll(p, first);
    var q0 := SplitLosesData(w, e);
    var q := first + q0;
    FeedAppend(p, first, q0);
    PrefixOf(entries, k, q0);
    OutputHasNoBom(entries, false, q);
    assert LinesIn(entries) == lines;
    forall n, sawEof | Stopped(p, entries, n, sawEof, Parse(p, q)) ensures false {
      StoppedHasMore(lines, k, n, sawEof, Parse(p, q));
    }
    assert Writable(entries) && !Resumes(p, entries, q);
  }

  lemma PrefixOf(entries: seq<LogEntry>, k: nat, q0: string)
    requires k < |entries| && q0 <= LineEvent(entries[k])
    ensures Print(entries[..k]) + q0 <= Output(entries, false)
  {
    PrintUpTo(entries, k);
  }

  lemma FirstIsIdle(entries: seq<LogEntry>, k: nat, p: Parser)
    requires k < |entries| && Idle(p)
    ensures Idle(FeedAll(p, Print(entries[..k])))
  {
    hide FeedAll;
    if k == 0 {
      NothingFed(p);
    } else {
      var part := entries[..k];
      PrintAppend(part[..k - 1], [part[k - 1]]);
      assert part == part[..k - 1] + [part[k - 1]];
      var last := part[k - 1];
      assert Print([last]) == LineEvent(last) by { assert [last][1..] == []; assert LineEvent(last) + "" == LineEvent(last); }
      var most := Print(part[..k - 1]) + (("id: " + last.id + "\n") + ("data: " + last.line));
      assert Print(part) == most + END;
      EndsIdle(p, most);
    }
  }

  /** A client that remembers the marked entry has all of its events. */
  lemma StoppedHasMore(lines: seq<string>, k: nat, n: nat, sawEof: bool, r: Parser)
    requires k < |lines| && r.lastEventID == "2-0" && Stopped(Open("9-0", "9-0"), Marked(lines, k), n, sawEof, r)
    ensures var entries := Marked(lines, k);
            var w := FeedAll(Open("9-0", "9-0"), Print(entries[..k]));
            |FeedAll(w, LineEvent(entries[k])).events| <= |r.events|
  {
    hide FeedAll;
    var entries, p := Marked(lines, k), Open("9-0", "9-0");
    OnlyKIsMarked(lines, k, n);
    var text := Print(entries[..k]) + LineEvent(entries[k]);
    UpToK(entries, k);
    FeedAppend(p, Print(entries[..k]), LineEvent(entries[k]));
    FeedAppend(p, text, EofText(sawEof));
    SoundFrom(p, text);
    EventsGrow(FeedAll(p, text), EofText(sawEof));
    assert Output(entries[..k + 1], sawEof) == text + EofText(sawEof);
  }

  lemma SoundFrom(p: Parser, s: string)
    requires Sound(p)
    ensures Sound(FeedAll(p, s))
  {
    EventsGrow(p, s);
  }

  lemma UpToK(entries: seq<LogEntry>, k: nat)
    requires k < |entries|
    ensures Print(entries[..k + 1]) == Print(entries[..k]) + LineEvent(entries[k])
  {
    PrintAppend(entries[..k], [entries[k]]);
    assert entries[..k + 1] == entries[..k] + [entries[k]];
    assert Print([entries[k]]) == LineEvent(entries[k]) + Print([]);
    assert LineEvent(entries[k]) + "" == LineEvent(entries[k]);
  }

  /** Carriage returns damage resumption exactly when a line goes on with an `id` field behind one, or with
      a `data` field anywhere behind two in a row: in all other cases nothing is lost or repeated. */
  lemma ResumesExactly(lines: seq<string>)
    requires forall line :: line in lines ==> '\n' !in line
    ensures ResumesWhereItStopped(lines) <==> forall line :: line in lines ==> Resumable(line)
  {
    hide SetsID, SplitsData, Parse, Output, Writable, Stopped, ResumesWhereItStopped, AlwaysRemembersAnID;
    if forall line :: line in lines ==> Resumable(line) {
      ResumableLinesResume(lines);
    } else {
      var line :| line in lines && !Resumable(line);
      var k :| 0 <= k < |lines| && lines[k] == line;
      if SetsID(line) {
        HarmfulLineShows(lines, k);
        if ResumesWhereItStopped(lines) {
          ResumingRemembersAnID(lines);
        }
      } else {
        SplitLineShows(lines, k);
      }
    }
  }

  lemma ResumableLinesResume(lines: seq<string>)
    requires forall line :: line in lines ==> '\n' !in line && Resumable(line)
    ensures ResumesWhereItStopped(lines)
  {
    hide Resumable, FeedAll, Output, Stopped;
    forall entries: seq<LogEntry>, eof: bool, remembered: string, buffer: string, q: string
      | Writable(entries) && LinesIn(entries) == lines && q <= Output(entries, eof)
      ensures Resumes(Open(remembered, buffer), entries, q)
    {
      forall e | e in entries ensures Resumable(e.line) {
        var i :| 0 <= i < |entries| && entries[i] == e;
        assert LinesIn(entries)[i] == e.line;
      }
      OutputHasNoBom(entries, eof, q);
      var p := Open(remembered, buffer);
      var n, sawEof := CutAnywhere(p, entries, eof, q);
      assert Stopped(p, entries, n, sawEof, Parse(p, q));
    }
  }

  // ---------------------------------------------------------------------------------------------
  // Whole sessions

  ghost predicate IsExact(whole: seq<Message>, received: seq<Event>) {
    exists n: nat :: HasLines(whole, n, received)
  }

  /** Every session, of clients that carry the ID or stop at the end of the log, gets a prefix of the
      lines before the first mark, in order and once each, and all of them once it is told eof. */
  ghost predicate SessionsAreExact(whole: seq<Message>) {
    forall conns: seq<Connection>, carry: bool ::
      ConnectionsOf(whole, conns) && (carry || StopsAtEof(conns, carry)) ==>
        IsExact(whole, Session(conns, carry).received)
  }

  lemma {:induction false} LinesAreReceived(events: seq<Event>, e: Event)
    requires e in LinesOf(events)
    ensures e in events
  {
    var last := events[|events| - 1];
    if e != last {
      LinesAreReceived(events[..|events| - 1], e);
    }
  }

  lemma NewClient(conn: Connection, carry: bool)
    ensures Session([conn], carry) == Connect(Client("", []), conn, carry) && StopsAtEof([conn], carry)
  {
    assert [conn][..0] == [];
    assert Session([], carry) == Client("", []);
    hide Connect;
  }

  /** A whole output with its eof event tells the end of the log, whatever the lines hold. */
  lemma WholeOutputTellsEof(entries: seq<LogEntry>)
    ensures SawEof(Parse(Open("", ""), Output(entries, true)).events)
    ensures NoCR(Parse(Open("", ""), Output(entries, true)))
  {
    hide FeedAll;
    var p, text := Open("", ""), Output(entries, true);
    OutputHasNoBom(entries, true, text);
    assert entries[..|entries|] == entries;
    FeedAppend(p, Print(entries), EOF_EVENT);
    OutputIsIdle(entries, p);
    FeedEofEvent(FeedAll(p, Print(entries)));
    var events := FeedAll(p, text).events;
    assert events[|events| - 1].kind == "eof";
    ParsedDataHasNoCR(p, text);
  }

  lemma OutputIsIdle(entries: seq<LogEntry>, p: Parser)
    requires Idle(p)
    ensures Idle(FeedAll(p, Print(entries)))
  {
    hide FeedAll, LineEvent;
    var more := entries + [LogEntry("", "", false)];
    FirstIsIdle(more, |entries|, p);
    assert more[..|entries|] == entries;
  }

  /** The connection of a new client that reads the whole finished log. */
  lemma ReadWhole(whole: seq<Message>) returns (conn: Connection)
    requires Increasing(whole) && FirstEof(whole) < |whole|
    ensures ViewsOf(whole, conn.views)
    ensures Connect(Client("", []), conn, true).received
         == Parse(Open("", ""), Output(Entries(whole, 0, FirstEof(whole)), true)).events
  {
    hide FeedAll, Serve, Decode, Print, FirstEof, CursorAt, Output;
    var c := Client("", []);
    StartCursorResumes(whole, 0);
    conn := ReadToEnd(whole, 0, c);
    var m := ServeSendsInOrder(whole, conn.views, 0, conn.follow);
    ConnectParses(c, conn, true);
    var r := Serve(conn.views, StartCursor(c.lastEventID), conn.follow);
    assert r.text[..Min(conn.cut, |r.text|)] == r.text by { WholeCut(conn.cut, r.text); }
    var received := Parse(NewParser(c, true), r.text).events;
    assert [] + received == received;
  }

  lemma WholeCut(cut: nat, text: string)
    requires |text| <= cut
    ensures text[..Min(cut, |text|)] == text
  {
  }

  lemma SessionOfOne(whole: seq<Message>, conn: Connection)
    requires ViewsOf(whole, conn.views)
    ensures ConnectionsOf(whole, [conn])
  {
    hide ViewsOf;
    assert [conn][..0] == [];
  }

  /** One character is enough: for every finished log with a carriage return in a line, the session of a
      single connection that is not cut is not exact. */
  lemma CarriageReturnShows(whole: seq<Message>, i: nat)
    requires Increasing(whole) && FirstEof(whole) < |whole|
    requires i < FirstEof(whole) && '\r' in Decode(whole[i]).line
    ensures !SessionsAreExact(whole)
  {
    hide Increasing, FirstEof, Connect, LinesOf, SawEof, Parse, Output, Decode, ViewsOf;
    var conn := ReadWhole(whole);
    NewClient(conn, true);
    SessionOfOne(whole, conn);
    var entries := Entries(whole, 0, FirstEof(whole));
    WholeOutputTellsEof(entries);
    var received := Session([conn], true).received;
    if IsExact(whole, received) {
      var n: nat :| HasLines(whole, n, received);
      assert n == FirstEof(whole);
      assert whole[0..n][i] == whole[i] && entries[i] == Decode(whole[i]);
      var e := Messages(entries)[i];
      assert e in LinesOf(received);
      LinesAreReceived(received, e);
    }
  }

  /** Exactly-once delivery, for every finished log whose lines come from a scanner: all sessions are exact
      if and only if no line before the first mark holds a carriage return. */
  lemma SessionsAreExactExactly(whole: seq<Message>)
    requires Increasing(whole) && FirstEof(whole) < |whole|
    requires forall i {:trigger Decode(whole[i])} :: 0 <= i < FirstEof(whole) ==> '\n' !in Decode(whole[i]).line
    ensures SessionsAreExact(whole) <==> PlainLines(whole)
  {
    hide Increasing, FirstEof, Session, HasLines, ConnectionsOf, StopsAtEof, Decode;
    if PlainLines(whole) {
      forall conns: seq<Connection>, carry: bool | ConnectionsOf(whole, conns) && (carry || StopsAtEof(conns, carry))
        ensures IsExact(whole, Session(conns, carry).received)
      {
        var n := ExactlyOnce(whole, conns, carry);
      }
    } else {
      var i :| 0 <= i < FirstEof(whole) && !OneLine(Decode(whole[i]).line);
      CarriageReturnShows(whole, i);
    }
  }
}
