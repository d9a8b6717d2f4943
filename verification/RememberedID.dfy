/** The last event ID that a client remembers, for log lines that may hold carriage returns. The parser
    of the event stream takes a carriage return for the end of a line, so a log line can bring an `id`
    field of its own. */
module RememberedID {
  import opened Text
  import opened LogStream
  import opened EventStream

  // ---------------------------------------------------------------------------------------------
  // What the parser does to the ID, line by line

  /** The ID that a line of the event stream sets, if it is an `id` field without NUL. */
  function IDSetBy(line: string): Option<string> {
    if line == "" || line[0] == ':' then None
    else
      var colon := IndexOf(line, ':');
      var rest := if colon == |line| then "" else line[colon + 1..];
      var value := if rest != "" && rest[0] == ' ' then rest[1..] else rest;
      if line[..colon] == "id" && '\0' !in value then Some(value) else None
  }

  function Or(set_: Option<string>, otherwise: string): string {
    if set_.Some? then set_.value else otherwise
  }

  lemma LineSetsID(p: Parser, line: string)
    ensures ProcessLine(p, line).idBuffer == Or(IDSetBy(line), p.idBuffer)
    ensures ProcessLine(p, line).lastEventID == if line == "" then p.idBuffer else p.lastEventID
  {
    hide IndexOf;
  }

  predicate EndsLine(c: char) {
    c == '\n' || c == '\r'
  }

  /** After a carriage return no line has been started. */
  predicate Sound(p: Parser) {
    p.afterCR ==> p.line == ""
  }

  lemma FeedOne(p: Parser, c: char)
    requires Sound(p)
    ensures Sound(Feed(p, c))
    ensures Feed(p, c).line == if EndsLine(c) then "" else p.line + [c]
    ensures Feed(p, c).idBuffer == if EndsLine(c) then Or(IDSetBy(p.line), p.idBuffer) else p.idBuffer
    ensures Feed(p, c).lastEventID in {p.lastEventID, p.idBuffer}
  {
    LineSetsID(p.(line := ""), p.line);
    ProcessKeepsLine(p.(line := ""), p.line);
  }

  lemma ProcessKeepsLine(p: Parser, line: string)
    ensures ProcessLine(p, line).line == p.line
  {
    hide IndexOf;
  }

  /** The ID buffer after some text, when `begun` is the line that has been started. */
  function IDAfter(begun: string, s: string, id: string): string
    decreases |s|
  {
    if s == "" then id
    else if EndsLine(s[0]) then IDAfter("", s[1..], Or(IDSetBy(begun), id))
    else IDAfter(begun + [s[0]], s[1..], id)
  }

  lemma {:induction false} FeedSetsID(p: Parser, s: string)
    requires Sound(p)
    ensures Sound(FeedAll(p, s)) && FeedAll(p, s).idBuffer == IDAfter(p.line, s, p.idBuffer)
    decreases |s|
  {
    hide Feed, IDSetBy;
    if s != "" {
      FeedOne(p, s[0]);
      FeedSetsID(Feed(p, s[0]), s[1..]);
    }
  }

  // ---------------------------------------------------------------------------------------------
  // Lines that leave the ID alone

  /** The text up to the next carriage return. */
  function Piece(s: string): string {
    s[..IndexOf(s, '\r')]
  }

  /** What follows the first carriage return. */
  function Later(s: string): (rest: string)
    requires '\r' in s
    ensures |rest| < |s|
  {
    IndexOfFinds(s, '\r');
    s[IndexOf(s, '\r') + 1..]
  }

  predicate SomePieceSetsID(s: string)
    decreases |s|
  {
    IDSetBy(Piece(s)).Some? || ('\r' in s && SomePieceSetsID(Later(s)))
  }

  /** Behind some carriage return the line goes on with an `id` field. */
  predicate SetsID(line: string) {
    '\r' in line && SomePieceSetsID(Later(line))
  }

  /** Every ID that the complete lines of a text set is one of `ids`. */
  predicate SetsOnly(begun: string, s: string, ids: set<string>)
    decreases |s|
  {
    if s == "" then true
    else if EndsLine(s[0]) then (IDSetBy(begun).Some? ==> IDSetBy(begun).value in ids) && SetsOnly("", s[1..], ids)
    else SetsOnly(begun + [s[0]], s[1..], ids)
  }

  lemma {:induction false} FeedRemembers(p: Parser, s: string, ids: set<string>)
    requires Sound(p) && SetsOnly(p.line, s, ids) && p.idBuffer in ids && p.lastEventID in ids
    ensures FeedAll(p, s).lastEventID in ids
    decreases |s|
  {
    hide Feed, IDSetBy;
    if s != "" {
      FeedOne(p, s[0]);
      FeedRemembers(Feed(p, s[0]), s[1..], ids);
    }
  }

  lemma {:induction false} SetsOnlyPrefix(begun: string, q: string, s: string, ids: set<string>)
    requires q <= s && SetsOnly(begun, s, ids)
    ensures SetsOnly(begun, q, ids)
    decreases |s|
  {
    hide IDSetBy;
    if q != "" {
      SetsOnlyPrefix(if EndsLine(s[0]) then "" else begun + [s[0]], q[1..], s[1..], ids);
    }
  }

  lemma {:induction false} SetsOnlyText(begun: string, t: string, s: string, ids: set<string>)
    requires OneLine(t)
    ensures SetsOnly(begun, t + s, ids) <==> SetsOnly(begun + t, s, ids)
    decreases |t|
  {
    hide IDSetBy;
    if t == "" {
      assert t + s == s && begun + t == begun;
    } else {
      assert (t + s)[1..] == t[1..] + s && t[0] in t;
      SetsOnlyText(begun + [t[0]], t[1..], s, ids);
      assert begun + [t[0]] + t[1..] == begun + t;
    }
  }

  lemma SetsOnlyLine(line: string, s: string, ids: set<string>)
    requires OneLine(line)
    ensures SetsOnly("", line + "\n" + s, ids) <==> (IDSetBy(line).Some? ==> IDSetBy(line).value in ids) && SetsOnly("", s, ids)
  {
    hide IDSetBy;
    assert line + "\n" + s == line + ("\n" + s) && "" + line == line && ("\n" + s)[1..] == s;
    SetsOnlyText("", line, "\n" + s, ids);
  }

  lemma PieceFacts(s: string)
    requires '\n' !in s
    ensures OneLine(Piece(s))
    ensures '\r' in s ==> s == Piece(s) + ("\r" + Later(s)) && '\n' !in Later(s)
    ensures '\r' !in s ==> Piece(s) == s
  {
    IndexOfFinds(s, '\r');
    var i := IndexOf(s, '\r');
    if i == |s| {
      assert s[..i] == s;
    } else {
      assert s == s[..i] + ([s[i]] + s[i + 1..]);
    }
  }

  /** A log line after what has been begun, when only the beginning counts. */
  lemma {:induction false} SetsOnlyLogLine(begun: string, line: string, s: string, ids: set<string>)
    requires '\n' !in line && IDSetBy(begun + Piece(line)).None? && !SetsID(line) && SetsOnly("", s, ids)
    ensures SetsOnly(begun, line + ("\n" + s), ids)
    decreases |line|
  {
    hide IDSetBy;
    PieceFacts(line);
    var rest := "\n" + s;
    assert rest[1..] == s;
    if '\r' in line {
      var more := "\r" + (Later(line) + rest);
      assert line + rest == Piece(line) + more;
      assert more[1..] == Later(line) + rest;
      assert "" + Piece(Later(line)) == Piece(Later(line));
      SetsOnlyLogLine("", Later(line), s, ids);
      SetsOnlyText(begun, Piece(line), more, ids);
    } else {
      SetsOnlyText(begun, line, rest, ids);
    }
  }

  lemma DataSetsNone(begun: string)
    requires "data: " <= begun
    ensures IDSetBy(begun).None?
  {
    hide IndexOf;
    var rest := begun[5..];
    assert begun == "data" + [':'] + begun[5..];
    assert ':' !in "data";
    IndexOfCut("data", begun[5..], ':');
    assert begun[..4] == "data";
    assert |"data"| != |"id"|;
  }

  lemma IDFieldSets(id: string)
    requires PlainID(id)
    ensures IDSetBy("id: " + id) == Some(id)
  {
    hide IndexOf;
    var line := "id" + [':'] + (" " + id);
    assert "id: " + id == line && ':' !in "id";
    IndexOfCut("id", " " + id, ':');
    assert line[..2] == "id" && line[3..] == " " + id && (" " + id)[1..] == id;
  }

  lemma SetsOnlyEvent(e: LogEntry, s: string, ids: set<string>)
    requires PlainID(e.id) && e.id in ids && '\n' !in e.line && !SetsID(e.line) && SetsOnly("", s, ids)
    ensures SetsOnly("", LineEvent(e) + s, ids)
  {
    hide IDSetBy, SetsID;
    var id, data := "id: " + e.id, "data: ";
    var tail := "\n" + ("\n" + s);
    assert LineEvent(e) + s == id + "\n" + (data + (e.line + tail));
    EmptySetsNone();
    assert ("\n" + s)[1..] == s;
    assert SetsOnly("", "\n" + s, ids);
    DataSetsNone(data + Piece(e.line));
    SetsOnlyLogLine(data, e.line, "\n" + s, ids);
    SetsOnlyText("", data, e.line + tail, ids);
    assert "" + data == data;
    IDFieldSets(e.id);
    SetsOnlyLine(id, data + (e.line + tail), ids);
  }

  lemma EmptySetsNone()
    ensures IDSetBy("").None?
  {
  }

  lemma EofSetsNone(ids: set<string>)
    ensures SetsOnly("", EOF_EVENT, ids)
  {
    hide IDSetBy;
    EofEventPieces();
    var first, second := "event: " + "eof", "data: " + "done";
    assert EOF_EVENT == first + "\n" + (second + "\n" + ("" + "\n" + ""));
    EventSetsNone(first);
    DataSetsNone(second);
    EmptySetsNone();
    SetsOnlyLine("", "", ids);
    SetsOnlyLine(second, "" + "\n" + "", ids);
    SetsOnlyLine(first, second + "\n" + ("" + "\n" + ""), ids);
  }

  lemma EventSetsNone(line: string)
    requires "event: " <= line
    ensures IDSetBy(line).None?
  {
    hide IndexOf;
    assert line == "event" + [':'] + line[6..];
    assert ':' !in "event";
    IndexOfCut("event", line[6..], ':');
    assert line[..5] == "event";
    assert |"event"| != |"id"|;
  }

  function IDs(entries: seq<LogEntry>): set<string> {
    set e | e in entries :: e.id
  }

  ghost predicate Writable(entries: seq<LogEntry>) {
    forall e :: e in entries ==> PlainID(e.id) && '\n' !in e.line
  }

  lemma {:induction false} SetsOnlyOutput(entries: seq<LogEntry>, eof: bool, ids: set<string>)
    requires Writable(entries) && IDs(entries) <= ids && forall e :: e in entries ==> !SetsID(e.line)
    ensures SetsOnly("", Output(entries, eof), ids)
  {
    hide SetsID, IDSetBy;
    if entries == [] {
      EofSetsNone(ids);
      assert Output(entries, eof) == EofText(eof);
    } else {
      var e, rest := entries[0], entries[1..];
      assert entries == [e] + rest && e.id in IDs(entries);
      forall id | id in IDs(rest) ensures id in ids {
        var f :| f in rest && f.id == id;
        assert f in entries;
      }
      SetsOnlyOutput(rest, eof, ids);
      OutputCons(e, rest, eof);
      SetsOnlyEvent(e, Output(rest, eof), ids);
    }
  }

  // ---------------------------------------------------------------------------------------------
  // Lines that do not

  lemma {:induction false} IDAfterText(begun: string, t: string, s: string, id: string)
    requires OneLine(t)
    ensures IDAfter(begun, t + s, id) == IDAfter(begun + t, s, id)
    decreases |t|
  {
    hide IDSetBy;
    if t == "" {
      assert t + s == s && begun + t == begun;
    } else {
      assert (t + s)[1..] == t[1..] + s && t[0] in t;
      IDAfterText(begun + [t[0]], t[1..], s, id);
      assert begun + [t[0]] + t[1..] == begun + t;
    }
  }

  lemma IDAfterPiece(begun: string, t: string, c: char, s: string, id: string)
    requires OneLine(t) && EndsLine(c)
    ensures IDAfter(begun, t + ([c] + s), id) == IDAfter("", s, Or(IDSetBy(begun + t), id))
  {
    hide IDSetBy;
    IDAfterText(begun, t, [c] + s, id);
    assert ([c] + s)[1..] == s;
  }

  /** Once a piece sets the ID, what was there before no longer counts. */
  lemma {:induction false} PiecesForget(s: string, tail: string, id1: string, id2: string)
    requires '\n' !in s && SomePieceSetsID(s)
    ensures IDAfter("", s + ("\n" + tail), id1) == IDAfter("", s + ("\n" + tail), id2)
    decreases |s|
  {
    hide IDSetBy;
    PieceFacts(s);
    assert "" + Piece(s) == Piece(s);
    if '\r' in s {
      var rest := Later(s) + ("\n" + tail);
      assert s + ("\n" + tail) == Piece(s) + (['\r'] + rest);
      IDAfterPiece("", Piece(s), '\r', rest, id1);
      IDAfterPiece("", Piece(s), '\r', rest, id2);
      if IDSetBy(Piece(s)).None? {
        PiecesForget(Later(s), tail, id1, id2);
      }
    } else {
      IDAfterPiece("", s, '\n', tail, id1);
      IDAfterPiece("", s, '\n', tail, id2);
    }
  }

  lemma LineForgets(line: string, tail: string, id1: string, id2: string)
    requires '\n' !in line && SetsID(line)
    ensures IDAfter("data: ", line + ("\n" + tail), id1) == IDAfter("data: ", line + ("\n" + tail), id2)
  {
    hide IDSetBy;
    PieceFacts(line);
    var rest := Later(line) + ("\n" + tail);
    assert line + ("\n" + tail) == Piece(line) + (['\r'] + rest);
    DataSetsNone("data: " + Piece(line));
    IDAfterPiece("data: ", Piece(line), '\r', rest, id1);
    IDAfterPiece("data: ", Piece(line), '\r', rest, id2);
    PiecesForget(Later(line), tail, id1, id2);
  }

  /** The ID that such a line leaves, whatever the ID of its entry. */
  function Planted(line: string): string {
    IDAfter("data: ", line + "\n\n", "")
  }

  lemma EventAsPieces(e: LogEntry)
    ensures LineEvent(e) == ("id: " + e.id) + (['\n'] + ("data: " + (e.line + ("\n" + "\n"))))
    ensures LineEvent(e) == ("id: " + e.id + "\n" + "data: " + (e.line + "\n")) + "\n"
  {
  }

  lemma EventPlants(p: Parser, e: LogEntry)
    requires Fresh(p) && PlainID(e.id) && '\n' !in e.line && SetsID(e.line)
    ensures FeedAll(p, LineEvent(e)).lastEventID == Planted(e.line)
  {
    hide *;
    FreshIsSound(p);
    var id, data, tail := "id: " + e.id, "data: ", e.line + ("\n" + "\n");
    var most := id + "\n" + data + (e.line + "\n");
    EventAsPieces(e);
    IDFieldSets(e.id);
    EventID(p, e.id, tail);
    LineForgets(e.line, "\n", e.id, "");
    PlantedUnfold(e.line);
    EndsWithDispatch(p, most);
  }

  lemma FreshIsSound(p: Parser)
    requires Fresh(p)
    ensures Sound(p) && p.line == ""
  {
  }

  /** The ID line of a printed entry is done; its data line has begun. */
  lemma EventID(p: Parser, id: string, tail: string)
    requires PlainID(id)
    ensures IDAfter("", ("id: " + id) + (['\n'] + ("data: " + tail)), p.idBuffer) == IDAfter("data: ", tail, id)
  {
    hide IDSetBy;
    IDFieldSets(id);
    var line := "id: " + id;
    assert "" + line == line && "" + "data: " == "data: ";
    IDAfterPiece("", line, '\n', "data: " + tail, p.idBuffer);
    IDAfterText("", "data: ", tail, id);
  }

  lemma PlantedUnfold(line: string)
    ensures Planted(line) == IDAfter("data: ", line + ("\n" + "\n"), "")
  {
    hide IDAfter;
    assert "\n\n" == "\n" + "\n";
  }

  /** Two line feeds at the end of a text make the buffered ID the remembered one. */
  lemma EndsWithDispatch(p: Parser, s: string)
    requires Sound(p) && s != "" && s[|s| - 1] == '\n'
    ensures FeedAll(p, s + "\n").lastEventID == IDAfter(p.line, s + "\n", p.idBuffer)
  {
    hide IDSetBy, ProcessLine;
    var t := s[..|s| - 1];
    assert s == t + "\n" && s + "\n" == t + ("\n" + "\n");
    FeedAppend(p, t, "\n" + "\n");
    FeedSetsID(p, t);
    FeedSetsID(p, s + "\n");
    var q := FeedAll(p, t);
    assert ("\n" + "\n")[1..] == "\n" && "\n"[1..] == "";
    assert FeedAll(q, "\n" + "\n") == Feed(Feed(q, '\n'), '\n');
    FeedOne(q, '\n');
    BlankDispatches(Feed(q, '\n'));
  }

  lemma BlankDispatches(p: Parser)
    requires p.line == "" && !p.afterCR
    ensures Feed(p, '\n').lastEventID == p.idBuffer == Feed(p, '\n').idBuffer
  {
  }

  lemma EndsFresh(p: Parser, s: string)
    requires Sound(p) && s != "" && s[|s| - 1] == '\n'
    ensures Fresh(FeedAll(p, s))
  {
    hide ProcessLine;
    var t := s[..|s| - 1];
    assert s == t + "\n";
    FeedAppend(p, t, "\n");
    FeedSetsID(p, t);
    LastFresh(FeedAll(p, t));
  }

  lemma LastFresh(p: Parser)
    requires Sound(p)
    ensures FeedAll(p, "\n") == Feed(p, '\n') && Fresh(Feed(p, '\n'))
  {
    hide IndexOf;
    assert "\n"[1..] == "";
    ProcessKeepsLine(p.(line := ""), p.line);
  }

  // ---------------------------------------------------------------------------------------------
  // The exact condition

  function LinesIn(entries: seq<LogEntry>): seq<string> {
    seq(|entries|, i requires 0 <= i < |entries| => entries[i].line)
  }

  /** Wherever a connection that sends these lines is cut, and whatever IDs their entries have, what the
      client remembers is one of those IDs or what it remembered or had buffered before. */
  ghost predicate AlwaysRemembersAnID(lines: seq<string>) {
    forall entries: seq<LogEntry>, eof: bool, remembered: string, buffer: string, q: string ::
      Writable(entries) && LinesIn(entries) == lines && q <= Output(entries, eof) ==>
        Parse(Open(remembered, buffer), q).lastEventID in IDs(entries) + {remembered, buffer}
  }

  lemma HarmlessLinesRemember(entries: seq<LogEntry>, eof: bool, remembered: string, buffer: string, q: string)
    requires Writable(entries) && q <= Output(entries, eof) && forall e :: e in entries ==> !SetsID(e.line)
    ensures Parse(Open(remembered, buffer), q).lastEventID in IDs(entries) + {remembered, buffer}
  {
    hide SetsID, IDSetBy, FeedAll;
    var p, ids := Open(remembered, buffer), IDs(entries) + {remembered, buffer};
    OutputHasNoBom(entries, eof, q);
    SetsOnlyOutput(entries, eof, ids);
    SetsOnlyPrefix("", q, Output(entries, eof), ids);
    FeedRemembers(p, q, ids);
  }

  lemma {:induction false} PrintEnds(entries: seq<LogEntry>)
    requires entries != []
    ensures Print(entries) != "" && Print(entries)[|Print(entries)| - 1] == '\n'
  {
    if |entries| > 1 {
      PrintEnds(entries[1..]);
    } else {
      assert Print(entries[1..]) == "";
    }
  }

  lemma PrintUpTo(entries: seq<LogEntry>, k: nat)
    requires k < |entries|
    ensures Print(entries[..k]) + LineEvent(entries[k]) <= Output(entries, false)
  {
    PrintAppend(entries[..k], entries[k..]);
    assert entries[..k] + entries[k..] == entries;
    assert entries[k..][0] == entries[k];
    Assoc(Print(entries[..k]), LineEvent(entries[k]), Print(entries[k..][1..]));
    assert Output(entries, false) == Print(entries) + "" == Print(entries);
  }

  /** A line with an `id` field leaves its own ID behind, which no entry need have. */
  lemma HarmfulLineShows(lines: seq<string>, k: nat)
    requires forall line :: line in lines ==> '\n' !in line
    requires k < |lines| && SetsID(lines[k])
    ensures !AlwaysRemembersAnID(lines)
  {
    hide SetsID, IDSetBy, FeedAll, Planted, LineEvent, Print;
    var id := if Planted(lines[k]) == "1-0" then "2-0" else "1-0";
    var entries := seq(|lines|, i requires 0 <= i < |lines| => LogEntry(id, lines[i], false));
    var first, e := Print(entries[..k]), entries[k];
    var q := first + LineEvent(e);
    PrintUpTo(entries, k);
    PlantedAtCut(entries, k, id);
    assert LinesIn(entries) == lines;
    OneID(entries, id);
    assert Parse(Open(id, id), q).lastEventID == Planted(lines[k]);
  }

  lemma OneID(entries: seq<LogEntry>, id: string)
    requires entries != [] && forall i :: 0 <= i < |entries| ==> entries[i].id == id
    ensures IDs(entries) + {id, id} == {id}
  {
  }

  lemma PlantedAtCut(entries: seq<LogEntry>, k: nat, id: string)
    requires k < |entries| && PlainID(entries[k].id) && '\n' !in entries[k].line && SetsID(entries[k].line)
    ensures Parse(Open(id, id), Print(entries[..k]) + LineEvent(entries[k])).lastEventID == Planted(entries[k].line)
  {
    hide SetsID, IDSetBy, FeedAll, Planted, LineEvent;
    var p, first, e := Open(id, id), Print(entries[..k]), entries[k];
    var q := first + LineEvent(e);
    PrintUpTo(entries, k);
    OutputHasNoBom(entries, false, q);
    FeedAppend(p, first, LineEvent(e));
    if k == 0 {
      assert first == "" && FeedAll(p, first) == p by { NothingFed(p); }
    } else {
      PrintEnds(entries[..k]);
      EndsFresh(p, first);
    }
    EventPlants(FeedAll(p, first), e);
  }

  lemma NothingFed(p: Parser)
    ensures FeedAll(p, "") == p
  {
  }

  /** Carriage returns damage resumption exactly when a line goes on with an `id` field behind one: for
      all other lines, whatever carriage returns they hold, a client always remembers the ID of an entry. */
  lemma RemembersExactlyWithoutIDField(lines: seq<string>)
    requires forall line :: line in lines ==> '\n' !in line
    ensures AlwaysRemembersAnID(lines) <==> forall line :: line in lines ==> !SetsID(line)
  {
    hide SetsID, IDs, Parse, Output, Writable;
    if forall line :: line in lines ==> !SetsID(line) {
      forall entries: seq<LogEntry>, eof: bool, remembered: string, buffer: string, q: string
        | Writable(entries) && LinesIn(entries) == lines && q <= Output(entries, eof)
        ensures Parse(Open(remembered, buffer), q).lastEventID in IDs(entries) + {remembered, buffer}
      {
        forall e | e in entries ensures !SetsID(e.line) {
          var i :| 0 <= i < |entries| && entries[i] == e;
          assert LinesIn(entries)[i] == e.line;
        }
        HarmlessLinesRemember(entries, eof, remembered, buffer, q);
      }
    } else {
      var line :| line in lines && SetsID(line);
      var k :| 0 <= k < |lines| && lines[k] == line;
      HarmfulLineShows(lines, k);
    }
  }
}
