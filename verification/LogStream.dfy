/** The log of a task: an append-only Redis stream (internal/logs/logs.go). */
module LogStream {
  import opened Text
  import opened Decimal

  const PAGE := 100

  /** A stream ID: a time in milliseconds and a counter within it. */
  datatype ID = ID(ms: nat, count: nat)

  const BEGINNING := ID(0, 0)

  predicate Before(a: ID, b: ID) {
    a.ms < b.ms || (a.ms == b.ms && a.count < b.count)
  }

  function FormatID(id: ID): (s: string)
    ensures s != "" && forall c :: c in s ==> IsDigit(c) || c == '-'
  {
    FormatNat(id.ms) + "-" + FormatNat(id.count)
  }

  /** A cursor as Redis reads it: an ID, or a time alone, which means the counter 0. */
  function ParseCursor(s: string): Option<ID> {
    var dash := IndexOf(s, '-');
    var ms := ParseNat(s[..dash]);
    var count := if dash == |s| then Some(0) else ParseNat(s[dash + 1..]);
    if ms.None? || count.None? then None else Some(ID(ms.value, count.value))
  }

  lemma ParseUndoesFormatID(id: ID)
    ensures ParseCursor(FormatID(id)) == Some(id)
  {
    var ms, count := FormatNat(id.ms), FormatNat(id.count);
    assert '-' !in ms;
    IndexOfCut(ms, count, '-');
    assert FormatID(id) == ms + ['-'] + count;
    assert FormatID(id)[..|ms|] == ms && FormatID(id)[|ms| + 1..] == count;
    ParseUndoesFormatNat(id.ms);
    ParseUndoesFormatNat(id.count);
  }

  lemma ParseZero()
    ensures ParseCursor("0") == Some(BEGINNING)
  {
    assert "0"[..1] == "0";
  }

  datatype Message = Message(id: ID, values: map<string, string>)

  datatype LogEntry = LogEntry(id: string, line: string, eof: bool)

  function LineMessage(id: ID, line: string): Message {
    Message(id, map["line" := line])
  }

  function EofMessage(id: ID): Message {
    Message(id, map["eof" := "true"])
  }

  function Decode(m: Message): LogEntry {
    LogEntry(FormatID(m.id),
             if "line" in m.values then m.values["line"] else "",
             "eof" in m.values && m.values["eof"] == "true")
  }

  function DecodeAll(ms: seq<Message>): seq<LogEntry> {
    seq(|ms|, i requires 0 <= i < |ms| => Decode(ms[i]))
  }

  /** A stream as Redis keeps it: IDs grow, and start after the cursor "0". */
  ghost predicate Increasing(stream: seq<Message>) {
    && (forall i {:trigger Before(BEGINNING, stream[i].id)} :: 0 <= i < |stream| ==> Before(BEGINNING, stream[i].id))
    && (forall i, j {:trigger Before(stream[i].id, stream[j].id)} ::
          0 <= i < j < |stream| ==> Before(stream[i].id, stream[j].id))
  }

  /** The messages with IDs after a cursor, in stream order. */
  function After(stream: seq<Message>, cursor: ID): seq<Message> {
    if stream == [] then []
    else
      var last := stream[|stream| - 1];
      After(stream[..|stream| - 1], cursor) + (if Before(cursor, last.id) then [last] else [])
  }

  /** In a stream with growing IDs a cursor marks a position. */
  lemma {:induction false} AfterIsSuffix(stream: seq<Message>, k: nat, cursor: ID)
    requires k <= |stream| && Increasing(stream)
    requires forall i :: 0 <= i < |stream| ==> (Before(cursor, stream[i].id) <==> k <= i)
    ensures After(stream, cursor) == stream[k..]
  {
    if stream != [] {
      var init, n := stream[..|stream| - 1], |stream| - 1;
      if k <= n {
        AfterIsSuffix(init, k, cursor);
        assert stream[k..] == init[k..] + [stream[n]];
      } else {
        AfterIsSuffix(init, n, cursor);
      }
    }
  }

  function Min(a: nat, b: nat): nat {
    if a < b then a else b
  }

  /** One read: at most a page of what lies after the cursor, or less (`cap`) if the server so
      chooses. None stands for a cursor that Redis refuses. */
  function ReadPage(stream: seq<Message>, lastID: string, cap: nat): Option<seq<LogEntry>> {
    var cursor := ParseCursor(if lastID == "" then "0" else lastID);
    if cursor.None? then None
    else
      var later := After(stream, cursor.value);
      Some(DecodeAll(later[..Min(|later|, Min(cap, PAGE))]))
  }

  /** The cursor of a reader that has seen the first k messages. */
  function CursorAt(stream: seq<Message>, k: nat): string
    requires k <= |stream|
  {
    if k == 0 then "0" else FormatID(stream[k - 1].id)
  }

  /** Where a read of a stream of some length stops that starts at position k. */
  function PageEnd(length: nat, k: nat, cap: nat): (to: nat)
    ensures k <= to && (to > k ==> to <= length)
  {
    if length <= k then k else k + Min(length - k, Min(cap, PAGE))
  }

  lemma CursorSeparates(whole: seq<Message>, k: nat, i: nat)
    requires Increasing(whole) && k <= |whole| && i < |whole|
    ensures var cursor := if k == 0 then BEGINNING else whole[k - 1].id;
            Before(cursor, whole[i].id) <==> k <= i
  {
    if k != 0 && i < k - 1 {
      assert Before(whole[i].id, whole[k - 1].id);
    }
  }

  lemma ParseCursorAt(stream: seq<Message>, k: nat)
    requires k <= |stream|
    ensures CursorAt(stream, k) != ""
    ensures ParseCursor(CursorAt(stream, k)) == Some(if k == 0 then BEGINNING else stream[k - 1].id)
  {
    if k == 0 {
      ParseZero();
    } else {
      ParseUndoesFormatID(stream[k - 1].id);
    }
  }

  lemma SliceOfPrefix<T>(part: seq<T>, whole: seq<T>, k: nat, n: nat)
    requires part <= whole && k + n <= |part|
    ensures part[k..][..n] == whole[k..k + n]
  {
  }

  lemma IncreasingPrefix(part: seq<Message>, whole: seq<Message>)
    requires part <= whole && Increasing(whole)
    ensures Increasing(part)
  {
    forall i | 0 <= i < |part| ensures Before(BEGINNING, part[i].id) {
      assert part[i] == whole[i];
    }
    forall i, j | 0 <= i < j < |part| ensures Before(part[i].id, part[j].id) {
      assert part[i] == whole[i] && part[j] == whole[j];
    }
  }

  /** A reader with such a cursor sees the next messages of whatever part of the stream exists. */
  lemma ReadContinues(whole: seq<Message>, k: nat, stream: seq<Message>, cap: nat)
    requires Increasing(whole) && k <= |whole| && stream <= whole
    ensures PageEnd(|stream|, k, cap) <= |whole|
    ensures ReadPage(stream, CursorAt(whole, k), cap) == Some(DecodeAll(whole[k..PageEnd(|stream|, k, cap)]))
  {
    hide After, ParseCursor, FormatID, Increasing, Before, Decode;
    var cursor := if k == 0 then BEGINNING else whole[k - 1].id;
    ParseCursorAt(whole, k);
    IncreasingPrefix(stream, whole);
    var at := Min(k, |stream|);
    forall i | 0 <= i < |stream| ensures Before(cursor, stream[i].id) <==> at <= i {
      CursorSeparates(whole, k, i);
    }
    AfterIsSuffix(stream, at, cursor);
    var later := After(stream, cursor);
    var page := later[..Min(|later|, Min(cap, PAGE))];
    if |stream| <= k {
      assert page == [] == whole[k..k];
    } else {
      SliceOfPrefix(stream, whole, k, Min(|stream| - k, Min(cap, PAGE)));
    }
  }

  /** The position of the first end-of-log mark, or the length when there is none. */
  function FirstEof(stream: seq<Message>): (n: nat)
    ensures n <= |stream|
    ensures forall i {:trigger Decode(stream[i])} :: 0 <= i < n ==> !Decode(stream[i]).eof
    ensures n < |stream| ==> Decode(stream[n]).eof
  {
    if stream == [] || Decode(stream[0]).eof then 0 else 1 + FirstEof(stream[1..])
  }

  /** One read of the stream as it is at that moment; `up` tells whether Redis answered. */
  method ReadStream(stream: seq<Message>, lastID: string, cap: nat, up: bool) returns (r: Option<seq<LogEntry>>)
    ensures r == if up then ReadPage(stream, lastID, cap) else None
  {
    var cursor := ParseCursor(if lastID == "" then "0" else lastID);
    if !up || cursor.None? {
      return None;
    }
    var later := After(stream, cursor.value);
    var messages := later[..Min(|later|, Min(cap, PAGE))];
    var entries := [];
    for i := 0 to |messages|
      invariant entries == DecodeAll(messages[..i])
    {
      entries := entries + [Decode(messages[i])];
    }
    assert messages[..|messages|] == messages;
    r := Some(entries);
  }

  class LogStreamer {
    var stream: seq<Message>

    constructor ()
      ensures stream == []
    {
      stream := [];
    }

    /** Write: Redis assigns an ID after all earlier ones, or the append fails. */
    method Write(line: string, id: ID, up: bool) returns (ok: bool)
      requires up ==> Increasing(stream + [LineMessage(id, line)])
      modifies this
      ensures ok == up
      ensures stream == if up then old(stream) + [LineMessage(id, line)] else old(stream)
    {
      if up {
        stream := stream + [LineMessage(id, line)];
      }
      ok := up;
    }

    /** WriteEOF: the mark, then the stream's expiry; an error means that one of them failed. */
    method WriteEOF(id: ID, up: bool, expires: bool) returns (ok: bool)
      requires up ==> Increasing(stream + [EofMessage(id)])
      modifies this
      ensures ok == (up && expires)
      ensures stream == if up then old(stream) + [EofMessage(id)] else old(stream)
    {
      if !up {
        return false;
      }
      stream := stream + [EofMessage(id)];
      ok := expires;
    }

    /** Read: lines 55 to 86. */
    method Read(lastID: string, cap: nat, up: bool) returns (r: Option<seq<LogEntry>>)
      ensures r == if up then ReadPage(stream, lastID, cap) else None
    {
      r := ReadStream(stream, lastID, cap, up);
    }

    /** ReadAll: lines 88 to 106. */
    method ReadAll(up: bool) returns (r: Option<seq<LogEntry>>)
      ensures r == if up then Some(DecodeAll(stream)) else None
    {
      if !up {
        return None;
      }
      var entries := [];
      for i := 0 to |stream|
        invariant entries == DecodeAll(stream[..i])
      {
        entries := entries + [Decode(stream[i])];
      }
      assert stream[..|stream|] == stream;
      r := Some(entries);
    }
  }
}
