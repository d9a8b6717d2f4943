/** One attempt to run a script (executeScript in internal/worker/worker.go, lines 176 to 194): two
    goroutines copy the lines of standard output and standard error to the log, and the end-of-log mark
    follows when both are done. */
module Worker {
  import opened Text
  import opened LogStream

  const STDERR_PREFIX := "[stderr] "

  /** The lines that the two scanners yield. */
  datatype Script = Script(out: seq<string>, err: seq<string>)

  /** How far both goroutines are, what they got written, and whether the mark was attempted and
      written. `keptOut` and `keptErr` are history. */
  datatype State = State(
    stream: seq<Message>,
    outDone: nat,
    errDone: nat,
    keptOut: seq<string>,
    keptErr: seq<string>,
    closed: bool,
    marked: bool)

  /** A step of a goroutine or of the parent; `up` tells whether Redis took the entry. */
  datatype Label =
    | Out(id: ID, up: bool)
    | Err(id: ID, up: bool)
    | Close(id: ID, up: bool)

  function Init(stream: seq<Message>): State {
    State(stream, 0, 0, [], [], false, false)
  }

  /** Redis assigns IDs after all earlier ones. */
  predicate Next(stream: seq<Message>, id: ID) {
    Before(if stream == [] then BEGINNING else stream[|stream| - 1].id, id)
  }

  function Step(c: Script, s: State, l: Label): Option<State> {
    if s.closed || !Next(s.stream, l.id) then None
    else match l
      case Out(id, up) =>
        if |c.out| <= s.outDone then None
        else if !up then Some(s.(outDone := s.outDone + 1))
        else
          var line := c.out[s.outDone];
          Some(s.(outDone := s.outDone + 1, keptOut := s.keptOut + [line], stream := s.stream + [LineMessage(id, line)]))
      case Err(id, up) =>
        if |c.err| <= s.errDone then None
        else if !up then Some(s.(errDone := s.errDone + 1))
        else
          var line := STDERR_PREFIX + c.err[s.errDone];
          Some(s.(errDone := s.errDone + 1, keptErr := s.keptErr + [line], stream := s.stream + [LineMessage(id, line)]))
      case Close(id, up) =>
        if s.outDone < |c.out| || s.errDone < |c.err| then None  // wg.Wait
        else if up then Some(s.(closed := true, marked := true, stream := s.stream + [EofMessage(id)]))
        else Some(s.(closed := true))
  }

  function Run(c: Script, stream: seq<Message>, labels: seq<Label>): Option<State> {
    if labels == [] then Some(Init(stream))
    else match Run(c, stream, labels[..|labels| - 1])
      case None => None
      case Some(s) => Step(c, s, labels[|labels| - 1])
  }

  // ---- What an attempt adds ----

  /** z is x and y shuffled, each in its own order. */
  predicate Interleaves(z: seq<string>, x: seq<string>, y: seq<string>) {
    if z == [] then x == [] && y == []
    else
      var rest, last := z[..|z| - 1], z[|z| - 1];
      || (x != [] && x[|x| - 1] == last && Interleaves(rest, x[..|x| - 1], y))
      || (y != [] && y[|y| - 1] == last && Interleaves(rest, x, y[..|y| - 1]))
  }

  /** x is y with some elements left out. */
  predicate Subsequence(x: seq<string>, y: seq<string>) {
    || x == []
    || (y != [] && ((x[|x| - 1] == y[|y| - 1] && Subsequence(x[..|x| - 1], y[..|y| - 1]))
                    || Subsequence(x, y[..|y| - 1])))
  }

  function Prefixed(lines: seq<string>): seq<string> {
    seq(|lines|, i requires 0 <= i < |lines| => "[stderr] " + lines[i])
  }

  function TextOf(ms: seq<Message>): seq<string> {
    seq(|ms|, i requires 0 <= i < |ms| => Decode(ms[i]).line)
  }

  /** Only lines, no mark. */
  predicate OnlyLines(ms: seq<Message>) {
    ms == [] || (!Decode(ms[|ms| - 1]).eof && OnlyLines(ms[..|ms| - 1]))
  }

  /** The attempt's lines in the stream, without the mark. */
  function Body(before: seq<Message>, s: State): seq<Message>
    requires |before| <= |s.stream| && (s.marked ==> |before| < |s.stream|)
  {
    s.stream[|before|..if s.marked then |s.stream| - 1 else |s.stream|]
  }

  predicate AllUp(labels: seq<Label>) {
    labels == [] || (labels[|labels| - 1].up && AllUp(labels[..|labels| - 1]))
  }

  ghost predicate Inv(c: Script, before: seq<Message>, s: State) {
    && before <= s.stream && Increasing(s.stream)
    && s.outDone <= |c.out| && s.errDone <= |c.err|
    && (s.closed ==> s.outDone == |c.out| && s.errDone == |c.err|)
    && (s.marked ==> s.closed && |before| < |s.stream| && Decode(s.stream[|s.stream| - 1]).eof)
    && OnlyLines(Body(before, s))
    && Interleaves(TextOf(Body(before, s)), s.keptOut, s.keptErr)
    && Subsequence(s.keptOut, c.out[..s.outDone])
    && Subsequence(s.keptErr, Prefixed(c.err[..s.errDone]))
  }

  lemma IncreasingAppend(stream: seq<Message>, m: Message)
    requires Increasing(stream) && Next(stream, m.id)
    ensures Increasing(stream + [m])
  {
    var longer := stream + [m];
    forall i | 0 <= i < |longer| ensures Before(BEGINNING, longer[i].id) {
      if i == |stream| && stream != [] {
        assert Before(BEGINNING, stream[|stream| - 1].id);
      }
    }
    forall i, j | 0 <= i < j < |longer| ensures Before(longer[i].id, longer[j].id) {
      if j == |stream| && i < |stream| - 1 {
        assert Before(stream[i].id, stream[|stream| - 1].id);
      } else if j < |stream| {
        assert Before(stream[i].id, stream[j].id);
      }
    }
  }

  lemma WrittenLine(id: ID, line: string)
    ensures Decode(LineMessage(id, line)).line == line && !Decode(LineMessage(id, line)).eof
    ensures Decode(EofMessage(id)).eof
  {
    assert |"line"| != |"eof"|;
  }

  lemma BodyGrows(body: seq<Message>, id: ID, line: string)
    ensures OnlyLines(body) ==> OnlyLines(body + [LineMessage(id, line)])
    ensures TextOf(body + [LineMessage(id, line)]) == TextOf(body) + [line]
  {
    WrittenLine(id, line);
    assert (body + [LineMessage(id, line)])[..|body|] == body;
  }

  lemma ShuffleGrows(z: seq<string>, x: seq<string>, y: seq<string>, line: string)
    requires Interleaves(z, x, y)
    ensures Interleaves(z + [line], x + [line], y) && Interleaves(z + [line], x, y + [line])
  {
    assert (z + [line])[..|z|] == z && (x + [line])[..|x|] == x && (y + [line])[..|y|] == y;
  }

  lemma PrefixedOne(lines: seq<string>, n: nat)
    requires n < |lines|
    ensures Prefixed(lines[..n + 1]) == Prefixed(lines[..n]) + [STDERR_PREFIX + lines[n]]
  {
  }

  lemma SubsequenceGrows(x: seq<string>, y: seq<string>, line: string)
    requires Subsequence(x, y)
    ensures Subsequence(x, y + [line]) && Subsequence(x + [line], y + [line])
  {
    assert (x + [line])[..|x|] == x && (y + [line])[..|y|] == y;
  }

  lemma OutKeepsInv(c: Script, before: seq<Message>, s: State, id: ID, up: bool)
    requires Inv(c, before, s) && Step(c, s, Out(id, up)).Some?
    ensures Inv(c, before, Step(c, s, Out(id, up)).value)
  {
    var t, line := Step(c, s, Out(id, up)).value, c.out[s.outDone];
    assert c.out[..s.outDone + 1] == c.out[..s.outDone] + [line];
    SubsequenceGrows(s.keptOut, c.out[..s.outDone], line);
    if up {
      LineKeepsShuffle(before, s, t, id, line);
    }
  }

  lemma ErrKeepsInv(c: Script, before: seq<Message>, s: State, id: ID, up: bool)
    requires Inv(c, before, s) && Step(c, s, Err(id, up)).Some?
    ensures Inv(c, before, Step(c, s, Err(id, up)).value)
  {
    var t, line := Step(c, s, Err(id, up)).value, STDERR_PREFIX + c.err[s.errDone];
    PrefixedOne(c.err, s.errDone);
    SubsequenceGrows(s.keptErr, Prefixed(c.err[..s.errDone]), line);
    if up {
      LineKeepsShuffle(before, s, t, id, line);
    }
  }

  /** Appending a line on behalf of one of the goroutines. */
  lemma LineKeepsShuffle(before: seq<Message>, s: State, t: State, id: ID, line: string)
    requires before <= s.stream && Increasing(s.stream) && !s.marked && !t.marked && Next(s.stream, id)
    requires OnlyLines(Body(before, s)) && Interleaves(TextOf(Body(before, s)), s.keptOut, s.keptErr)
    requires t.stream == s.stream + [LineMessage(id, line)]
    requires || (t.keptOut == s.keptOut + [line] && t.keptErr == s.keptErr)
             || (t.keptOut == s.keptOut && t.keptErr == s.keptErr + [line])
    ensures before <= t.stream && Increasing(t.stream)
    ensures OnlyLines(Body(before, t)) && Interleaves(TextOf(Body(before, t)), t.keptOut, t.keptErr)
  {
    IncreasingAppend(s.stream, LineMessage(id, line));
    assert Body(before, t) == Body(before, s) + [LineMessage(id, line)];
    BodyGrows(Body(before, s), id, line);
    ShuffleGrows(TextOf(Body(before, s)), s.keptOut, s.keptErr, line);
  }

  lemma CloseKeepsInv(c: Script, before: seq<Message>, s: State, id: ID, up: bool)
    requires Inv(c, before, s) && Step(c, s, Close(id, up)).Some?
    ensures Inv(c, before, Step(c, s, Close(id, up)).value)
  {
    var t := Step(c, s, Close(id, up)).value;
    if up {
      IncreasingAppend(s.stream, EofMessage(id));
      WrittenLine(id, "");
      assert Body(before, t) == Body(before, s);
    }
  }

  lemma {:induction false} RunKeepsInv(c: Script, before: seq<Message>, labels: seq<Label>)
    requires Increasing(before) && Run(c, before, labels).Some?
    ensures Inv(c, before, Run(c, before, labels).value)
  {
    if labels == [] {
      assert Body(before, Init(before)) == [];
    } else {
      var earlier, l := labels[..|labels| - 1], labels[|labels| - 1];
      RunKeepsInv(c, before, earlier);
      var s := Run(c, before, earlier).value;
      match l
      case Out(id, up) => OutKeepsInv(c, before, s, id, up);
      case Err(id, up) => ErrKeepsInv(c, before, s, id, up);
      case Close(id, up) => CloseKeepsInv(c, before, s, id, up);
    }
  }

  /** When every append succeeds nothing is left out. */
  lemma {:induction false} AllUpKeepsEverything(c: Script, before: seq<Message>, labels: seq<Label>)
    requires Increasing(before) && Run(c, before, labels).Some? && AllUp(labels)
    ensures var s := Run(c, before, labels).value;
            && s.outDone <= |c.out| && s.keptOut == c.out[..s.outDone]
            && s.errDone <= |c.err| && s.keptErr == Prefixed(c.err[..s.errDone])
            && s.marked == s.closed
  {
    if labels != [] {
      var earlier, l := labels[..|labels| - 1], labels[|labels| - 1];
      AllUpKeepsEverything(c, before, earlier);
      var s := Run(c, before, earlier).value;
      if l.Err? {
        PrefixedOne(c.err, s.errDone);
      }
    }
  }

  /** What one attempt adds to whatever the stream held, for every schedule of the two goroutines and
      whichever appends fail: an order-keeping shuffle of some of its output lines and some of its
      prefixed error lines, and at most one mark, after all of them. If no append fails, all lines are
      there, and a finished attempt has its mark. */
  lemma AttemptAddsShuffleAndMark(c: Script, before: seq<Message>, labels: seq<Label>)
    requires Increasing(before) && Run(c, before, labels).Some?
    ensures var s := Run(c, before, labels).value;
            && before <= s.stream && Increasing(s.stream)
            && (s.marked ==> s.closed && |before| < |s.stream| && Decode(s.stream[|s.stream| - 1]).eof)
            && OnlyLines(Body(before, s))
            && Interleaves(TextOf(Body(before, s)), s.keptOut, s.keptErr)
            && Subsequence(s.keptOut, c.out) && Subsequence(s.keptErr, Prefixed(c.err))
            && (s.closed && AllUp(labels) ==> s.marked && Interleaves(TextOf(Body(before, s)), c.out, Prefixed(c.err)))
  {
    hide Run, Interleaves, Subsequence, OnlyLines, Increasing, TextOf, Body, AllUp, Decode;
    RunKeepsInv(c, before, labels);
    var s := Run(c, before, labels).value;
    LongerStillContains(s.keptOut, c.out, s.outDone);
    LongerStillContains(s.keptErr, Prefixed(c.err), s.errDone);
    assert Prefixed(c.err)[..s.errDone] == Prefixed(c.err[..s.errDone]);
    if AllUp(labels) {
      AllUpKeepsEverything(c, before, labels);
      if s.closed {
        assert c.out[..s.outDone] == c.out && c.err[..s.errDone] == c.err;
      }
    }
  }

  lemma {:induction false} LongerStillContains(x: seq<string>, y: seq<string>, n: nat)
    requires n <= |y|
    ensures Subsequence(x, y[..n]) ==> Subsequence(x, y)
  {
    if n == |y| {
      assert y[..n] == y;
    } else if Subsequence(x, y[..n]) {
      var init := y[..|y| - 1];
      assert init[..n] == y[..n];
      LongerStillContains(x, init, n);
    }
  }

  // ---- One goroutine ----

  datatype Append = Append(id: ID, up: bool)

  /** The entries that one goroutine's appends leave in the stream. */
  function Written(lines: seq<string>, prefix: string, appends: seq<Append>): seq<Message>
    requires |lines| == |appends|
  {
    if lines == [] then []
    else
      var n := |lines| - 1;
      Written(lines[..n], prefix, appends[..n])
      + if appends[n].up then [LineMessage(appends[n].id, prefix + lines[n])] else []
  }

  lemma {:induction false} WrittenPrefix(lines: seq<string>, prefix: string, appends: seq<Append>, n: nat)
    requires n <= |lines| == |appends|
    ensures Written(lines[..n], prefix, appends[..n]) <= Written(lines, prefix, appends)
  {
    if n == |lines| {
      assert lines[..n] == lines && appends[..n] == appends;
    } else {
      var m := |lines| - 1;
      WrittenPrefix(lines[..m], prefix, appends[..m], n);
      assert lines[..m][..n] == lines[..n] && appends[..m][..n] == appends[..n];
    }
  }

  /** streamLines, lines 180 to 187, running alone: a failed append loses its line and nothing else. */
  method StreamLines(log: LogStreamer, lines: seq<string>, prefix: string, appends: seq<Append>)
    requires |lines| == |appends|
    requires Increasing(log.stream + Written(lines, prefix, appends))
    modifies log
    ensures log.stream == old(log.stream) + Written(lines, prefix, appends)
  {
    ghost var before := log.stream;
    for i := 0 to |lines|
      invariant log.stream == before + Written(lines[..i], prefix, appends[..i])
    {
      assert lines[..i + 1][..i] == lines[..i] && appends[..i + 1][..i] == appends[..i];
      WrittenPrefix(lines, prefix, appends, i + 1);
      IncreasingPrefix(before + Written(lines[..i + 1], prefix, appends[..i + 1]), before + Written(lines, prefix, appends));
      assert appends[i].up ==>
        before + Written(lines[..i + 1], prefix, appends[..i + 1]) == log.stream + [LineMessage(appends[i].id, prefix + lines[i])];
      var _ := log.Write(prefix + lines[i], appends[i].id, appends[i].up);
    }
    assert lines[..|lines|] == lines && appends[..|appends|] == appends;
  }
}
