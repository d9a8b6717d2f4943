/** From a script's output to a browser: the worker's attempt, the stream, the handler and the parser
    of the client put together. */
module LogsEndToEnd {
  import opened Text
  import opened LogStream
  import opened EventStream
  import opened LogDelivery
  import Worker

  function DataOf(events: seq<Event>): seq<string> {
    seq(|events|, i requires 0 <= i < |events| => events[i].data)
  }

  lemma {:induction false} OnlyLinesHasNoMark(ms: seq<Message>, i: nat)
    requires Worker.OnlyLines(ms) && i < |ms|
    ensures !Decode(ms[i]).eof
  {
    if i < |ms| - 1 {
      OnlyLinesHasNoMark(ms[..|ms| - 1], i);
    }
  }

  lemma {:induction false} ShuffleMembers(z: seq<string>, x: seq<string>, y: seq<string>, i: nat)
    requires Worker.Interleaves(z, x, y) && i < |z|
    ensures z[i] in x || z[i] in y
    decreases |z|
  {
    var rest := z[..|z| - 1];
    if i < |z| - 1 {
      if x != [] && x[|x| - 1] == z[|z| - 1] && Worker.Interleaves(rest, x[..|x| - 1], y) {
        ShuffleMembers(rest, x[..|x| - 1], y, i);
      } else {
        ShuffleMembers(rest, x, y[..|y| - 1], i);
      }
    }
  }

  lemma {:induction false} SubsequenceMembers(x: seq<string>, y: seq<string>, i: nat)
    requires Worker.Subsequence(x, y) && i < |x|
    ensures x[i] in y
  {
    if x[|x| - 1] == y[|y| - 1] && Worker.Subsequence(x[..|x| - 1], y[..|y| - 1]) {
      if i < |x| - 1 {
        SubsequenceMembers(x[..|x| - 1], y[..|y| - 1], i);
      }
    } else {
      SubsequenceMembers(x, y[..|y| - 1], i);
    }
  }

  /** The first mark of the stream is the first that an attempt gets written. Whatever lines unfinished
      attempts left before, and whatever later attempts append, it directly follows this attempt's lines. */
  lemma FirstMarkEndsAttempt(c: Worker.Script, before: seq<Message>, labels: seq<Worker.Label>, whole: seq<Message>)
    requires Increasing(before) && Worker.OnlyLines(before)
    requires Worker.Run(c, before, labels).Some? && Worker.Run(c, before, labels).value.marked
    requires Worker.Run(c, before, labels).value.stream <= whole
    ensures var s := Worker.Run(c, before, labels).value;
            && before <= s.stream && |before| < |s.stream|
            && FirstEof(whole) == |s.stream| - 1
            && whole[..|s.stream| - 1] == before + Worker.Body(before, s)
  {
    hide Worker.Run, Worker.Interleaves, Worker.Subsequence, Worker.AllUp, Worker.OnlyLines, Increasing;
    Worker.AttemptAddsShuffleAndMark(c, before, labels);
    var s := Worker.Run(c, before, labels).value;
    var body, n := Worker.Body(before, s), |s.stream| - 1;
    assert before + body == whole[..n] && whole[n] == s.stream[n];
    if FirstEof(whole) < n {
      if FirstEof(whole) < |before| {
        OnlyLinesHasNoMark(before, FirstEof(whole));
      } else {
        OnlyLinesHasNoMark(body, FirstEof(whole) - |before|);
      }
    }
  }

  lemma {:induction false} OnlyLinesJoin(a: seq<Message>, b: seq<Message>)
    requires Worker.OnlyLines(a) && Worker.OnlyLines(b)
    ensures Worker.OnlyLines(a + b)
  {
    if b == [] {
      assert a + b == a;
    } else {
      OnlyLinesJoin(a, b[..|b| - 1]);
      assert (a + b)[..|a + b| - 1] == a + b[..|b| - 1];
    }
  }

  /** An attempt that dies, or whose mark is lost, leaves a stream for which the same holds again. */
  lemma UnmarkedAttemptLeavesLines(c: Worker.Script, before: seq<Message>, labels: seq<Worker.Label>)
    requires Increasing(before) && Worker.OnlyLines(before)
    requires Worker.Run(c, before, labels).Some? && !Worker.Run(c, before, labels).value.marked
    ensures var s := Worker.Run(c, before, labels).value; Increasing(s.stream) && Worker.OnlyLines(s.stream)
  {
    hide Worker.Run, Worker.Interleaves, Worker.Subsequence, Worker.AllUp, Worker.OnlyLines, Increasing;
    Worker.AttemptAddsShuffleAndMark(c, before, labels);
    var s := Worker.Run(c, before, labels).value;
    OnlyLinesJoin(before, Worker.Body(before, s));
    assert s.stream == before + Worker.Body(before, s);
  }

  ghost predicate PlainScript(c: Worker.Script) {
    forall line :: line in c.out || line in c.err ==> OneLine(line)
  }

  predicate PlainText(lines: seq<string>) {
    forall i :: 0 <= i < |lines| ==> OneLine(lines[i])
  }

  lemma PrefixedIsPlain(line: string)
    requires OneLine(line)
    ensures OneLine(Worker.STDERR_PREFIX + line)
  {
  }

  /** Whatever lines of a script an attempt keeps, they are free of CR and LF if the script's are. */
  lemma ShuffleIsPlain(z: seq<string>, x: seq<string>, y: seq<string>, c: Worker.Script)
    requires Worker.Interleaves(z, x, y) && PlainScript(c)
    requires Worker.Subsequence(x, c.out) && Worker.Subsequence(y, Worker.Prefixed(c.err))
    ensures PlainText(z)
  {
    hide Worker.Interleaves, Worker.Subsequence, OneLine;
    forall i | 0 <= i < |z| ensures OneLine(z[i]) {
      ShuffleMembers(z, x, y, i);
      if z[i] in x {
        var j :| 0 <= j < |x| && x[j] == z[i];
        SubsequenceMembers(x, c.out, j);
      } else {
        var j :| 0 <= j < |y| && y[j] == z[i];
        SubsequenceMembers(y, Worker.Prefixed(c.err), j);
        var k :| 0 <= k < |c.err| && Worker.Prefixed(c.err)[k] == z[i];
        PrefixedIsPlain(c.err[k]);
      }
    }
  }

  lemma AttemptLinesArePlain(c: Worker.Script, before: seq<Message>, labels: seq<Worker.Label>, whole: seq<Message>)
    requires Increasing(before) && Worker.OnlyLines(before) && PlainText(Worker.TextOf(before)) && PlainScript(c)
    requires Worker.Run(c, before, labels).Some? && Worker.Run(c, before, labels).value.marked
    requires Worker.Run(c, before, labels).value.stream <= whole
    ensures PlainLines(whole)
  {
    FirstMarkEndsAttempt(c, before, labels, whole);
    Worker.AttemptAddsShuffleAndMark(c, before, labels);
    var s := Worker.Run(c, before, labels).value;
    var body := Worker.Body(before, s);
    ShuffleIsPlain(Worker.TextOf(body), s.keptOut, s.keptErr, c);
    hide Worker.Run, Worker.Interleaves, Worker.Subsequence, Worker.OnlyLines, Worker.AllUp, Worker.Body, FirstEof, Increasing, OneLine;
    forall i | 0 <= i < FirstEof(whole) ensures OneLine(Decode(whole[i]).line) {
      if i < |before| {
        assert whole[i] == before[i] && Worker.TextOf(before)[i] == Decode(before[i]).line;
      } else {
        assert whole[i] == body[i - |before|] && Worker.TextOf(body)[i - |before|] == Decode(body[i - |before|]).line;
      }
    }
  }

  lemma DataOfEntries(stream: seq<Message>, n: nat)
    requires n <= |stream|
    ensures DataOf(Messages(Entries(stream, 0, n))) == Worker.TextOf(stream[..n])
  {
    hide FirstEof;
    assert stream[0..n] == stream[..n];
  }

  lemma TextOfJoin(a: seq<Message>, b: seq<Message>)
    ensures Worker.TextOf(a + b) == Worker.TextOf(a) + Worker.TextOf(b)
  {
  }

  /** A client that was told the log has ended holds the lines that unfinished attempts left and, after
      them, what the first attempt with a mark got written: a shuffle of subsequences of its two outputs,
      each in its own order; whatever the schedule of the goroutines, the failed appends, the reads, the
      drops and the later attempts. */
  lemma ClientHoldsAttempts(
    c: Worker.Script, before: seq<Message>, labels: seq<Worker.Label>, whole: seq<Message>, conns: seq<Connection>, carry: bool)
    requires Increasing(before) && Worker.OnlyLines(before) && PlainText(Worker.TextOf(before)) && PlainScript(c)
    requires Worker.Run(c, before, labels).Some? && Worker.Run(c, before, labels).value.marked
    requires Worker.Run(c, before, labels).value.stream <= whole && Increasing(whole)
    requires ConnectionsOf(whole, conns) && (carry || StopsAtEof(conns, carry))
    requires SawEof(Session(conns, carry).received)
    ensures var s := Worker.Run(c, before, labels).value;
            && |before| < |s.stream|
            && var added := Worker.TextOf(Worker.Body(before, s));
            && DataOf(LinesOf(Session(conns, carry).received)) == Worker.TextOf(before) + added
            && Worker.Interleaves(added, s.keptOut, s.keptErr)
            && Worker.Subsequence(s.keptOut, c.out) && Worker.Subsequence(s.keptErr, Worker.Prefixed(c.err))
  {
    Worker.AttemptAddsShuffleAndMark(c, before, labels);
    FirstMarkEndsAttempt(c, before, labels, whole);
    AttemptLinesArePlain(c, before, labels, whole);
    var n := ExactlyOnce(whole, conns, carry);
    hide Worker.Run, Worker.Interleaves, Worker.Subsequence, Worker.OnlyLines, FirstEof, Session, LinesOf, Worker.TextOf;
    var s := Worker.Run(c, before, labels).value;
    assert n == |s.stream| - 1;
    DataOfEntries(whole, n);
    TextOfJoin(before, Worker.Body(before, s));
  }

  /** If that attempt is the first on the stream and loses no append, the client holds every line of both
      outputs, once each. */
  lemma ClientHoldsScriptOutput(
    c: Worker.Script, labels: seq<Worker.Label>, whole: seq<Message>, conns: seq<Connection>, carry: bool)
    requires Worker.Run(c, [], labels).Some? && Worker.Run(c, [], labels).value.closed && Worker.AllUp(labels)
    requires Worker.Run(c, [], labels).value.stream <= whole && Increasing(whole)
    requires PlainScript(c)
    requires ConnectionsOf(whole, conns) && (carry || StopsAtEof(conns, carry))
    requires SawEof(Session(conns, carry).received)
    ensures Worker.Interleaves(DataOf(LinesOf(Session(conns, carry).received)), c.out, Worker.Prefixed(c.err))
  {
    Worker.AttemptAddsShuffleAndMark(c, [], labels);
    assert Worker.TextOf([]) == [];
    ClientHoldsAttempts(c, [], labels, whole, conns, carry);
    hide Worker.Run, Worker.Interleaves, Worker.TextOf, Session, LinesOf;
    var added := Worker.TextOf(Worker.Body([], Worker.Run(c, [], labels).value));
    assert [] + added == added;
  }

  // ---------------------------------------------------------------------------------------------
  // A job and its retries

  datatype Attempt = Attempt(script: Worker.Script, labels: seq<Worker.Label>)

  /** The stream after some attempts, each of which starts where the one before it stopped. */
  function StreamAfter(attempts: seq<Attempt>): Option<seq<Message>> {
    if attempts == [] then Some([])
    else match StreamAfter(attempts[..|attempts| - 1])
      case None => None
      case Some(before) =>
        var last := attempts[|attempts| - 1];
        match Worker.Run(last.script, before, last.labels)
        case None => None
        case Some(s) => Some(s.stream)
  }

  /** The state in which the last attempt stopped. */
  function LastState(attempts: seq<Attempt>): Worker.State
    requires attempts != [] && StreamAfter(attempts).Some?
  {
    var last := attempts[|attempts| - 1];
    Worker.Run(last.script, StreamAfter(attempts[..|attempts| - 1]).value, last.labels).value
  }

  /** None of the attempts got its mark written: they died, or lost it. */
  predicate NoneMarked(attempts: seq<Attempt>)
    requires StreamAfter(attempts).Some?
  {
    attempts == [] || (!LastState(attempts).marked && NoneMarked(attempts[..|attempts| - 1]))
  }

  function AddedBy(before: seq<Message>, s: Worker.State): seq<string> {
    if |before| < |s.stream| || (|before| == |s.stream| && !s.marked) then Worker.TextOf(Worker.Body(before, s)) else []
  }

  /** What each attempt added to the stream, in turn. */
  function Added(attempts: seq<Attempt>): seq<seq<string>>
    requires StreamAfter(attempts).Some?
  {
    if attempts == [] then []
    else
      Added(attempts[..|attempts| - 1]) + [AddedBy(StreamAfter(attempts[..|attempts| - 1]).value, LastState(attempts))]
  }

  function Flatten(parts: seq<seq<string>>): seq<string> {
    if parts == [] then [] else Flatten(parts[..|parts| - 1]) + parts[|parts| - 1]
  }

  /** Some lines of both outputs, each output in its own order. */
  ghost predicate ShuffleOf(z: seq<string>, c: Worker.Script) {
    exists x, y :: Worker.Interleaves(z, x, y) && Worker.Subsequence(x, c.out) && Worker.Subsequence(y, Worker.Prefixed(c.err))
  }

  ghost predicate Shuffles(parts: seq<seq<string>>, attempts: seq<Attempt>) {
    |parts| == |attempts| && forall i :: 0 <= i < |parts| ==> ShuffleOf(parts[i], attempts[i].script)
  }

  ghost predicate PlainScripts(attempts: seq<Attempt>) {
    forall a :: a in attempts ==> PlainScript(a.script)
  }

  lemma FlattenGrows(parts: seq<seq<string>>, last: seq<string>)
    ensures Flatten(parts + [last]) == Flatten(parts) + last
  {
    assert (parts + [last])[..|parts|] == parts;
  }

  lemma PlainJoin(a: seq<string>, b: seq<string>)
    requires PlainText(a) && PlainText(b)
    ensures PlainText(a + b)
  {
    hide OneLine;
  }

  /** What the last attempt adds. */
  lemma LastAdds(attempts: seq<Attempt>, before: seq<Message>)
    requires attempts != [] && StreamAfter(attempts).Some? && Increasing(before)
    requires StreamAfter(attempts[..|attempts| - 1]) == Some(before)
    ensures var s := LastState(attempts);
            && s.stream == StreamAfter(attempts).value && before <= s.stream && Increasing(s.stream)
            && (s.marked ==> |before| < |s.stream|)
            && var added := Worker.TextOf(Worker.Body(before, s));
            && Added(attempts) == Added(attempts[..|attempts| - 1]) + [added]
            && ShuffleOf(added, attempts[|attempts| - 1].script)
            && (PlainScript(attempts[|attempts| - 1].script) ==> PlainText(added))
  {
    var last := attempts[|attempts| - 1];
    Worker.AttemptAddsShuffleAndMark(last.script, before, last.labels);
    hide Worker.Run, Worker.Interleaves, Worker.Subsequence, Worker.OnlyLines, Worker.AllUp, Worker.TextOf, Increasing, PlainScript, PlainText;
    var s := LastState(attempts);
    var added := Worker.TextOf(Worker.Body(before, s));
    assert ShuffleOf(added, last.script);
    if PlainScript(last.script) {
      ShuffleIsPlain(added, s.keptOut, s.keptErr, last.script);
    }
  }

  lemma StreamAfterUnfold(attempts: seq<Attempt>)
    requires attempts != [] && StreamAfter(attempts).Some?
    ensures StreamAfter(attempts[..|attempts| - 1]).Some?
    ensures var before, last := StreamAfter(attempts[..|attempts| - 1]).value, attempts[|attempts| - 1];
            Worker.Run(last.script, before, last.labels) == Some(LastState(attempts))
    ensures NoneMarked(attempts) ==> !LastState(attempts).marked && NoneMarked(attempts[..|attempts| - 1])
  {
    hide Worker.Run;
  }

  lemma ShufflesGrow(parts: seq<seq<string>>, attempts: seq<Attempt>, part: seq<string>, last: Attempt)
    requires Shuffles(parts, attempts) && ShuffleOf(part, last.script)
    ensures Shuffles(parts + [part], attempts + [last])
  {
    hide ShuffleOf;
  }

  lemma UnmarkedStreamIsBody(before: seq<Message>, s: Worker.State)
    requires before <= s.stream && !s.marked
    ensures s.stream == before + Worker.Body(before, s)
  {
  }

  lemma NoAttempts()
    ensures StreamAfter([]) == Some([]) && Increasing([]) && Worker.OnlyLines([]) && Worker.TextOf([]) == []
    ensures Added([]) == [] && Flatten([]) == [] && Shuffles([], []) && PlainText([])
  {
  }

  lemma {:induction false} UnmarkedAttemptsLeave(attempts: seq<Attempt>)
    requires StreamAfter(attempts).Some? && NoneMarked(attempts)
    ensures var stream := StreamAfter(attempts).value;
            && Increasing(stream) && Worker.OnlyLines(stream)
            && Worker.TextOf(stream) == Flatten(Added(attempts)) && Shuffles(Added(attempts), attempts)
            && (PlainScripts(attempts) ==> PlainText(Worker.TextOf(stream)))
  {
    hide Worker.Run, Worker.OnlyLines, Worker.TextOf, Worker.Body, Increasing, ShuffleOf, PlainScript, PlainText, Added, Flatten, NoneMarked, StreamAfter, LastState;
    if attempts == [] {
      NoAttempts();
    } else {
      StreamAfterUnfold(attempts);
      var init, last := attempts[..|attempts| - 1], attempts[|attempts| - 1];
      UnmarkedAttemptsLeave(init);
      var before, s := StreamAfter(init).value, LastState(attempts);
      LastAdds(attempts, before);
      UnmarkedAttemptLeavesLines(last.script, before, last.labels);
      UnmarkedStreamIsBody(before, s);
      var body := Worker.Body(before, s);
      TextOfJoin(before, body);
      FlattenGrows(Added(init), Worker.TextOf(body));
      if PlainScripts(attempts) {
        assert last in attempts && forall a :: a in init ==> a in attempts;
        PlainJoin(Worker.TextOf(before), Worker.TextOf(body));
      }
    }
  }

  /** Any number of attempts that die or lose their mark, then one with a mark, then whatever follows: a
      client told eof holds what all of them got written, attempt by attempt, each a shuffle of
      subsequences of its two outputs, and nothing of what comes later. */
  lemma ClientHoldsAllAttempts(attempts: seq<Attempt>, whole: seq<Message>, conns: seq<Connection>, carry: bool)
    requires attempts != [] && StreamAfter(attempts).Some? && PlainScripts(attempts)
    requires NoneMarked(attempts[..|attempts| - 1]) && LastState(attempts).marked
    requires StreamAfter(attempts).value <= whole && Increasing(whole)
    requires ConnectionsOf(whole, conns) && (carry || StopsAtEof(conns, carry))
    requires SawEof(Session(conns, carry).received)
    ensures DataOf(LinesOf(Session(conns, carry).received)) == Flatten(Added(attempts))
    ensures Shuffles(Added(attempts), attempts)
  {
    hide *;
    StreamAfterUnfold(attempts);
    var init, last := attempts[..|attempts| - 1], attempts[|attempts| - 1];
    UnmarkedAttemptsLeave(init);
    var before, s := StreamAfter(init).value, LastState(attempts);
    LastAdds(attempts, before);
    ScriptsArePlain(attempts);
    ClientHoldsAttempts(last.script, before, last.labels, whole, conns, carry);
    var added := Worker.TextOf(Worker.Body(before, s));
    FlattenGrows(Added(init), added);
    ShufflesGrow(Added(init), init, added, last);
    assert attempts == init + [last];
  }

  lemma ScriptsArePlain(attempts: seq<Attempt>)
    requires attempts != [] && PlainScripts(attempts)
    ensures PlainScript(attempts[|attempts| - 1].script) && PlainScripts(attempts[..|attempts| - 1])
  {
    hide PlainScript;
    assert forall a :: a in attempts[..|attempts| - 1] ==> a in attempts;
  }
}
