/** The parts of Go's strings, unicode and strconv packages that the program relies on.
    A Go string is a sequence of Unicode scalar values here. */
module Text {
  datatype Option<+T> = None | Some(value: T)

  datatype Result<+T, +E> = Success(value: T) | Failure(error: E)

  /** unicode.IsSpace: the characters with the property White_Space. */
  predicate IsSpace(c: char) {
    || '\t' <= c <= '\r'
    || c in [' ', '\U{85}', '\U{A0}', '\U{1680}', '\U{2028}', '\U{2029}', '\U{202F}', '\U{205F}', '\U{3000}']
    || '\U{2000}' <= c <= '\U{200A}'
  }

  /** unicode.IsControl: category Cc. */
  predicate IsControl(c: char) {
    c < ' ' || '\U{7F}' <= c < '\U{A0}'
  }

  predicate IsDigit(c: char) { '0' <= c <= '9' }

  /** strings.ContainsAny */
  predicate ContainsAny(s: string, chars: string) {
    exists c :: c in s && c in chars
  }

  /** strings.Contains */
  predicate Contains(s: string, sub: string) {
    sub <= s || (s != "" && Contains(s[1..], sub))
  }

  /** sub stands in s at position i. */
  predicate HasAt(s: string, sub: string, i: int) {
    0 <= i <= |s| - |sub| && s[i..i + |sub|] == sub
  }

  /** A text contains another exactly when it has it at some position. */
  lemma {:induction false} ContainsExactly(s: string, sub: string)
    ensures Contains(s, sub) <==> exists i :: HasAt(s, sub, i)
  {
    if sub <= s {
      assert HasAt(s, sub, 0);
    } else if s != "" {
      ContainsExactly(s[1..], sub);
      forall i ensures HasAt(s[1..], sub, i) ==> HasAt(s, sub, i + 1) {
      }
      forall i ensures HasAt(s, sub, i) ==> HasAt(s[1..], sub, i - 1) {
        assert HasAt(s, sub, i) ==> i > 0;
        assert HasAt(s, sub, i) ==> s[1..][i - 1..i - 1 + |sub|] == s[i..i + |sub|];
      }
    }
  }

  function TrimLeft(s: string): string {
    if s == "" || !IsSpace(s[0]) then s else TrimLeft(s[1..])
  }

  function TrimRight(s: string): string {
    if s == "" || !IsSpace(s[|s| - 1]) then s else TrimRight(s[..|s| - 1])
  }

  /** strings.TrimSpace */
  function TrimSpace(s: string): string {
    TrimRight(TrimLeft(s))
  }

  lemma {:induction false} TrimLeftShortens(s: string)
    ensures |TrimLeft(s)| <= |s|
    ensures TrimLeft(s) == s || |TrimLeft(s)| < |s|
  {
    if s != "" && IsSpace(s[0]) {
      TrimLeftShortens(s[1..]);
    }
  }

  lemma {:induction false} TrimRightShortens(s: string)
    ensures |TrimRight(s)| <= |s|
    ensures TrimRight(s) == s || |TrimRight(s)| < |s|
  {
    if s != "" && IsSpace(s[|s| - 1]) {
      TrimRightShortens(s[..|s| - 1]);
    }
  }

  /** Trimming leaves a string alone exactly when neither end is white space. */
  lemma TrimSpaceFixes(s: string)
    ensures TrimSpace(s) == s <==> s == "" || (!IsSpace(s[0]) && !IsSpace(s[|s| - 1]))
  {
    TrimLeftShortens(s);
    TrimRightShortens(TrimLeft(s));
    if s != "" && IsSpace(s[0]) {
      TrimLeftShortens(s[1..]);
    }
    if s != "" && IsSpace(s[|s| - 1]) {
      TrimRightShortens(s[..|s| - 1]);
    }
  }

  predicate AllSpace(s: string) {
    forall i :: 0 <= i < |s| ==> IsSpace(s[i])
  }

  /** Nothing to trim: empty, or no white space at either end. */
  predicate Tight(s: string) {
    s == "" || (!IsSpace(s[0]) && !IsSpace(s[|s| - 1]))
  }

  lemma {:induction false} TrimLeftDrops(pad: string, s: string)
    requires AllSpace(pad) && (s == "" || !IsSpace(s[0]))
    ensures TrimLeft(pad + s) == s
  {
    if pad == "" {
      assert pad + s == s;
    } else {
      assert (pad + s)[1..] == pad[1..] + s;
      TrimLeftDrops(pad[1..], s);
    }
  }

  lemma {:induction false} TrimRightDrops(s: string, pad: string)
    requires AllSpace(pad) && (s == "" || !IsSpace(s[|s| - 1]))
    ensures TrimRight(s + pad) == s
  {
    if pad == "" {
      assert s + pad == s;
    } else {
      assert (s + pad)[..|s + pad| - 1] == s + pad[..|pad| - 1];
      TrimRightDrops(s, pad[..|pad| - 1]);
    }
  }

  /** Trimming gives back a tight text from whatever white space surrounds it. */
  lemma TrimSpaceDropsPadding(before: string, s: string, after: string)
    requires AllSpace(before) && Tight(s) && AllSpace(after)
    ensures TrimSpace(before + s + after) == s
  {
    if s == "" {
      var pad := before + after;
      assert before + s + after == pad;
      assert pad + "" == pad;
      TrimLeftDrops(pad, "");
    } else {
      assert before + s + after == before + (s + after);
      TrimLeftDrops(before, s + after);
      TrimRightDrops(s, after);
    }
  }

  lemma {:induction false} TrimLeftPads(s: string) returns (pad: string)
    ensures AllSpace(pad) && s == pad + TrimLeft(s) && (TrimLeft(s) == "" || !IsSpace(TrimLeft(s)[0]))
  {
    pad := "";
    if s != "" && IsSpace(s[0]) {
      var more := TrimLeftPads(s[1..]);
      pad := [s[0]] + more;
    }
  }

  lemma {:induction false} TrimRightPads(s: string) returns (pad: string)
    ensures AllSpace(pad) && s == TrimRight(s) + pad && (TrimRight(s) == "" || !IsSpace(TrimRight(s)[|TrimRight(s)| - 1]))
  {
    hide IsSpace;
    pad := "";
    if s != "" && IsSpace(s[|s| - 1]) {
      var init := s[..|s| - 1];
      var more := TrimRightPads(init);
      pad := more + [s[|s| - 1]];
      assert s == init + [s[|s| - 1]] == TrimRight(init) + pad;
    } else {
      assert s == s + "";
    }
  }

  /** Every text is a tight text with white space around it. */
  lemma TrimSpacePads(s: string) returns (before: string, after: string)
    ensures AllSpace(before) && AllSpace(after) && Tight(TrimSpace(s)) && s == before + TrimSpace(s) + after
  {
    before := TrimLeftPads(s);
    after := TrimRightPads(TrimLeft(s));
    var t := TrimSpace(s);
    assert t != "" ==> t[0] == TrimLeft(s)[0];
  }

  /** strings.Split for a separator of one character. */
  function Split(s: string, sep: char): (parts: seq<string>)
    ensures parts != []
  {
    if s == "" then [""]
    else if s[0] == sep then [""] + Split(s[1..], sep)
    else
      var rest := Split(s[1..], sep);
      [[s[0]] + rest[0]] + rest[1..]
  }

  /** strings.Join with a separator of one character. */
  function Join(parts: seq<string>, sep: char): string {
    if parts == [] then ""
    else if |parts| == 1 then parts[0]
    else parts[0] + [sep] + Join(parts[1..], sep)
  }

  lemma {:induction false} SplitAtSeparator(head: string, tail: string, sep: char)
    requires sep !in head
    ensures Split(head + [sep] + tail, sep) == [head] + Split(tail, sep)
  {
    var whole := head + [sep] + tail;
    if head == "" {
      assert whole[1..] == tail;
    } else {
      SplitAtSeparator(head[1..], tail, sep);
      assert whole[1..] == head[1..] + [sep] + tail;
      assert [head[0]] + head[1..] == head;
    }
  }

  lemma {:induction false} SplitWithoutSeparator(s: string, sep: char)
    requires sep !in s
    ensures Split(s, sep) == [s]
  {
    if s != "" {
      SplitWithoutSeparator(s[1..], sep);
      assert [s[0]] + s[1..] == s;
    }
  }

  /** Joining and splitting again gives back the parts when none contains the separator. */
  lemma {:induction false} SplitUndoesJoin(parts: seq<string>, sep: char)
    requires parts != []
    requires forall p :: p in parts ==> sep !in p
    ensures Split(Join(parts, sep), sep) == parts
  {
    if |parts| == 1 {
      SplitWithoutSeparator(parts[0], sep);
    } else {
      SplitUndoesJoin(parts[1..], sep);
      SplitAtSeparator(parts[0], Join(parts[1..], sep), sep);
    }
  }

  /** The position of the first separator, or the length when there is none. */
  function IndexOf(s: string, sep: char): (i: nat)
    ensures i <= |s|
  {
    if s == "" || s[0] == sep then 0 else 1 + IndexOf(s[1..], sep)
  }

  lemma {:induction false} IndexOfCut(a: string, x: string, sep: char)
    requires sep !in a
    ensures IndexOf(a + [sep] + x, sep) == |a|
  {
    if a != "" {
      IndexOfCut(a[1..], x, sep);
      assert (a + [sep] + x)[1..] == a[1..] + [sep] + x;
    }
  }

  lemma {:induction false} IndexOfFinds(s: string, sep: char)
    ensures sep !in s[..IndexOf(s, sep)]
    ensures IndexOf(s, sep) < |s| ==> s[IndexOf(s, sep)] == sep
  {
    if s != "" && s[0] != sep {
      IndexOfFinds(s[1..], sep);
      assert s[..IndexOf(s, sep)] == [s[0]] + s[1..][..IndexOf(s[1..], sep)];
    }
  }

  /** Two texts cut at the first separator: the parts before it and the parts after it agree. */
  lemma CutIsUnique(a: string, x: string, b: string, y: string, sep: char)
    requires sep !in a && sep !in b
    requires a + [sep] + x == b + [sep] + y
    ensures a == b && x == y
  {
    IndexOfCut(a, x, sep);
    IndexOfCut(b, y, sep);
    assert a == (a + [sep] + x)[..|a|] == b;
    assert x == (a + [sep] + x)[|a| + 1..] == y;
  }
}

/** strconv.FormatInt and strconv.ParseInt in base ten. */
module Decimal {
  import opened Text

  function Digit(d: nat): (c: char)
    requires d < 10
  {
    '0' + (d as char)
  }

  function DigitValue(c: char): (d: nat)
    requires IsDigit(c)
    ensures d < 10
  {
    c as int - '0' as int
  }

  lemma DigitsAreUsual(d: nat)
    requires d < 10
    ensures Digit(d) == "0123456789"[d] && DigitValue(Digit(d)) == d
  {
  }

  function FormatNat(n: nat): (s: string)
    ensures s != "" && forall c :: c in s ==> IsDigit(c)
  {
    if n < 10 then [Digit(n)] else FormatNat(n / 10) + [Digit(n % 10)]
  }

  function ParseNat(s: string): Option<nat> {
    if s == "" || !IsDigit(s[|s| - 1]) then None
    else if |s| == 1 then Some(DigitValue(s[0]))
    else match ParseNat(s[..|s| - 1])
      case None => None
      case Some(high) => Some(10 * high + DigitValue(s[|s| - 1]))
  }

  lemma {:induction false} ParseUndoesFormatNat(n: nat)
    ensures ParseNat(FormatNat(n)) == Some(n)
  {
    if n >= 10 {
      ParseUndoesFormatNat(n / 10);
      var s := FormatNat(n);
      assert s[..|s| - 1] == FormatNat(n / 10);
    }
  }

  function FormatInt(n: int): string {
    if n < 0 then "-" + FormatNat(-n) else FormatNat(n)
  }

  function ParseInt(s: string): Option<int> {
    var negative := s != "" && s[0] == '-';
    var magnitude := ParseNat(if negative then s[1..] else s);
    if magnitude.None? then None
    else
      var n: int := magnitude.value;
      Some(if negative then -n else n)
  }

  lemma ParseUndoesFormatInt(n: int)
    ensures ParseInt(FormatInt(n)) == Some(n)
  {
    var digits := FormatNat(if n < 0 then -n else n);
    ParseUndoesFormatNat(if n < 0 then -n else n);
    if n < 0 {
      assert ("-" + digits)[1..] == digits;
    } else {
      assert digits[0] in digits;
    }
  }

  /** The decimal text of a number, without leading zeros and without a sign before zero. */
  predicate Denotes(text: string, n: int) {
    && ParseInt(text) == Some(n)
    && (text == "0"
        || (text != "" && '1' <= text[0] <= '9')
        || (|text| > 1 && text[0] == '-' && '1' <= text[1] <= '9'))
  }

  lemma {:induction false} FirstDigit(n: nat)
    ensures n == 0 ==> FormatNat(n) == "0"
    ensures n > 0 ==> '1' <= FormatNat(n)[0] <= '9'
  {
    if n >= 10 {
      FirstDigit(n / 10);
    }
  }

  lemma FormatDenotes(n: int)
    ensures Denotes(FormatInt(n), n)
  {
    ParseUndoesFormatInt(n);
    FirstDigit(if n < 0 then -n else n);
  }
}
