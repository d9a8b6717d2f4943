/** url.QueryEscape: unreserved characters (section 2.3 of RFC 3986) are kept, a space becomes "+",
    and every other byte of the UTF-8 form is percent-encoded (section 2.1). */
module QueryEscape {
  import opened Text

  type Byte = n: nat | n < 256

  function Utf8(c: char): (bytes: seq<Byte>)
    ensures 1 <= |bytes| <= 4
  {
    var n := c as int;
    if n < 0x80 then [n]
    else if n < 0x800 then [0xC0 + n / 64, 0x80 + n % 64]
    else if n < 0x10000 then [0xE0 + n / 4096, 0x80 + n / 64 % 64, 0x80 + n % 64]
    else [0xF0 + n / 262144, 0x80 + n / 4096 % 64, 0x80 + n / 64 % 64, 0x80 + n % 64]
  }

  predicate Unreserved(c: char) {
    'a' <= c <= 'z' || 'A' <= c <= 'Z' || IsDigit(c) || c in ['-', '_', '.', '~']
  }

  /** The characters that an escaped text can contain. */
  predicate Emitted(c: char) {
    Unreserved(c) || c == '+' || c == '%'
  }

  function HexDigit(n: nat): (c: char)
    requires n < 16
    ensures Unreserved(c)
  {
    if n < 10 then '0' + (n as char) else 'A' + ((n - 10) as char)
  }

  function PercentEncode(bytes: seq<Byte>): string {
    if bytes == [] then ""
    else ['%', HexDigit(bytes[0] / 16), HexDigit(bytes[0] % 16)] + PercentEncode(bytes[1..])
  }

  function EscapeChar(c: char): string {
    if c == ' ' then "+" else if Unreserved(c) then [c] else PercentEncode(Utf8(c))
  }

  function Escape(s: string): string {
    if s == "" then "" else EscapeChar(s[0]) + Escape(s[1..])
  }

  predicate AllEmitted(s: string) {
    forall i :: 0 <= i < |s| ==> Emitted(s[i])
  }

  lemma {:induction false} PercentIsEmitted(bytes: seq<Byte>)
    ensures AllEmitted(PercentEncode(bytes)) && |PercentEncode(bytes)| == 3 * |bytes|
  {
    if bytes != [] {
      PercentIsEmitted(bytes[1..]);
    }
  }

  /** An escaped text has no character outside the escaper's alphabet, in particular none of "${}". */
  lemma {:induction false} EscapeIsEmitted(s: string)
    ensures AllEmitted(Escape(s))
  {
    if s != "" {
      EscapeIsEmitted(s[1..]);
      PercentIsEmitted(Utf8(s[0]));
    }
  }

  lemma HexIsInjective(a: nat, b: nat)
    requires a < 16 && b < 16 && HexDigit(a) == HexDigit(b)
    ensures a == b
  {
  }

  lemma PercentUnfold(bytes: seq<Byte>, x: string)
    requires bytes != []
    ensures PercentEncode(bytes) + x
         == ['%', HexDigit(bytes[0] / 16), HexDigit(bytes[0] % 16)] + (PercentEncode(bytes[1..]) + x)
  {
  }

  /** Equal percent-encoded texts agree byte by byte as far as the shorter one goes. */
  lemma {:induction false} PercentAgrees(a: seq<Byte>, x: string, b: seq<Byte>, y: string)
    requires |a| <= |b| && PercentEncode(a) + x == PercentEncode(b) + y
    ensures a == b[..|a|]
  {
    hide *;
    if a != [] {
      PercentUnfold(a, x);
      PercentUnfold(b, y);
      var s, t := PercentEncode(a) + x, PercentEncode(b) + y;
      assert s[1] == t[1] && s[2] == t[2];
      HexIsInjective(a[0] / 16, b[0] / 16);
      HexIsInjective(a[0] % 16, b[0] % 16);
      assert s[3..] == PercentEncode(a[1..]) + x && t[3..] == PercentEncode(b[1..]) + y;
      PercentAgrees(a[1..], x, b[1..], y);
      assert b[..|a|] == [b[0]] + b[1..][..|a| - 1];
    }
  }

  /** The first byte tells how many there are. */
  lemma Utf8LengthIsInFirstByte(c: char, d: char)
    requires Utf8(c)[0] == Utf8(d)[0]
    ensures |Utf8(c)| == |Utf8(d)|
  {
  }

  function FromUtf8(bytes: seq<Byte>): int
    requires 1 <= |bytes| <= 4
  {
    var b0: int := bytes[0];
    var b1: int := if |bytes| > 1 then bytes[1] else 0;
    var b2: int := if |bytes| > 2 then bytes[2] else 0;
    var b3: int := if |bytes| > 3 then bytes[3] else 0;
    match |bytes|
    case 1 => b0
    case 2 => (b0 - 0xC0) * 64 + (b1 - 0x80)
    case 3 => (b0 - 0xE0) * 4096 + (b1 - 0x80) * 64 + (b2 - 0x80)
    case _ => (b0 - 0xF0) * 262144 + (b1 - 0x80) * 4096 + (b2 - 0x80) * 64 + (b3 - 0x80)
  }

  lemma Utf8IsInvertible(c: char)
    ensures FromUtf8(Utf8(c)) == c as int
  {
    var n := c as int;
    assert n / 64 / 64 == n / 4096 && n / 4096 / 64 == n / 262144;
  }

  /** The escaped characters form a prefix code. */
  lemma EscapedCharsSeparate(c: char, x: string, d: char, y: string)
    requires EscapeChar(c) + x == EscapeChar(d) + y
    ensures c == d && x == y
  {
    hide HexDigit;
    var s := EscapeChar(c) + x;
    PercentIsEmitted(Utf8(c));
    PercentIsEmitted(Utf8(d));
    assert s[0] == EscapeChar(c)[0] == EscapeChar(d)[0];
    if s[0] == '%' {
      var a, b := Utf8(c), Utf8(d);
      if |a| <= |b| {
        PercentAgrees(a, x, b, y);
      } else {
        PercentAgrees(b, y, a, x);
      }
      Utf8LengthIsInFirstByte(c, d);
      Utf8IsInvertible(c);
      Utf8IsInvertible(d);
    }
    assert x == s[|EscapeChar(c)|..] && y == s[|EscapeChar(d)|..];
  }

  /** Distinct texts have distinct escaped forms. */
  lemma {:induction false} EscapeIsInjective(s: string, t: string)
    requires Escape(s) == Escape(t)
    ensures s == t
  {
    if s == "" || t == "" {
      EscapeIsLonger(s);
      EscapeIsLonger(t);
    } else {
      EscapedCharsSeparate(s[0], Escape(s[1..]), t[0], Escape(t[1..]));
      EscapeIsInjective(s[1..], t[1..]);
      assert s == [s[0]] + s[1..] && t == [t[0]] + t[1..];
    }
  }

  lemma {:induction false} EscapeIsLonger(s: string)
    ensures |Escape(s)| >= |s|
  {
    if s != "" {
      PercentIsEmitted(Utf8(s[0]));
      EscapeIsLonger(s[1..]);
    }
  }

  predicate AllUnreserved(s: string) {
    forall c :: c in s ==> Unreserved(c)
  }

  lemma {:induction false} EscapeOfUnreserved(s: string)
    requires AllUnreserved(s)
    ensures Escape(s) == s
  {
    if s != "" {
      assert s[0] in s && s[0] != ' ';
      EscapeOfUnreserved(s[1..]);
    }
  }

  // ---- Decoding ----

  function HexValue(c: char): (n: Option<nat>)
    ensures n.Some? ==> n.value < 16
  {
    if '0' <= c <= '9' then Some(c as int - '0' as int)
    else if 'A' <= c <= 'F' then Some(c as int - 'A' as int + 10)
    else None
  }

  lemma HexValueOfDigit(n: nat)
    requires n < 16
    ensures HexValue(HexDigit(n)) == Some(n)
  {
  }

  function Utf8All(s: string): seq<Byte> {
    if s == "" then [] else Utf8(s[0]) + Utf8All(s[1..])
  }

  /** The bytes that a receiver reads from a query component. */
  function Unescape(s: string): seq<Byte> {
    if s == "" then []
    else if s[0] == '%' && |s| >= 3 && HexValue(s[1]).Some? && HexValue(s[2]).Some? then
      [16 * HexValue(s[1]).value + HexValue(s[2]).value] + Unescape(s[3..])
    else if s[0] == '+' then [0x20] + Unescape(s[1..])
    else Utf8(s[0]) + Unescape(s[1..])
  }

  lemma UnescapeTriple(b: Byte, rest: string)
    ensures Unescape(['%', HexDigit(b / 16), HexDigit(b % 16)] + rest) == [b] + Unescape(rest)
  {
    hide HexDigit, HexValue, Utf8;
    HexValueOfDigit(b / 16);
    HexValueOfDigit(b % 16);
    var s := ['%', HexDigit(b / 16), HexDigit(b % 16)] + rest;
    assert s[3..] == rest && s[1] == HexDigit(b / 16) && s[2] == HexDigit(b % 16);
    assert 16 * (b / 16) + b % 16 == b;
  }

  lemma PercentOfNothing(rest: string)
    ensures PercentEncode([]) + rest == rest
  {
    assert PercentEncode([]) == "";
  }

  lemma {:induction false} UnescapePercent(bytes: seq<Byte>, rest: string)
    ensures Unescape(PercentEncode(bytes) + rest) == bytes + Unescape(rest)
  {
    hide *;
    if bytes == [] {
      PercentOfNothing(rest);
    } else {
      PercentUnfold(bytes, rest);
      UnescapeTriple(bytes[0], PercentEncode(bytes[1..]) + rest);
      UnescapePercent(bytes[1..], rest);
      assert bytes == [bytes[0]] + bytes[1..];
    }
  }

  lemma UnescapeChar(c: char, rest: string)
    ensures Unescape(EscapeChar(c) + rest) == Utf8(c) + Unescape(rest)
  {
    var s := EscapeChar(c) + rest;
    if c == ' ' || Unreserved(c) {
      assert s[0] == EscapeChar(c)[0] && s[1..] == rest;
    } else {
      UnescapePercent(Utf8(c), rest);
    }
  }

  /** The receiver of an escaped text reads back its UTF-8 form. */
  lemma {:induction false} UnescapeUndoesEscape(s: string)
    ensures Unescape(Escape(s)) == Utf8All(s)
  {
    hide Utf8, EscapeChar, Unescape;
    if s == "" {
      UnescapeNothing();
    } else {
      UnescapeChar(s[0], Escape(s[1..]));
      UnescapeUndoesEscape(s[1..]);
    }
  }

  lemma UnescapeNothing()
    ensures Unescape("") == []
  {
  }
}
