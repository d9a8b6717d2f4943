/** The substituted URL is the key of the cache of allowed values. When two substitutions into one
    template give one URL only for the same values. */
module CacheKey {
  import opened Text
  import opened QueryEscape
  import opened Template
  import opened Placeholders

  // ---------------------------------------------------------------------------------------------
  // Text that the escaper never emits

  /** The bytes that appear percent-encoded: parts of UTF-8 that are no unreserved character and no space. */
  predicate EncodedByte(n: nat) {
    if n < 0x80 then !Unreserved(n as char) && n != 0x20 else n <= 0xBF || 0xC2 <= n <= 0xF4
  }

  predicate EmittedPair(x: char, y: char) {
    HexValue(x).Some? && HexValue(y).Some? && EncodedByte(16 * HexValue(x).value + HexValue(y).value)
  }

  /** No escaped text has this start at any place: another character, or a "%" before what follows no
      "%" of the escaper. */
  predicate Bad(s: string) {
    s != "" &&
    (!Emitted(s[0])
     || (s[0] == '%' && ((|s| > 1 && HexValue(s[1]).None?) || (|s| > 2 && !EmittedPair(s[1], s[2])))))
  }

  function FirstBad(s: string): (n: nat)
    ensures n <= |s|
  {
    if s == "" || Bad(s) then 0 else 1 + FirstBad(s[1..])
  }

  // ---------------------------------------------------------------------------------------------
  // Separated placeholders

  /** The text before the next placeholder, if there is one. */
  function Gap(tokens: seq<Token>): Option<string> {
    if tokens == [] then None
    else match tokens[0]
      case Slot(_) => Some("")
      case Char(c) =>
        match Gap(tokens[1..])
        case None => None
        case Some(g) => Some([c] + g)
  }

  /** Before the next placeholder, if there is one, stands something that the escaper never emits. */
  predicate GapOk(tokens: seq<Token>) {
    Gap(tokens).Some? ==> FirstBad(Gap(tokens).value) < |Gap(tokens).value|
  }

  /** Between any placeholder and the next one stands such a thing. */
  predicate Separated(tokens: seq<Token>) {
    tokens == [] || ((tokens[0].Slot? ==> GapOk(tokens[1..])) && Separated(tokens[1..]))
  }

  ghost predicate SameValues(tokens: seq<Token>, e1: Env, e2: Env) {
    forall t :: t in tokens && t.Slot? ==> Value(e1, t.name) == Value(e2, t.name)
  }

  ghost predicate SameBound(tokens: seq<Token>, e1: Env, e2: Env) {
    forall t :: t in tokens && t.Slot? ==> Value(e1, t.name).Some? == Value(e2, t.name).Some?
  }

  // ---------------------------------------------------------------------------------------------
  // Separated placeholders tell their values

  /** The bytes of a character that is percent-encoded. */
  lemma BytesAreEncoded(c: char, i: nat)
    requires !Unreserved(c) && c != ' ' && i < |Utf8(c)|
    ensures EncodedByte(Utf8(c)[i])
  {
    var n := c as int;
    if n < 0x80 {
      assert n as char == c;
    }
  }

  lemma {:induction false} PercentIsNotBad(bytes: seq<Byte>, t: string)
    requires forall i :: 0 <= i < |bytes| ==> EncodedByte(bytes[i])
    ensures FirstBad(PercentEncode(bytes) + t) == |PercentEncode(bytes)| + FirstBad(t)
  {
    hide HexDigit, HexValue, EncodedByte, Unreserved;
    if bytes == [] {
      assert "" + t == t;
    } else {
      var hi, lo := HexDigit(bytes[0] / 16), HexDigit(bytes[0] % 16);
      var rest := PercentEncode(bytes[1..]) + t;
      PercentIsNotBad(bytes[1..], t);
      HexValueOfDigit(bytes[0] / 16);
      HexValueOfDigit(bytes[0] % 16);
      PercentUnfold(bytes, t);
      assert EmittedPair(hi, lo);
      TripleIsNotBad(hi, lo, rest);
    }
  }

  lemma TripleIsNotBad(hi: char, lo: char, rest: string)
    requires EmittedPair(hi, lo) && Unreserved(hi) && Unreserved(lo)
    ensures FirstBad(['%', hi, lo] + rest) == 3 + FirstBad(rest)
  {
    hide HexValue, EncodedByte;
    var s := ['%', hi, lo] + rest;
    assert hi != '%' && lo != '%' && Emitted(hi) && Emitted(lo);
    assert s[1..] == [hi, lo] + rest && s[1..][1..] == [lo] + rest && s[1..][1..][1..] == rest;
    assert !Bad(s) && FirstBad(s) == 1 + FirstBad(s[1..]);
    assert !Bad(s[1..]) && FirstBad(s[1..]) == 1 + FirstBad(s[1..][1..]);
    assert !Bad(s[1..][1..]);
  }

  /** Escaped text adds nothing bad to what follows it. */
  lemma {:induction false} EscapeIsNotBad(v: string, t: string)
    ensures FirstBad(Escape(v) + t) == |Escape(v)| + FirstBad(t)
  {
    hide Utf8, PercentEncode, Unreserved, EncodedByte, Bad;
    if v == "" {
      assert Escape(v) + t == t;
    } else {
      var c, rest := v[0], Escape(v[1..]) + t;
      EscapeIsNotBad(v[1..], t);
      assert Escape(v) + t == EscapeChar(c) + rest;
      if c == ' ' || Unreserved(c) {
        PlainIsNotBad(EscapeChar(c)[0], rest);
        assert EscapeChar(c) == [EscapeChar(c)[0]];
      } else {
        forall i | 0 <= i < |Utf8(c)| ensures EncodedByte(Utf8(c)[i]) {
          BytesAreEncoded(c, i);
        }
        PercentIsNotBad(Utf8(c), rest);
      }
    }
  }

  lemma PlainIsNotBad(c: char, rest: string)
    requires Unreserved(c) || c == '+'
    ensures FirstBad([c] + rest) == 1 + FirstBad(rest)
  {
    hide HexValue, EncodedByte;
    assert c != '%' && ([c] + rest)[1..] == rest;
  }

  lemma HexIsUnreserved(c: char)
    requires HexValue(c).Some?
    ensures Unreserved(c)
  {
  }

  /** Something bad inside a text stays the first bad thing whatever follows. */
  lemma {:induction false} BadStays(g: string, r: string)
    requires FirstBad(g) < |g|
    ensures FirstBad(g + r) == FirstBad(g)
  {
    hide HexValue, EncodedByte, Emitted;
    var s := g + r;
    if Bad(g) {
      BadEvidenceStays(g, r);
    } else {
      assert s[1..] == g[1..] + r;
      BadStays(g[1..], r);
      NotBadStays(g, r);
    }
  }

  lemma BadEvidenceStays(g: string, r: string)
    requires Bad(g)
    ensures Bad(g + r)
  {
    hide HexValue, EncodedByte, Emitted;
    assert forall i :: 0 <= i < |g| ==> (g + r)[i] == g[i];
  }

  lemma NotBadStays(g: string, r: string)
    requires !Bad(g) && g != "" && FirstBad(g[1..]) < |g| - 1
    ensures !Bad(g + r)
  {
    hide EncodedByte;
    assert forall i :: 0 <= i < |g| ==> (g + r)[i] == g[i];
    assert |g| == 2 ==> g[1..] == [g[1]];
    if g[0] == '%' && |g| == 2 {
      HexIsUnreserved(g[1]);
    }
  }

  lemma {:induction false} NoBadIsEmitted(s: string)
    requires FirstBad(s) == |s|
    ensures AllEmitted(s)
  {
    hide HexValue, EncodedByte, Emitted;
    if s != "" {
      NoBadIsEmitted(s[1..]);
      assert Emitted(s[0]);
      assert forall i :: 0 < i < |s| ==> s[i] == s[1..][i - 1];
    }
  }

  lemma SameSplit(a: string, x: string, b: string, y: string)
    requires a + x == b + y && |a| == |b|
    ensures a == b && x == y
  {
    var s := a + x;
    assert a == s[..|a|] && b == s[..|b|] && x == s[|a|..] && y == s[|b|..];
  }

  lemma {:induction false} GapSplits(tokens: seq<Token>)
    requires Gap(tokens).Some?
    ensures var g := Gap(tokens).value; |g| < |tokens| && tokens == Chars(g) + tokens[|g|..] && tokens[|g|].Slot?
  {
    if tokens[0].Slot? {
      assert tokens[0..] == tokens && Chars("") == [];
    } else {
      GapSplits(tokens[1..]);
      var g := Gap(tokens[1..]).value;
      assert tokens[1..][|g|..] == tokens[|g| + 1..];
      assert Chars([tokens[0].c] + g) == [tokens[0]] + Chars(g);
    }
  }

  lemma GapShows(tokens: seq<Token>, env: Env)
    requires Gap(tokens).Some?
    ensures var g := Gap(tokens).value; |g| < |tokens| && ShowAll(tokens, env) == g + ShowAll(tokens[|g|..], env)
  {
    hide ShowAll, Gap;
    GapSplits(tokens);
    var g := Gap(tokens).value;
    ShowAllAppend(Chars(g), tokens[|g|..], env);
    ShowChars(g, env);
  }

  lemma {:induction false} NoGapShowsSame(tokens: seq<Token>, e1: Env, e2: Env)
    requires Gap(tokens).None?
    ensures ShowAll(tokens, e1) == ShowAll(tokens, e2)
  {
    if tokens != [] {
      NoGapShowsSame(tokens[1..], e1, e2);
    }
  }

  /** What escaped text runs into up to a separator, or the end, tells the text. */
  lemma GapFixesRun(tokens: seq<Token>, e1: Env, e2: Env, v: string, w: string)
    requires GapOk(tokens) && Escape(v) + ShowAll(tokens, e1) == Escape(w) + ShowAll(tokens, e2)
    ensures Escape(v) == Escape(w) && ShowAll(tokens, e1) == ShowAll(tokens, e2)
  {
    hide Value, Escape, FirstBad, ShowAll, Gap;
    var x, y := ShowAll(tokens, e1), ShowAll(tokens, e2);
    if Gap(tokens).None? {
      NoGapShowsSame(tokens, e1, e2);
    } else {
      var g := Gap(tokens).value;
      GapShows(tokens, e1);
      GapShows(tokens, e2);
      BadStays(g, ShowAll(tokens[|g|..], e1));
      BadStays(g, ShowAll(tokens[|g|..], e2));
      EscapeIsNotBad(v, x);
      EscapeIsNotBad(w, y);
    }
    assert |Escape(v) + x| == |Escape(v)| + |x| && |Escape(w) + y| == |Escape(w)| + |y|;
    SameSplit(Escape(v), x, Escape(w), y);
  }

  lemma SlotTellsValue(n: string, rest: seq<Token>, e1: Env, e2: Env)
    requires GapOk(rest) && Value(e1, n).Some? && Value(e2, n).Some?
    requires Show(Slot(n), e1) + ShowAll(rest, e1) == Show(Slot(n), e2) + ShowAll(rest, e2)
    ensures Value(e1, n) == Value(e2, n) && ShowAll(rest, e1) == ShowAll(rest, e2)
  {
    hide Value, GapOk;
    var v, w := Value(e1, n).value, Value(e2, n).value;
    GapFixesRun(rest, e1, e2, v, w);
    EscapeIsInjective(v, w);
  }

  /** A placeholder that is bound cannot look like one that is not, unless a stray "$" follows it. */
  lemma UnboundShowsDollar(n: string, rest: seq<Token>, e1: Env, e2: Env)
    requires GapOk(rest) && Char('$') !in rest && Value(e1, n).Some? && Value(e2, n).None?
    ensures Show(Slot(n), e1) + ShowAll(rest, e1) != Show(Slot(n), e2) + ShowAll(rest, e2)
  {
    hide Value;
    var v, x := Value(e1, n).value, ShowAll(rest, e1);
    EscapeIsEmitted(v);
    assert rest != [] ==> rest[0] in rest;
    assert x == "" || x[0] != '$';
    assert (Show(Slot(n), e2) + ShowAll(rest, e2))[0] == '$';
    assert Escape(v) == "" ==> Escape(v) + x == x;
  }

  lemma {:induction false} ShowsTellValues(tokens: seq<Token>, e1: Env, e2: Env)
    requires Separated(tokens) && ShowAll(tokens, e1) == ShowAll(tokens, e2)
    requires Char('$') !in tokens || SameBound(tokens, e1, e2)
    ensures SameValues(tokens, e1, e2)
    decreases |tokens|
  {
    hide Value, GapOk, Show;
    if tokens != [] {
      var rest := tokens[1..];
      assert tokens == [tokens[0]] + rest;
      match tokens[0] {
        case Char(c) =>
          ShowChar(c, e1);
          ShowChar(c, e2);
          SameSplit([c], ShowAll(rest, e1), [c], ShowAll(rest, e2));
        case Slot(n) =>
          var v, w := Value(e1, n), Value(e2, n);
          if v.Some? && w.None? {
            UnboundShowsDollar(n, rest, e1, e2);
          } else if v.None? && w.Some? {
            UnboundShowsDollar(n, rest, e2, e1);
          } else if v.Some? {
            SlotTellsValue(n, rest, e1, e2);
          } else {
            ShowUnbound(n, e1);
            ShowUnbound(n, e2);
            SameSplit(Key(n), ShowAll(rest, e1), Key(n), ShowAll(rest, e2));
          }
      }
      ShowsTellValues(rest, e1, e2);
    }
  }

  lemma ShowUnbound(n: string, env: Env)
    requires Value(env, n).None?
    ensures Show(Slot(n), env) == Key(n)
  {
  }

  lemma {:induction false} SameValuesShow(tokens: seq<Token>, e1: Env, e2: Env)
    requires SameValues(tokens, e1, e2)
    ensures ShowAll(tokens, e1) == ShowAll(tokens, e2)
  {
    if tokens != [] {
      assert tokens[0] in tokens;
      SameValuesShow(tokens[1..], e1, e2);
    }
  }

  /** The cache key is faithful, for any two callers and any inputs bound on either side: on a
      well-formed template with separated placeholders one URL means the same values. */
  lemma SameUrlExactlyForSameVariables(s: string, e1: Env, o1: seq<string>, e2: Env, o2: seq<string>)
    requires WellFormed(s) && Separated(Read(s))
    requires IsOrder(o1, e1.inputs.Keys) && BraceFree(e1.inputs.Keys)
    requires IsOrder(o2, e2.inputs.Keys) && BraceFree(e2.inputs.Keys)
    ensures Substitute(e1, o1, s) == Substitute(e2, o2, s) <==> SameValues(Read(s), e1, e2)
  {
    hide Substitute, SameValues, Separated, Read, IsOrder, BraceFree;
    SubstituteReads(e1, o1, s);
    SubstituteReads(e2, o2, s);
    if ShowAll(Read(s), e1) == ShowAll(Read(s), e2) {
      ShowsTellValues(Read(s), e1, e2);
    }
    if SameValues(Read(s), e1, e2) {
      SameValuesShow(Read(s), e1, e2);
    }
  }

  // ---------------------------------------------------------------------------------------------
  // When a template is a faithful key

  /** All values for the names give one URL only if they agree on what the template uses. */
  ghost predicate Faithful(names: set<string>, order: seq<string>, s: string)
    requires IsOrder(order, names)
  {
    forall e1: Env, e2: Env :: e1.inputs.Keys == names && e2.inputs.Keys == names ==>
      (Substitute(e1, order, s) == Substitute(e2, order, s) <==> SameValues(ParseIn(order, s), e1, e2))
  }

  lemma KnownIsSameBound(names: set<string>, order: seq<string>, tokens: seq<Token>, e1: Env, e2: Env)
    requires IsOrder(order, names) && e1.inputs.Keys == names && e2.inputs.Keys == names && Known(tokens, order)
    ensures SameBound(tokens, e1, e2)
  {
    hide Value, VariableNames, IsOrder;
    forall t | t in tokens && t.Slot? ensures Value(e1, t.name).Some? == Value(e2, t.name).Some? {
      KnownIsBound(names, order, e1, t.name);
      KnownIsBound(names, order, e2, t.name);
    }
  }

  /** Separated placeholders make any template faithful, whatever the names and their order. */
  lemma SeparatedIsFaithful(names: set<string>, order: seq<string>, s: string)
    requires IsOrder(order, names) && Separated(ParseIn(order, s))
    ensures Faithful(names, order, s)
  {
    hide Substitute, SameValues, SameBound, Separated, ParseIn, IsOrder, Known;
    var tokens := ParseIn(order, s);
    ParseInKnown(order, s);
    forall e1: Env, e2: Env | e1.inputs.Keys == names && e2.inputs.Keys == names
      ensures Substitute(e1, order, s) == Substitute(e2, order, s) <==> SameValues(tokens, e1, e2)
    {
      SubstituteShows(e1, order, s);
      SubstituteShows(e2, order, s);
      KnownIsSameBound(names, order, tokens, e1, e2);
      if ShowAll(tokens, e1) == ShowAll(tokens, e2) {
        ShowsTellValues(tokens, e1, e2);
      }
      if SameValues(tokens, e1, e2) {
        SameValuesShow(tokens, e1, e2);
      }
    }
  }

  lemma ParseInKnown(order: seq<string>, s: string)
    ensures Known(ParseIn(order, s), order)
  {
    ParseSlots(VariableNames(order), s);
  }

  // ---------------------------------------------------------------------------------------------
  // Unseparated placeholders collide

  /** With some unreserved text added, the gap is the escaped form of a text. */
  ghost predicate Ambiguous(gap: string) {
    exists u, q :: u != "" && AllUnreserved(q) && Escape(u) == gap + q
  }

  /** Every gap between placeholders separates them or is ambiguous. */
  ghost predicate Decided(tokens: seq<Token>) {
    || tokens == []
    || ((tokens[0].Slot? ==> GapOk(tokens[1..]) || Ambiguous(Gap(tokens[1..]).value)) && Decided(tokens[1..]))
  }

  /** Two placeholders with an ambiguous gap. */
  lemma {:induction false} FindUnseparated(tokens: seq<Token>)
    returns (pre: seq<Token>, a: string, gap: string, b: string, post: seq<Token>)
    requires !Separated(tokens) && Decided(tokens)
    ensures tokens == pre + ([Slot(a)] + (Chars(gap) + ([Slot(b)] + post))) && Ambiguous(gap)
  {
    hide FirstBad, Ambiguous, Gap;
    var rest := tokens[1..];
    if tokens[0].Slot? && !GapOk(rest) {
      gap := Gap(rest).value;
      GapSplits(rest);
      pre, a, b, post := [], tokens[0].name, rest[|gap|].name, rest[|gap|..][1..];
      assert rest[|gap|..] == [Slot(b)] + post;
    } else {
      pre, a, gap, b, post := FindUnseparated(rest);
      pre := [tokens[0]] + pre;
    }
  }

  /** No variable occurs twice. */
  predicate NoRepeat(tokens: seq<Token>) {
    forall i, j :: 0 <= i < j < |tokens| && tokens[i].Slot? && tokens[j].Slot? ==> tokens[i] != tokens[j]
  }

  /** The values that collide: empty and q + u, against u and q. */
  function Colliding(names: set<string>, a: string, v: string, b: string, w: string): (env: Env)
    ensures env.inputs.Keys == names
  {
    EnvBy(names, n => if n == a then v else if n == b then w else "")
  }

  lemma ValueInColliding(names: set<string>, order: seq<string>, a: string, v: string, b: string, w: string, n: string)
    requires IsOrder(order, names) && n in VariableNames(order)
    ensures Value(Colliding(names, a, v, b, w), n) == Some(if n == a then v else if n == b then w else "")
  {
    ValueBy(names, order, n, m => if m == a then v else if m == b then w else "");
  }

  lemma {:induction false} ShowAllAppend(x: seq<Token>, y: seq<Token>, env: Env)
    ensures ShowAll(x + y, env) == ShowAll(x, env) + ShowAll(y, env)
  {
    hide Show;
    if x == [] {
      assert x + y == y;
    } else {
      assert (x + y)[1..] == x[1..] + y;
      ShowAllAppend(x[1..], y, env);
    }
  }

  lemma {:induction false} ShowChars(text: string, env: Env)
    ensures ShowAll(Chars(text), env) == text
  {
    if text != "" {
      assert Chars(text)[1..] == Chars(text[1..]);
      ShowChars(text[1..], env);
      assert text == [text[0]] + text[1..];
    }
  }

  lemma {:induction false} EscapeAppend(v: string, w: string)
    ensures Escape(v + w) == Escape(v) + Escape(w)
  {
    hide EscapeChar;
    if v == "" {
      assert v + w == w;
    } else {
      assert (v + w)[1..] == v[1..] + w;
      EscapeAppend(v[1..], w);
    }
  }

  lemma ShowPair(a: string, gap: string, b: string, env: Env, v: string, w: string)
    requires Value(env, a) == Some(v) && Value(env, b) == Some(w)
    ensures ShowAll([Slot(a)] + (Chars(gap) + [Slot(b)]), env) == Escape(v) + (gap + Escape(w))
  {
    hide Value, Escape;
    ShowAllAppend([Slot(a)], Chars(gap) + [Slot(b)], env);
    ShowAllAppend(Chars(gap), [Slot(b)], env);
    ShowChars(gap, env);
    ShowOne(Slot(a), env);
    ShowOne(Slot(b), env);
  }

  lemma ShowOne(t: Token, env: Env)
    ensures ShowAll([t], env) == Show(t, env)
  {
    assert Show(t, env) + "" == Show(t, env);
  }

  lemma PairCollides(gap: string, u: string, q: string)
    requires AllUnreserved(q) && Escape(u) == gap + q
    ensures Escape("") + (gap + Escape(q + u)) == Escape(u) + (gap + Escape(q))
  {
    hide Escape;
    EscapeAppend(q, u);
    EscapeOfUnreserved(q);
    assert Escape("") == "" by { EscapeOfUnreserved(""); }
    Twice(gap, q);
  }

  lemma Twice(gap: string, q: string)
    ensures "" + (gap + (q + (gap + q))) == (gap + q) + (gap + q)
  {
  }

  predicate FreeOf(tokens: seq<Token>, a: string, b: string) {
    Slot(a) !in tokens && Slot(b) !in tokens
  }

  lemma FreeShowsSame(names: set<string>, order: seq<string>, tokens: seq<Token>, a: string, b: string,
                      v1: string, w1: string, v2: string, w2: string)
    requires IsOrder(order, names) && Known(tokens, order) && FreeOf(tokens, a, b)
    ensures ShowAll(tokens, Colliding(names, a, v1, b, w1)) == ShowAll(tokens, Colliding(names, a, v2, b, w2))
  {
    hide Value, VariableNames, IsOrder, Colliding;
    var e1, e2 := Colliding(names, a, v1, b, w1), Colliding(names, a, v2, b, w2);
    forall t | t in tokens && t.Slot? ensures Value(e1, t.name) == Value(e2, t.name) {
      assert t == Slot(t.name);
      ValueInColliding(names, order, a, v1, b, w1, t.name);
      ValueInColliding(names, order, a, v2, b, w2, t.name);
    }
    SameValuesShow(tokens, e1, e2);
  }

  /** Two placeholders collide if the text between them, with some unreserved text q added, is the
      escaped form of some text u: then the values "" and q + u give what u and q give. */
  lemma AmbiguousGapCollides(names: set<string>, order: seq<string>, pre: seq<Token>, a: string, gap: string, b: string,
                             post: seq<Token>, u: string, q: string)
    requires IsOrder(order, names) && a != b && FreeOf(pre, a, b) && FreeOf(post, a, b)
    requires Known(pre, order) && Known(post, order) && Known([Slot(a), Slot(b)], order)
    requires AllUnreserved(q) && Escape(u) == gap + q
    ensures var tokens := pre + (([Slot(a)] + (Chars(gap) + [Slot(b)])) + post);
            ShowAll(tokens, Colliding(names, a, "", b, q + u)) == ShowAll(tokens, Colliding(names, a, u, b, q))
    ensures Value(Colliding(names, a, "", b, q + u), a) == Some("") && Value(Colliding(names, a, u, b, q), a) == Some(u)
  {
    hide Value, VariableNames, IsOrder, Colliding, Escape, FreeOf, Chars, AllUnreserved, ShowAll;
    var e1, e2 := Colliding(names, a, "", b, q + u), Colliding(names, a, u, b, q);
    assert Slot(a) in [Slot(a), Slot(b)] && Slot(b) in [Slot(a), Slot(b)];
    ValueInColliding(names, order, a, "", b, q + u, a);
    ValueInColliding(names, order, a, "", b, q + u, b);
    ValueInColliding(names, order, a, u, b, q, a);
    ValueInColliding(names, order, a, u, b, q, b);
    var pair := [Slot(a)] + (Chars(gap) + [Slot(b)]);
    ShowPair(a, gap, b, e1, "", q + u);
    ShowPair(a, gap, b, e2, u, q);
    PairCollides(gap, u, q);
    FreeShowsSame(names, order, pre, a, b, "", q + u, u, q);
    FreeShowsSame(names, order, post, a, b, "", q + u, u, q);
    ShowAllAppend(pre, pair + post, e1);
    ShowAllAppend(pair, post, e1);
    ShowAllAppend(pre, pair + post, e2);
    ShowAllAppend(pair, post, e2);
  }

  /** The text that an escaped text without "%" stands for. */
  function Unplus(s: string): string {
    if s == "" then "" else [if s[0] == '+' then ' ' else s[0]] + Unplus(s[1..])
  }

  lemma {:induction false} EscapeUndoesUnplus(s: string)
    requires AllEmitted(s) && '%' !in s
    ensures Escape(Unplus(s)) == s && |Unplus(s)| == |s|
  {
    if s != "" {
      assert s[0] in s && Emitted(s[0]);
      EscapeUndoesUnplus(s[1..]);
      assert s == [s[0]] + s[1..];
    }
  }

  lemma GapIsAmbiguous(gap: string)
    requires AllEmitted(gap) && '%' !in gap
    ensures Ambiguous(gap)
  {
    hide Escape;
    if gap == "" {
      EscapeOfUnreserved("a");
      assert Escape("a") == gap + "a";
    } else {
      var u, q := Unplus(gap), "";
      EscapeUndoesUnplus(gap);
      assert Escape(u) == gap + q;
    }
  }

  predicate NoPercentBetween(tokens: seq<Token>) {
    forall i, j, k :: 0 <= i < j < k < |tokens| && tokens[i].Slot? && tokens[k].Slot? ==> tokens[j] != Char('%')
  }

  /** Without "%" between placeholders every gap is decided. */
  lemma {:induction false} NoPercentIsDecided(tokens: seq<Token>)
    requires NoPercentBetween(tokens)
    ensures Decided(tokens)
  {
    hide FirstBad, Ambiguous, Gap, AllEmitted;
    if tokens != [] {
      var rest := tokens[1..];
      forall i, j, k | 0 <= i < j < k < |rest| && rest[i].Slot? && rest[k].Slot? ensures rest[j] != Char('%') {
        assert rest[i] == tokens[i + 1] && rest[j] == tokens[j + 1] && rest[k] == tokens[k + 1];
      }
      NoPercentIsDecided(rest);
      if tokens[0].Slot? && !GapOk(rest) {
        var g := Gap(rest).value;
        GapSplits(rest);
        NoBadIsEmitted(g);
        forall j | 0 <= j < |g| ensures g[j] != '%' {
          assert tokens[j + 1] == rest[j] == Char(g[j]) && tokens[|g| + 1] == rest[|g|];
        }
        GapIsAmbiguous(g);
      }
    }
  }

  lemma SplitFacts(tokens: seq<Token>, order: seq<string>, pre: seq<Token>, a: string, gap: string, b: string, post: seq<Token>)
    requires tokens == pre + ([Slot(a)] + (Chars(gap) + ([Slot(b)] + post)))
    requires NoRepeat(tokens) && Known(tokens, order)
    ensures a != b && FreeOf(pre, a, b) && FreeOf(post, a, b)
    ensures Known(pre, order) && Known(post, order) && Known([Slot(a), Slot(b)], order)
    ensures tokens == pre + (([Slot(a)] + (Chars(gap) + [Slot(b)])) + post)
  {
    hide VariableNames;
    var i, k := |pre|, |pre| + 1 + |gap|;
    assert tokens[i] == Slot(a) && tokens[k] == Slot(b);
    forall j | 0 <= j < |pre| ensures pre[j] != Slot(a) && pre[j] != Slot(b) {
      assert tokens[j] == pre[j];
    }
    forall j | 0 <= j < |post| ensures post[j] != Slot(a) && post[j] != Slot(b) {
      assert tokens[k + 1 + j] == post[j];
    }
  }

  /** Every template in which no variable occurs twice and every gap is decided: if some placeholders are
      not separated, two different sets of values share one URL. */
  lemma UnseparatedKeysCollide(names: set<string>, order: seq<string>, s: string) returns (e1: Env, e2: Env)
    requires IsOrder(order, names) && !Separated(ParseIn(order, s))
    requires NoRepeat(ParseIn(order, s)) && Decided(ParseIn(order, s))
    ensures e1.inputs.Keys == names && e2.inputs.Keys == names
    ensures Substitute(e1, order, s) == Substitute(e2, order, s) && !SameValues(ParseIn(order, s), e1, e2)
  {
    hide Substitute, Separated, ParseIn, IsOrder, Known, NoRepeat, Decided, Escape, Value, Colliding, FreeOf, AllUnreserved;
    var tokens := ParseIn(order, s);
    ParseInKnown(order, s);
    var pre, a, gap, b, post := FindUnseparated(tokens);
    SplitFacts(tokens, order, pre, a, gap, b, post);
    var u, q :| u != "" && AllUnreserved(q) && Escape(u) == gap + q;
    e1, e2 := Colliding(names, a, "", b, q + u), Colliding(names, a, u, b, q);
    AmbiguousGapCollides(names, order, pre, a, gap, b, post, u, q);
    SubstituteShows(e1, order, s);
    SubstituteShows(e2, order, s);
    assert tokens[|pre|] == Slot(a);
  }

  /** The exact condition for such templates: the URL is a faithful key if and only if every two
      neighbouring placeholders are separated by something that the escaper never emits. */
  lemma FaithfulExactlyWhenSeparated(names: set<string>, order: seq<string>, s: string)
    requires IsOrder(order, names)
    requires NoRepeat(ParseIn(order, s)) && Decided(ParseIn(order, s))
    ensures Faithful(names, order, s) <==> Separated(ParseIn(order, s))
  {
    hide Substitute, SameValues, Separated, ParseIn, IsOrder, NoRepeat, Decided;
    if Separated(ParseIn(order, s)) {
      SeparatedIsFaithful(names, order, s);
    } else {
      var e1, e2 := UnseparatedKeysCollide(names, order, s);
    }
  }
}
