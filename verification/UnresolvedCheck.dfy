/** The check for unresolved parameters: the substituted URL must not contain "${input."
    (internal/api/api.go, lines 193 to 197). When it fires, and when it is exact. */
module UnresolvedCheck {
  import opened Text
  import opened QueryEscape
  import opened Template
  import opened Placeholders

  const UNRESOLVED := "${input."

  // ---------------------------------------------------------------------------------------------
  // Where the text can come from

  /** The tokens start with these very characters. */
  predicate StartsWith(tokens: seq<Token>, w: string) {
    w == "" || (tokens != [] && tokens[0] == Char(w[0]) && StartsWith(tokens[1..], w[1..]))
  }

  /** The template itself spells the text out. */
  predicate SpelledOut(tokens: seq<Token>) {
    tokens != [] && (StartsWith(tokens, UNRESOLVED) || SpelledOut(tokens[1..]))
  }

  /** What follows can still spell w when the placeholders in `empty` have empty values: any other
      placeholder can spell all that is left. */
  predicate CanSpell(tokens: seq<Token>, empty: set<string>, w: string) {
    || w == ""
    || (tokens != [] &&
        match tokens[0]
        case Char(c) => c == w[0] && CanSpell(tokens[1..], empty, w[1..])
        case Slot(n) => n in empty ==> CanSpell(tokens[1..], empty, w))
  }

  /** After a "$": placeholders that must be empty, a "{", and something that can spell "input.". */
  predicate Opens(tokens: seq<Token>, empty: set<string>) {
    tokens != [] &&
    match tokens[0]
    case Char(c) => c == '{' && CanSpell(tokens[1..], empty, INPUT)
    case Slot(n) => Opens(tokens[1..], empty + {n})
  }

  /** Some values make the text appear. */
  predicate HasTrap(tokens: seq<Token>) {
    tokens != [] && ((tokens[0] == Char('$') && Opens(tokens[1..], {})) || HasTrap(tokens[1..]))
  }

  // ---------------------------------------------------------------------------------------------
  // Values that show what a template can do

  /** All variables empty but one. */
  function EnvWith(names: set<string>, x: string, u: string): (env: Env)
    ensures env.inputs.Keys == names
  {
    EnvBy(names, n => if n == x then u else "")
  }

  function EnvOf(names: set<string>, u: string): (env: Env)
    ensures env.inputs.Keys == names
  {
    EnvBy(names, _ => u)
  }

  lemma ValueInEnvs(names: set<string>, order: seq<string>, n: string, x: string, u: string)
    requires IsOrder(order, names) && n in VariableNames(order)
    ensures Value(EnvWith(names, x, u), n) == Some(if n == x then u else "")
    ensures Value(EnvOf(names, u), n) == Some(u)
  {
    hide VariableNames, Value;
    ValueBy(names, order, n, m => if m == x then u else "");
    ValueBy(names, order, n, _ => u);
  }

  lemma EscapeStarts(v: string)
    ensures v == "" ==> Escape(v) == ""
    ensures v != "" ==> Escape(v) != "" && Emitted(Escape(v)[0])
  {
    EscapeIsEmitted(v);
    EscapeIsLonger(v);
  }

  lemma InputIsUnreserved()
    ensures AllUnreserved(INPUT)
  {
  }

  // ---------------------------------------------------------------------------------------------
  // Containing the text

  lemma {:induction false} ContainsSkipsPlain(text: string, rest: string)
    requires '$' !in text
    ensures Contains(text + rest, UNRESOLVED) <==> Contains(rest, UNRESOLVED)
  {
    if text == "" {
      assert text + rest == rest;
    } else {
      var s := text + rest;
      assert s[0] == text[0] && text[0] in text;
      assert s[1..] == text[1..] + rest;
      ContainsSkipsPlain(text[1..], rest);
    }
  }

  lemma ContainsAfterChar(c: char, rest: string)
    ensures Contains([c] + rest, UNRESOLVED) <==> (c == '$' && UNRESOLVED[1..] <= rest) || Contains(rest, UNRESOLVED)
  {
    var s := [c] + rest;
    assert s[1..] == rest;
    assert UNRESOLVED == ['$'] + UNRESOLVED[1..];
    if c == '$' && UNRESOLVED[1..] <= rest {
      assert UNRESOLVED <= s;
    }
    if UNRESOLVED <= s {
      assert s[0] == UNRESOLVED[0] == '$';
      assert rest[..7] == s[..8][1..] == UNRESOLVED[1..];
    }
  }

  lemma ContainsAfterSlot(env: Env, n: string, rest: string)
    requires Value(env, n).Some?
    ensures Contains(Show(Slot(n), env) + rest, UNRESOLVED) <==> Contains(rest, UNRESOLVED)
  {
    hide Contains, Value;
    EscapeIsEmitted(Value(env, n).value);
    ContainsSkipsPlain(Show(Slot(n), env), rest);
  }

  // ---------------------------------------------------------------------------------------------
  // When the check fires for some values

  /** Values that show w after the tokens are values with which the tokens can spell it. */
  lemma {:induction false} ShownIsSpelled(names: set<string>, order: seq<string>, env: Env, tokens: seq<Token>, empty: set<string>, w: string)
    requires IsOrder(order, names) && env.inputs.Keys == names && Known(tokens, order)
    requires forall n :: n in empty ==> Value(env, n) == Some("")
    requires w <= ShowAll(tokens, env)
    ensures CanSpell(tokens, empty, w)
    decreases |tokens|
  {
    hide Value, VariableNames, IsOrder, Escape, Known;
    if w != "" {
      KnownTail(tokens, order);
      var rest := ShowAll(tokens[1..], env);
      match tokens[0]
      case Char(c) =>
        assert w[0] == ([c] + rest)[0];
        assert w[1..] <= rest by { assert ([c] + rest)[1..] == rest; }
        ShownIsSpelled(names, order, env, tokens[1..], empty, w[1..]);
      case Slot(n) =>
        KnownIsBound(names, order, env, n);
        if n in empty {
          EscapeStarts("");
          assert Escape("") + rest == rest;
          ShownIsSpelled(names, order, env, tokens[1..], empty, w);
        }
    }
  }

  lemma OnlyEmptyBeforeBrace(v: string, rest: string)
    requires Escape(v) + rest != "" && (Escape(v) + rest)[0] == '{'
    ensures v == ""
  {
    EscapeStarts(v);
  }

  lemma {:induction false} ShownOpens(names: set<string>, order: seq<string>, env: Env, tokens: seq<Token>, empty: set<string>)
    requires IsOrder(order, names) && env.inputs.Keys == names && Known(tokens, order)
    requires forall n :: n in empty ==> Value(env, n) == Some("")
    requires UNRESOLVED[1..] <= ShowAll(tokens, env)
    ensures Opens(tokens, empty)
    decreases |tokens|
  {
    hide Value, VariableNames, IsOrder, Escape, Known, CanSpell;
    KnownTail(tokens, order);
    var rest := ShowAll(tokens[1..], env);
    var w := UNRESOLVED[1..];
    assert w[0] == '{' && w[1..] == INPUT;
    match tokens[0]
    case Char(c) =>
      assert w[0] == ([c] + rest)[0];
      assert w[1..] <= rest by { assert ([c] + rest)[1..] == rest; }
      ShownIsSpelled(names, order, env, tokens[1..], empty, INPUT);
    case Slot(n) =>
      KnownIsBound(names, order, env, n);
      var v := Value(env, n).value;
      assert (Escape(v) + rest)[0] == w[0];
      OnlyEmptyBeforeBrace(v, rest);
      EscapeStarts("");
      assert Escape("") + rest == rest;
      ShownOpens(names, order, env, tokens[1..], empty + {n});
  }

  lemma {:induction false} FiringHasTrap(names: set<string>, order: seq<string>, env: Env, tokens: seq<Token>)
    requires IsOrder(order, names) && env.inputs.Keys == names && Known(tokens, order)
    requires Contains(ShowAll(tokens, env), UNRESOLVED)
    ensures HasTrap(tokens)
    decreases |tokens|
  {
    hide Value, VariableNames, IsOrder, Escape, Known, Opens, Contains, Show;
    if tokens == [] {
      NothingContains();
    } else {
      KnownTail(tokens, order);
      var rest := ShowAll(tokens[1..], env);
      match tokens[0]
      case Char(c) =>
        ShowChar(c, env);
        ContainsAfterChar(c, rest);
        if Contains(rest, UNRESOLVED) {
          FiringHasTrap(names, order, env, tokens[1..]);
        } else {
          ShownOpens(names, order, env, tokens[1..], {});
        }
      case Slot(n) =>
        KnownIsBound(names, order, env, n);
        ContainsAfterSlot(env, n, rest);
        FiringHasTrap(names, order, env, tokens[1..]);
    }
  }

  lemma NothingContains()
    ensures !Contains("", UNRESOLVED)
  {
  }

  /** A placeholder and a value with which the tokens spell w, all other variables being empty. */
  lemma {:induction false} SpelledIsShown(names: set<string>, order: seq<string>, tokens: seq<Token>, empty: set<string>, w: string)
    returns (x: string, u: string)
    requires IsOrder(order, names) && Known(tokens, order) && CanSpell(tokens, empty, w)
    requires AllUnreserved(w)
    ensures x !in empty && w <= ShowAll(tokens, EnvWith(names, x, u))
    decreases |tokens|
  {
    hide Value, VariableNames, IsOrder, Escape, Known, EnvWith;
    if w == "" {
      x := Unused(empty);
      u := "";
    } else {
      KnownTail(tokens, order);
      match tokens[0]
      case Char(c) =>
        x, u := SpelledIsShown(names, order, tokens[1..], empty, w[1..]);
        assert w == [c] + w[1..];
      case Slot(n) =>
        if n in empty {
          x, u := SpelledIsShown(names, order, tokens[1..], empty, w);
          ValueInEnvs(names, order, n, x, u);
          EscapeStarts("");
          var rest := ShowAll(tokens[1..], EnvWith(names, x, u));
          assert Escape("") + rest == rest;
        } else {
          x, u := n, w;
          ValueInEnvs(names, order, n, x, u);
          EscapeOfUnreserved(w);
        }
    }
  }

  /** Some name that is not among finitely many. */
  lemma {:induction false} Unused(names: set<string>) returns (x: string)
    ensures x !in names
  {
    x := Longer(names);
  }

  lemma {:induction false} Longer(names: set<string>) returns (x: string)
    ensures forall n :: n in names ==> |n| < |x|
  {
    if names == {} {
      x := "x";
    } else {
      var n :| n in names;
      var y := Longer(names - {n});
      x := if |y| <= |n| then n + "x" else y;
      assert forall m :: m in names ==> m == n || m in names - {n};
    }
  }

  lemma {:induction false} OpensIsShown(names: set<string>, order: seq<string>, tokens: seq<Token>, empty: set<string>)
    returns (x: string, u: string)
    requires IsOrder(order, names) && Known(tokens, order) && Opens(tokens, empty)
    ensures x !in empty && UNRESOLVED[1..] <= ShowAll(tokens, EnvWith(names, x, u))
    decreases |tokens|
  {
    hide Value, VariableNames, IsOrder, Escape, Known, EnvWith, CanSpell;
    KnownTail(tokens, order);
    match tokens[0]
    case Char(c) =>
      InputIsUnreserved();
      x, u := SpelledIsShown(names, order, tokens[1..], empty, INPUT);
      assert UNRESOLVED[1..] == ['{'] + INPUT;
    case Slot(n) =>
      x, u := OpensIsShown(names, order, tokens[1..], empty + {n});
      ValueInEnvs(names, order, n, x, u);
      EscapeStarts("");
      var rest := ShowAll(tokens[1..], EnvWith(names, x, u));
      assert Escape("") + rest == rest;
  }

  lemma {:induction false} TrapFires(names: set<string>, order: seq<string>, tokens: seq<Token>) returns (env: Env)
    requires IsOrder(order, names) && Known(tokens, order) && HasTrap(tokens)
    ensures env.inputs.Keys == names && Contains(ShowAll(tokens, env), UNRESOLVED)
    decreases |tokens|
  {
    hide Value, VariableNames, IsOrder, Escape, Known, Opens, Contains, Show;
    KnownTail(tokens, order);
    if tokens[0] == Char('$') && Opens(tokens[1..], {}) {
      var x, u := OpensIsShown(names, order, tokens[1..], {});
      env := EnvWith(names, x, u);
      ShowChar('$', env);
      ContainsAfterChar('$', ShowAll(tokens[1..], env));
    } else {
      env := TrapFires(names, order, tokens[1..]);
      var rest := ShowAll(tokens[1..], env);
      match tokens[0]
      case Char(c) =>
        ShowChar(c, env);
        ContainsAfterChar(c, rest);
      case Slot(n) =>
        KnownIsBound(names, order, env, n);
        ContainsAfterSlot(env, n, rest);
    }
  }

  ghost predicate FiresForSome(names: set<string>, order: seq<string>, s: string)
    requires IsOrder(order, names)
  {
    exists env: Env :: env.inputs.Keys == names && Contains(Substitute(env, order, s), UNRESOLVED)
  }

  /** For every template, whatever names are bound and in whatever order: some values make the check
      fire if and only if the template has a trap. */
  lemma FiresForSomeExactly(names: set<string>, order: seq<string>, s: string)
    requires IsOrder(order, names)
    ensures FiresForSome(names, order, s) <==> HasTrap(ParseIn(order, s))
  {
    hide Substitute, IsOrder, Contains, HasTrap, Value;
    ParseSlots(VariableNames(order), s);
    var tokens := ParseIn(order, s);
    if FiresForSome(names, order, s) {
      var env: Env :| env.inputs.Keys == names && Contains(Substitute(env, order, s), UNRESOLVED);
      SubstituteShows(env, order, s);
      FiringHasTrap(names, order, env, tokens);
    }
    if HasTrap(tokens) {
      var env := TrapFires(names, order, tokens);
      SubstituteShows(env, order, s);
    }
  }

  // ---------------------------------------------------------------------------------------------
  // When the check fires for all values

  lemma {:induction false} StartIsShown(tokens: seq<Token>, w: string, env: Env)
    requires StartsWith(tokens, w)
    ensures w <= ShowAll(tokens, env)
  {
    if w != "" {
      StartIsShown(tokens[1..], w[1..], env);
      assert w == [w[0]] + w[1..];
    }
  }

  lemma {:induction false} SpelledOutFires(names: set<string>, order: seq<string>, env: Env, tokens: seq<Token>)
    requires IsOrder(order, names) && env.inputs.Keys == names && Known(tokens, order) && SpelledOut(tokens)
    ensures Contains(ShowAll(tokens, env), UNRESOLVED)
    decreases |tokens|
  {
    hide Value, VariableNames, IsOrder, Escape, Known, StartsWith, Contains, Show;
    if StartsWith(tokens, UNRESOLVED) {
      StartIsShown(tokens, UNRESOLVED, env);
      PrefixIsContained(UNRESOLVED, ShowAll(tokens, env));
    } else {
      KnownTail(tokens, order);
      SpelledOutFires(names, order, env, tokens[1..]);
      var rest := ShowAll(tokens[1..], env);
      match tokens[0]
      case Char(c) =>
        ShowChar(c, env);
        ContainsAfterChar(c, rest);
      case Slot(n) =>
        KnownIsBound(names, order, env, n);
        ContainsAfterSlot(env, n, rest);
    }
  }

  lemma PrefixIsContained(sub: string, s: string)
    requires sub <= s
    ensures Contains(s, sub)
  {
  }

  lemma EscapeOfBang()
    ensures Escape("!") == "%21"
  {
    assert PercentEncode([0x21]) == "%21" by { assert [0x21 as Byte][1..] == []; }
  }

  lemma SlotShowsPercent(names: set<string>, order: seq<string>, n: string, rest: string)
    requires IsOrder(order, names) && n in VariableNames(order)
    ensures Show(Slot(n), EnvOf(names, "!")) + rest != "" && (Show(Slot(n), EnvOf(names, "!")) + rest)[0] == '%'
  {
    hide Value, VariableNames, Escape;
    ValueInEnvs(names, order, n, "", "!");
    EscapeOfBang();
  }

  /** With "!" for every value no placeholder contributes to the text. */
  lemma {:induction false} ShownStarts(names: set<string>, order: seq<string>, tokens: seq<Token>, w: string)
    requires IsOrder(order, names) && Known(tokens, order) && '%' !in w
    requires w <= ShowAll(tokens, EnvOf(names, "!"))
    ensures StartsWith(tokens, w)
    decreases |tokens|
  {
    hide Value, VariableNames, IsOrder, Escape, Known, EnvOf;
    if w != "" {
      KnownTail(tokens, order);
      var rest := ShowAll(tokens[1..], EnvOf(names, "!"));
      assert w[0] in w;
      match tokens[0]
      case Char(c) =>
        assert w[0] == ([c] + rest)[0];
        assert w[1..] <= rest by { assert ([c] + rest)[1..] == rest; }
        ShownStarts(names, order, tokens[1..], w[1..]);
      case Slot(n) =>
        SlotShowsPercent(names, order, n, rest);
    }
  }

  lemma {:induction false} FiringIsSpelledOut(names: set<string>, order: seq<string>, tokens: seq<Token>)
    requires IsOrder(order, names) && Known(tokens, order)
    requires Contains(ShowAll(tokens, EnvOf(names, "!")), UNRESOLVED)
    ensures SpelledOut(tokens)
    decreases |tokens|
  {
    hide Value, VariableNames, IsOrder, Escape, Known, StartsWith, Contains, Show;
    var env := EnvOf(names, "!");
    if tokens == [] {
      NothingContains();
    } else {
      KnownTail(tokens, order);
      var rest := ShowAll(tokens[1..], env);
      match tokens[0]
      case Char(c) =>
        ShowChar(c, env);
        ContainsAfterChar(c, rest);
        if Contains(rest, UNRESOLVED) {
          FiringIsSpelledOut(names, order, tokens[1..]);
        } else {
          assert UNRESOLVED <= ShowAll(tokens, env) by { assert UNRESOLVED == ['$'] + UNRESOLVED[1..]; }
          ShownStarts(names, order, tokens, UNRESOLVED);
        }
      case Slot(n) =>
        KnownIsBound(names, order, env, n);
        ContainsAfterSlot(env, n, rest);
        FiringIsSpelledOut(names, order, tokens[1..]);
    }
  }

  ghost predicate FiresForAll(names: set<string>, order: seq<string>, s: string)
    requires IsOrder(order, names)
  {
    forall env: Env :: env.inputs.Keys == names ==> Contains(Substitute(env, order, s), UNRESOLVED)
  }

  /** All values make the check fire if and only if the template spells the text out itself. */
  lemma FiresForAllExactly(names: set<string>, order: seq<string>, s: string)
    requires IsOrder(order, names)
    ensures FiresForAll(names, order, s) <==> SpelledOut(ParseIn(order, s))
  {
    hide Substitute, IsOrder, Contains, SpelledOut, Value;
    ParseSlots(VariableNames(order), s);
    var tokens := ParseIn(order, s);
    if SpelledOut(tokens) {
      forall env: Env | env.inputs.Keys == names ensures Contains(Substitute(env, order, s), UNRESOLVED) {
        SubstituteShows(env, order, s);
        SpelledOutFires(names, order, env, tokens);
      }
    } else {
      var env := EnvOf(names, "!");
      assert env.inputs.Keys == names;
      SubstituteShows(env, order, s);
      if Contains(Substitute(env, order, s), UNRESOLVED) {
        FiringIsSpelledOut(names, order, tokens);
      }
    }
  }

  // ---------------------------------------------------------------------------------------------
  // When the check is exact

  /** The template, as its author reads it, names an input that is not bound. */
  ghost predicate NamesUnbound(s: string, names: set<string>) {
    exists t :: t in Read(s) && t.Slot? && INPUT <= t.name && t.name[|INPUT|..] !in names
  }

  /** The check fires if and only if the template names an unbound input, whatever the values. */
  ghost predicate CheckIsExact(names: set<string>, order: seq<string>, s: string)
    requires IsOrder(order, names)
  {
    forall env: Env :: env.inputs.Keys == names ==>
      (Contains(Substitute(env, order, s), UNRESOLVED) <==> NamesUnbound(s, names))
  }

  /** The exact condition, for every template, all names and every order of them. */
  lemma CheckIsExactExactly(names: set<string>, order: seq<string>, s: string)
    requires IsOrder(order, names)
    ensures CheckIsExact(names, order, s)
       <==> if NamesUnbound(s, names) then SpelledOut(ParseIn(order, s)) else !HasTrap(ParseIn(order, s))
  {
    hide Substitute, IsOrder, Contains, HasTrap, SpelledOut, NamesUnbound, ParseIn;
    FiresForSomeExactly(names, order, s);
    FiresForAllExactly(names, order, s);
  }

  /** What follows a placeholder as the author reads it. */
  lemma PrefixEndsBeforeBrace(sub: string, n: string, rest: string)
    requires sub <= n + "}" + rest && '}' !in sub
    ensures sub <= n
  {
    var t := n + "}" + rest;
    forall i | 0 <= i < |sub| ensures t[i] != '}' {
      assert t[i] == sub[i] && sub[i] in sub;
    }
    assert t[|n|] == '}';
  }

  lemma KeyStartsUnresolved(n: string, rest: string)
    ensures UNRESOLVED <= Key(n) + rest <==> INPUT <= n
  {
    var s := Key(n) + rest;
    assert s[..2] == UNRESOLVED[..2] && s[2..] == n + "}" + rest;
    assert UNRESOLVED[2..] == INPUT && UNRESOLVED == UNRESOLVED[..2] + INPUT;
    assert s == s[..2] + s[2..];
    if UNRESOLVED <= s {
      assert s[2..][..|INPUT|] == INPUT;
      PrefixEndsBeforeBrace(INPUT, n, rest);
    }
  }

  lemma ContainsAtKey(n: string, rest: string)
    requires '$' !in n
    ensures Contains(Key(n) + rest, UNRESOLVED) <==> INPUT <= n || Contains(rest, UNRESOLVED)
  {
    var s, text := Key(n) + rest, "{" + n + "}";
    KeyStartsUnresolved(n, rest);
    assert s[1..] == text + rest;
    ContainsSkipsPlain(text, rest);
  }

  predicate UnboundSlot(t: Token, names: set<string>) {
    t.Slot? && INPUT <= t.name && t.name[|INPUT|..] !in names
  }

  predicate SomeUnbound(tokens: seq<Token>, names: set<string>) {
    exists t :: t in tokens && UnboundSlot(t, names)
  }

  predicate PlainSlots(tokens: seq<Token>) {
    forall t :: t in tokens && t.Slot? ==> '$' !in t.name
  }

  lemma {:induction false} ReadIsPlain(s: string)
    ensures PlainSlots(Read(s))
    decreases |s|
  {
    hide PlacedName, Key;
    if s == "" {
    } else if PlacedName(s).Some? {
      PlacedNameIsKey(s);
      ReadIsPlain(s[|Key(PlacedName(s).value)|..]);
    } else {
      ReadIsPlain(s[1..]);
    }
  }

  lemma SlotIsUnbound(env: Env, n: string)
    ensures UnboundSlot(Slot(n), env.inputs.Keys) <==> INPUT <= n && Value(env, n).None?
  {
    if INPUT <= n {
      InputIsNoCallerName(n[|INPUT|..]);
      assert n == INPUT + n[|INPUT|..];
    }
  }

  lemma ContainsAfterRead(t: Token, env: Env, rest: string)
    requires t != Char('$') && (t.Slot? ==> '$' !in t.name)
    ensures Contains(Show(t, env) + rest, UNRESOLVED) <==> UnboundSlot(t, env.inputs.Keys) || Contains(rest, UNRESOLVED)
  {
    hide Contains, Escape, Value, Key;
    match t
    case Char(c) => ContainsAfterChar(c, rest);
    case Slot(n) =>
      SlotIsUnbound(env, n);
      if Value(env, n).Some? {
        ContainsAfterSlot(env, n, rest);
      } else {
        ContainsAtKey(n, rest);
      }
  }

  /** An unbound input placeholder puts the text into what is shown; nothing else does but a stray "$". */
  lemma {:induction false} ReadContains(tokens: seq<Token>, env: Env)
    requires PlainSlots(tokens)
    ensures SomeUnbound(tokens, env.inputs.Keys) ==> Contains(ShowAll(tokens, env), UNRESOLVED)
    ensures Char('$') !in tokens && Contains(ShowAll(tokens, env), UNRESOLVED) ==> SomeUnbound(tokens, env.inputs.Keys)
  {
    hide Contains, Show, UnboundSlot;
    if tokens == [] {
      NothingContains();
    } else {
      ReadContains(tokens[1..], env);
      var t, rest := tokens[0], ShowAll(tokens[1..], env);
      assert tokens == [t] + tokens[1..];
      if t == Char('$') {
        ShowChar('$', env);
        ContainsAfterChar('$', rest);
        CharIsBound('$', env.inputs.Keys);
      } else {
        ContainsAfterRead(t, env, rest);
      }
    }
  }

  lemma CharIsBound(c: char, names: set<string>)
    ensures !UnboundSlot(Char(c), names)
  {
  }

  lemma UnboundByToken(s: string, names: set<string>)
    ensures NamesUnbound(s, names) <==> SomeUnbound(Read(s), names)
  {
    hide Read;
    if NamesUnbound(s, names) {
      var t :| t in Read(s) && t.Slot? && INPUT <= t.name && t.name[|INPUT|..] !in names;
      assert UnboundSlot(t, names);
    }
    if SomeUnbound(Read(s), names) {
      var t :| t in Read(s) && UnboundSlot(t, names);
    }
  }

  /** Input names free of "}" and "$": the check is exact exactly when the template names an unbound
      input or has no trap. */
  lemma CheckIsExactForPlainNames(names: set<string>, order: seq<string>, s: string)
    requires IsOrder(order, names) && BraceFree(names) && DollarFree(names)
    ensures CheckIsExact(names, order, s) <==> NamesUnbound(s, names) || !HasTrap(ParseIn(order, s))
  {
    hide Substitute, IsOrder, Contains, HasTrap, SpelledOut, NamesUnbound, SomeUnbound, ParseIn, Read, BraceFree, DollarFree;
    CheckIsExactExactly(names, order, s);
    if NamesUnbound(s, names) {
      UnboundByToken(s, names);
      ReadIsPlain(s);
      forall env: Env | env.inputs.Keys == names ensures Contains(Substitute(env, order, s), UNRESOLVED) {
        SubstituteReads(env, order, s);
        ReadContains(Read(s), env);
      }
      FiresForAllExactly(names, order, s);
    }
  }

  /** For input names free of "}" the check is exact on every well-formed template. */
  lemma CheckIsExactWhenWellFormed(names: set<string>, order: seq<string>, s: string)
    requires IsOrder(order, names) && BraceFree(names) && WellFormed(s)
    ensures CheckIsExact(names, order, s)
  {
    hide Substitute, IsOrder, Contains, NamesUnbound, SomeUnbound, Read, BraceFree;
    forall env: Env | env.inputs.Keys == names
      ensures Contains(Substitute(env, order, s), UNRESOLVED) <==> NamesUnbound(s, names)
    {
      SubstituteReads(env, order, s);
      ReadIsPlain(s);
      ReadContains(Read(s), env);
      UnboundByToken(s, names);
    }
  }

  // ---------------------------------------------------------------------------------------------
  // The check at fault

  lemma PlainStart(names: seq<string>, s: string)
    requires s != "" && s[0] != '$'
    ensures FirstName(names, s).None? && PlacedName(s).None?
  {
    var found := FirstName(names, s);
    assert forall n :: Key(n)[0] == '$';
  }

  lemma {:induction false} ParsePlain(names: seq<string>, text: string, rest: string)
    requires '$' !in text
    ensures Parse(names, text + rest) == Chars(text) + Parse(names, rest)
    decreases |text|
  {
    hide FirstName, PlacedName;
    if text == "" {
      assert text + rest == rest;
    } else {
      var s := text + rest;
      assert s[0] == text[0] && text[0] in text && s[1..] == text[1..] + rest;
      ParsePlain(names, text[1..], rest);
      PlainStart(names, s);
      assert Chars(text) == [Char(text[0])] + Chars(text[1..]);
    }
  }

  lemma {:induction false} ReadPlain(text: string, rest: string)
    requires '$' !in text
    ensures Read(text + rest) == Chars(text) + Read(rest)
    decreases |text|
  {
    hide FirstName, PlacedName;
    if text == "" {
      assert text + rest == rest;
    } else {
      var s := text + rest;
      assert s[0] == text[0] && text[0] in text && s[1..] == text[1..] + rest;
      ReadPlain(text[1..], rest);
      PlainStart([], s);
      assert Chars(text) == [Char(text[0])] + Chars(text[1..]);
    }
  }

  /** A "${" that starts no placeholder, before the placeholder of a caller's variable. */
  function Broken(name: string): string {
    "$" + ("{" + Key(name))
  }

  lemma CallerNameIsPlain(name: string)
    requires name in CALLER
    ensures name != "" && name[0] != '$' && '}' !in name && '$' !in name && !(INPUT <= name)
  {
    assert "identity"[1] == 'd' && "groups"[1] == 'r' && "task"[1] == 'a' && INPUT[1] == 'n';
  }

  lemma BrokenStarts(name: string)
    requires name in CALLER
    ensures FirstName(CALLER, Broken(name)).None? && PlacedName(Broken(name)).None?
  {
    var s, key := Broken(name), Key(name);
    assert s[2..] == key && s[2] == '$';
    forall n | n in CALLER ensures !(Key(n) <= s) {
      CallerNameIsPlain(n);
      assert Key(n)[2] == n[0];
    }
    CallerNameIsPlain(name);
    var upto := "${" + name;
    assert key == upto + ['}'] + "";
    IndexOfCut(upto, "", '}');
    assert key[..|upto|] == upto && upto[0] == '$';
  }

  lemma KeyAlone(names: seq<string>, name: string)
    requires FirstName(names, Key(name)) == Some(name) && '}' !in name && '$' !in name
    ensures Parse(names, Key(name)) == [Slot(name)] && Read(Key(name)) == [Slot(name)]
  {
    hide FirstName, PlacedName;
    var key := Key(name);
    KeyIsPlaced(name, "");
    assert key + "" == key && key[|key|..] == "";
    assert Parse(names, "") == [] && Read("") == [];
  }

  lemma FirstOfCaller(name: string)
    requires name in CALLER
    ensures FirstName(CALLER, Key(name)) == Some(name)
  {
    hide FirstName;
    var found := FirstName(CALLER, Key(name));
    assert Key(name) + "" == Key(name);
    CallerNameIsPlain(name);
    CallerNameIsPlain(found.value);
    KeyThenRest(name, found.value, "");
  }

  lemma BrokenParses(name: string)
    requires name in CALLER
    ensures ParseIn([], Broken(name)) == [Char('$'), Char('{'), Slot(name)] == Read(Broken(name))
  {
    var s, key := Broken(name), Key(name);
    assert InputNames([]) == [] && VariableNames([]) == CALLER;
    CallerNameIsPlain(name);
    BrokenStarts(name);
    FirstOfCaller(name);
    KeyAlone(CALLER, name);
    hide Key, FirstName, PlacedName, InputNames;
    ParsePlain(CALLER, "{", key);
    ReadPlain("{", key);
    assert s[0] == '$' && s[1..] == "{" + key;
    assert Chars("{") == [Char('{')];
  }

  /** A stray "$" defeats the check: the template "${${task}" names no input, and yet for some values
      it fires. */
  lemma BrokenPlaceholderIsTrap(name: string)
    requires name in CALLER
    ensures IsOrder([], {}) && !NamesUnbound(Broken(name), {}) && !CheckIsExact({}, [], Broken(name))
  {
    hide Broken, ParseIn, Read, CheckIsExact;
    BrokenParses(name);
    CallerNameIsPlain(name);
    var tokens := [Char('$'), Char('{'), Slot(name)];
    assert tokens[1..] == [Char('{'), Slot(name)] && tokens[1..][1..] == [Slot(name)];
    CheckIsExactExactly({}, [], Broken(name));
  }

  /** A "}" in an input's name defeats the check too: the author names the unbound input `a`, and the
      replacer, which knows the input `a}b`, puts that one's value in the place of both. */
  lemma BraceInNameDefeatsCheck(a: string, b: string, v: string)
    requires '}' !in a && '$' !in a && '}' !in b && '$' !in b
    ensures var k := a + "}" + b;
            var env := Env("", "", "", map[k := v]);
            var s := Key(INPUT + a) + (b + "}");
            && NamesUnbound(s, {k}) && WellFormed(s) && IsOrder([k], {k})
            && Substitute(env, [k], s) == Escape(v) && !Contains(Escape(v), UNRESOLVED)
            && !CheckIsExact({k}, [k], s)
  {
    hide Contains, Escape, Key, Read, Substitute, CheckIsExact;
    var k := a + "}" + b;
    var env := Env("", "", "", map[k := v]);
    var s := Key(INPUT + a) + (b + "}");
    SwallowedPlaceholder(a, b, v);
    ReadSwallowed(a, b);
    EscapeIsEmitted(v);
    ContainsSkipsPlain(Escape(v), "");
    NothingContains();
    assert Escape(v) + "" == Escape(v);
    NotExact({k}, [k], s, env);
  }

  lemma NotExact(names: set<string>, order: seq<string>, s: string, env: Env)
    requires IsOrder(order, names) && env.inputs.Keys == names
    requires NamesUnbound(s, names) && !Contains(Substitute(env, order, s), UNRESOLVED)
    ensures !CheckIsExact(names, order, s)
  {
    hide NamesUnbound, Contains, Substitute;
  }

  lemma SwallowedPlaceholder(a: string, b: string, v: string)
    ensures var k := a + "}" + b;
            Substitute(Env("", "", "", map[k := v]), [k], Key(INPUT + a) + (b + "}")) == Escape(v)
  {
    hide Escape;
    var k := a + "}" + b;
    var env, s := Env("", "", "", map[k := v]), Key(INPUT + a) + (b + "}");
    assert s == Key(INPUT + k);
    FirstInputWins(env, [k], s);
  }

  lemma ReadSwallowed(a: string, b: string)
    requires '}' !in a && '$' !in a && '}' !in b && '$' !in b
    ensures var s := Key(INPUT + a) + (b + "}"); WellFormed(s) && NamesUnbound(s, {a + "}" + b})
  {
    hide PlacedName;
    var name, text := INPUT + a, b + "}";
    var s := Key(name) + text;
    KeyIsPlaced(name, text);
    assert s[|Key(name)|..] == text && text + "" == text;
    ReadPlain(text, "");
    assert Read(s) == [Slot(name)] + Read(text);
    assert Read(text) == Chars(text);
    InputIsNoCallerName(a);
    var k := a + "}" + b;
    assert |a| < |k|;
    assert Read(s)[0] == Slot(name);
    forall i | 0 <= i < |text| ensures Chars(text)[i] != Char('$') {
      assert text[i] in text;
    }
  }
}
