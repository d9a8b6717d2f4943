/** Templates as lists of placeholders and characters. `Read` is how the author of a template reads
    it; `Parse` is what the replacer makes of it when it knows certain names. */
module Placeholders {
  import opened Text
  import opened QueryEscape
  import opened Template

  datatype Token = Char(c: char) | Slot(name: string)

  function Chars(text: string): seq<Token> {
    seq(|text|, i requires 0 <= i < |text| => Char(text[i]))
  }

  function Show(token: Token, env: Env): string {
    match token
    case Char(c) => [c]
    case Slot(name) => if Value(env, name).Some? then Escape(Value(env, name).value) else Key(name)
  }

  /** Each bound placeholder's escaped value, and all else as it stands. */
  function ShowAll(tokens: seq<Token>, env: Env): string {
    if tokens == [] then "" else Show(tokens[0], env) + ShowAll(tokens[1..], env)
  }

  // ---------------------------------------------------------------------------------------------
  // What the replacer makes of a template

  const CALLER := ["identity", "groups", "task"]

  /** The names that the replacer looks for, in its order. */
  function VariableNames(order: seq<string>): seq<string> {
    CALLER + InputNames(order)
  }

  function InputNames(order: seq<string>): seq<string> {
    if order == [] then [] else [INPUT + order[0]] + InputNames(order[1..])
  }

  function FirstName(names: seq<string>, s: string): (found: Option<string>)
    ensures found.Some? ==> found.value in names && Key(found.value) <= s
    ensures found.None? ==> forall n :: n in names ==> !(Key(n) <= s)
  {
    if names == [] then None
    else if Key(names[0]) <= s then Some(names[0])
    else FirstName(names[1..], s)
  }

  function Parse(names: seq<string>, s: string): seq<Token>
    decreases |s|
  {
    if s == "" then []
    else match FirstName(names, s)
      case Some(n) => [Slot(n)] + Parse(names, s[|Key(n)|..])
      case None => [Char(s[0])] + Parse(names, s[1..])
  }

  function ParseIn(order: seq<string>, s: string): seq<Token> {
    Parse(VariableNames(order), s)
  }

  predicate AllBound(env: Env, names: seq<string>) {
    forall n :: n in names ==> Value(env, n).Some?
  }

  function PairsOf(env: Env, names: seq<string>): seq<Pair>
    requires AllBound(env, names)
  {
    if names == [] then [] else [PairOf(env, names[0])] + PairsOf(env, names[1..])
  }

  lemma {:induction false} PairsOfInputs(env: Env, order: seq<string>)
    requires forall k :: k in order ==> k in env.inputs
    ensures AllBound(env, InputNames(order)) && InputPairs(env.inputs, order) == PairsOf(env, InputNames(order))
  {
    if order != [] {
      PairsOfInputs(env, order[1..]);
      InputIsNoCallerName(order[0]);
    }
  }

  lemma {:induction false} PairsOfAppend(env: Env, a: seq<string>, b: seq<string>)
    requires AllBound(env, a) && AllBound(env, b)
    ensures PairsOf(env, a + b) == PairsOf(env, a) + PairsOf(env, b)
  {
    hide PairOf, Value;
    if a == [] {
      assert a + b == b;
    } else {
      assert (a + b)[1..] == a[1..] + b;
      PairsOfAppend(env, a[1..], b);
    }
  }

  lemma PairsByName(env: Env, order: seq<string>)
    requires IsOrder(order, env.inputs.Keys)
    ensures AllBound(env, VariableNames(order)) && Pairs(env, order) == PairsOf(env, VariableNames(order))
  {
    var caller := CALLER;
    CallerPairsAre(env);
    PairsOfInputs(env, order);
    PairsOfAppend(env, caller, InputNames(order));
    hide Value, PairOf, InputNames, CallerPairs;
    assert caller[1..] == ["groups", "task"] && caller[1..][1..] == ["task"] && caller[1..][1..][1..] == [];
    assert PairsOf(env, caller[1..][1..]) == [PairOf(env, "task")];
    assert PairsOf(env, caller[1..]) == [PairOf(env, "groups"), PairOf(env, "task")];
    assert PairsOf(env, caller) == CallerPairs(env);
  }

  lemma {:induction false} FirstMatchByName(env: Env, names: seq<string>, s: string)
    requires AllBound(env, names)
    ensures FirstMatch(PairsOf(env, names), s)
         == match FirstName(names, s) case Some(n) => Some(PairOf(env, n)) case None => None
  {
    hide Value, Key, Escape;
    if names != [] {
      FirstMatchByName(env, names[1..], s);
    }
  }

  lemma {:induction false} ReplaceShows(env: Env, names: seq<string>, s: string)
    requires AllBound(env, names) && StartWithDollar(PairsOf(env, names))
    ensures Replace(PairsOf(env, names), s) == ShowAll(Parse(names, s), env)
    decreases |s|
  {
    hide Value, Key, Escape, PairsOf, StartWithDollar, FirstMatch, FirstName;
    if s != "" {
      FirstMatchByName(env, names, s);
      match FirstName(names, s)
      case Some(n) => ReplaceShows(env, names, s[|Key(n)|..]);
      case None => ReplaceShows(env, names, s[1..]);
    }
  }

  /** For every template, all names and every order: the one-pass replacement shows each token. */
  lemma SubstituteShows(env: Env, order: seq<string>, s: string)
    requires IsOrder(order, env.inputs.Keys)
    ensures Substitute(env, order, s) == ShowAll(ParseIn(order, s), env)
  {
    PairsByName(env, order);
    KeysStartWithDollar(env, order);
    ReplaceShows(env, VariableNames(order), s);
  }

  /** The placeholders of a parse are names that the replacer knows. */
  predicate SlotsAmong(tokens: seq<Token>, names: seq<string>) {
    forall t :: t in tokens && t.Slot? ==> t.name in names
  }

  lemma {:induction false} ParseSlots(names: seq<string>, s: string)
    ensures SlotsAmong(Parse(names, s), names)
    decreases |s|
  {
    hide Key;
    if s != "" {
      match FirstName(names, s)
      case Some(n) => ParseSlots(names, s[|Key(n)|..]);
      case None => ParseSlots(names, s[1..]);
    }
  }

  // ---------------------------------------------------------------------------------------------
  // Values for the names that the replacer knows

  function EnvBy(names: set<string>, values: string -> string): (env: Env)
    ensures env.inputs.Keys == names
  {
    Env(values("identity"), values("groups"), values("task"), map k | k in names :: values(INPUT + k))
  }

  lemma {:induction false} InputNamesOf(order: seq<string>, n: string)
    requires n in InputNames(order)
    ensures INPUT <= n && n[|INPUT|..] in order
  {
    if n != INPUT + order[0] {
      InputNamesOf(order[1..], n);
    } else {
      InputIsNoCallerName(order[0]);
    }
  }

  lemma ValueBy(names: set<string>, order: seq<string>, n: string, values: string -> string)
    requires IsOrder(order, names) && n in VariableNames(order)
    ensures Value(EnvBy(names, values), n) == Some(values(n))
  {
    if n in InputNames(order) {
      InputNamesOf(order, n);
      InputIsNoCallerName(n[|INPUT|..]);
      assert n == INPUT + n[|INPUT|..];
    }
  }

  predicate Known(tokens: seq<Token>, order: seq<string>) {
    SlotsAmong(tokens, VariableNames(order))
  }

  lemma KnownTail(tokens: seq<Token>, order: seq<string>)
    requires Known(tokens, order) && tokens != []
    ensures Known(tokens[1..], order)
    ensures tokens[0].Slot? ==> tokens[0].name in VariableNames(order)
  {
    hide VariableNames;
  }

  lemma KnownIsBound(names: set<string>, order: seq<string>, env: Env, n: string)
    requires IsOrder(order, names) && env.inputs.Keys == names && n in VariableNames(order)
    ensures Value(env, n).Some?
  {
    PairsByName(env, order);
  }

  lemma ShowChar(c: char, env: Env)
    ensures Show(Char(c), env) == [c]
  {
  }

  // ---------------------------------------------------------------------------------------------
  // How an author reads a template

  /** The name in a "${name}" that s starts with, if the name has neither "}" nor "$". */
  function PlacedName(s: string): Option<string> {
    if "${" <= s then
      var end := IndexOf(s[2..], '}');
      if end < |s| - 2 && '$' !in s[2..][..end] then Some(s[2..][..end]) else None
    else None
  }

  lemma PlacedNameIsKey(s: string)
    requires PlacedName(s).Some?
    ensures var n := PlacedName(s).value; Key(n) <= s && '}' !in n && '$' !in n
  {
    IndexOfFinds(s[2..], '}');
    var n := PlacedName(s).value;
    var tail := s[2..];
    assert tail == n + "}" + tail[|n| + 1..];
    assert s == s[..2] + tail;
  }

  lemma KeyIsPlaced(n: string, rest: string)
    requires '}' !in n && '$' !in n
    ensures PlacedName(Key(n) + rest) == Some(n)
  {
    var s := Key(n) + rest;
    assert s[2..] == n + ['}'] + rest;
    IndexOfCut(n, rest, '}');
    assert s[2..][..|n|] == n;
  }

  function Read(s: string): seq<Token>
    decreases |s|
  {
    if s == "" then []
    else if PlacedName(s).Some? then
      PlacedNameIsKey(s);
      [Slot(PlacedName(s).value)] + Read(s[|Key(PlacedName(s).value)|..])
    else [Char(s[0])] + Read(s[1..])
  }

  /** Every "$" starts a well-formed "${name}". */
  predicate WellFormed(s: string) {
    Char('$') !in Read(s)
  }

  predicate DollarFree(names: set<string>) {
    forall k :: k in names ==> '$' !in k
  }

  lemma BoundNameIsBraceFree(env: Env, n: string)
    requires BraceFree(env.inputs.Keys) && Value(env, n).Some?
    ensures '}' !in n
  {
    ValueCases(env, n);
    if INPUT <= n {
      assert '}' !in n[|INPUT|..] && '}' !in INPUT;
    }
  }

  lemma BoundNameIsDollarFree(env: Env, n: string)
    requires DollarFree(env.inputs.Keys) && Value(env, n).Some?
    ensures '$' !in n
  {
    ValueCases(env, n);
    if INPUT <= n {
      assert '$' !in n[|INPUT|..] && '$' !in INPUT;
    }
  }

  lemma KeyThenRest(n: string, m: string, rest: string)
    requires '}' !in n && '}' !in m && Key(m) <= Key(n) + rest
    ensures n == m
  {
    var s := Key(n) + rest;
    var tail := s[|Key(m)|..];
    assert s == Key(m) + tail;
    assert s[2..] == n + ['}'] + rest && s[2..] == m + ['}'] + tail;
    CutIsUnique(n, rest, m, tail, '}');
  }

  lemma ReplaceSlot(env: Env, order: seq<string>, n: string, rest: string)
    requires IsOrder(order, env.inputs.Keys) && BraceFree(env.inputs.Keys)
    requires '}' !in n && '$' !in n
    ensures Substitute(env, order, Key(n) + rest) == Show(Slot(n), env) + Substitute(env, order, rest)
  {
    hide Value, Escape, Pairs, FirstMatch, PrefixFree, BraceFree;
    KeysStartWithDollar(env, order);
    var s, pairs := Key(n) + rest, Pairs(env, order);
    if Value(env, n).Some? {
      BraceFreeIsPrefixFree(env.inputs.Keys);
      FirstMatchIsBound(env, order, n, s);
      assert s[|Key(n)|..] == rest;
    } else {
      var found := FirstMatch(pairs, s);
      if found.Some? {
        var m := PairIsBound(env, order, found.value);
        BoundNameIsBraceFree(env, m);
        KeyThenRest(n, m, rest);
        assert false;
      }
      var text := "{" + n + "}";
      assert s[1..] == text + rest;
      ReplaceKeepsText(pairs, text, rest);
      assert Key(n) == ['$'] + text;
    }
  }

  /** A "$" that no author takes for a placeholder is none for the replacer either. */
  lemma StrayStays(env: Env, order: seq<string>, s: string)
    requires IsOrder(order, env.inputs.Keys) && BraceFree(env.inputs.Keys)
    requires s != "" && PlacedName(s).None? && (s[0] == '$' ==> DollarFree(env.inputs.Keys))
    ensures Substitute(env, order, s) == [s[0]] + Substitute(env, order, s[1..])
  {
    hide Value, Escape, Pairs, FirstMatch, BraceFree, DollarFree;
    KeysStartWithDollar(env, order);
    var found := FirstMatch(Pairs(env, order), s);
    if found.Some? {
      var m := PairIsBound(env, order, found.value);
      BoundNameIsBraceFree(env, m);
      assert s[0] == Key(m)[0];
      BoundNameIsDollarFree(env, m);
      assert s == Key(m) + s[|Key(m)|..];
      KeyIsPlaced(m, s[|Key(m)|..]);
      assert false;
    }
  }

  /** The replacer does what the author reads, for brace-free names: on every well-formed template,
      and on every template at all when the names have no "$" either. */
  lemma {:induction false} SubstituteReads(env: Env, order: seq<string>, s: string)
    requires IsOrder(order, env.inputs.Keys) && BraceFree(env.inputs.Keys)
    requires WellFormed(s) || DollarFree(env.inputs.Keys)
    ensures Substitute(env, order, s) == ShowAll(Read(s), env)
    decreases |s|
  {
    hide Value, Escape, Pairs, FirstMatch, BraceFree, DollarFree, Key;
    KeysStartWithDollar(env, order);
    if s == "" {
    } else if PlacedName(s).Some? {
      PlacedNameIsKey(s);
      var n := PlacedName(s).value;
      var rest := s[|Key(n)|..];
      assert Read(s)[1..] == Read(rest);
      SubstituteReads(env, order, rest);
      assert s == Key(n) + rest;
      ReplaceSlot(env, order, n, rest);
    } else {
      assert Read(s) == [Char(s[0])] + Read(s[1..]);
      assert Read(s)[0] == Char(s[0]) && Read(s)[1..] == Read(s[1..]);
      SubstituteReads(env, order, s[1..]);
      StrayStays(env, order, s);
    }
  }
}
