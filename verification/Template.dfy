/** The templates of values_url: substituteURL and the check for unresolved parameters. */
module Template {
  import opened Text
  import opened QueryEscape

  // ---------------------------------------------------------------------------------------------
  // strings.NewReplacer

  datatype Pair = Pair(key: string, text: string)

  /** The first pair, in argument order, whose key starts s. */
  function FirstMatch(pairs: seq<Pair>, s: string): (found: Option<Pair>)
    ensures found.Some? ==> found.value in pairs && found.value.key <= s
    ensures found.None? ==> forall p :: p in pairs ==> !(p.key <= s)
  {
    if pairs == [] then None
    else if pairs[0].key <= s then Some(pairs[0])
    else FirstMatch(pairs[1..], s)
  }

  predicate StartWithDollar(pairs: seq<Pair>) {
    forall p :: p in pairs ==> p.key != "" && p.key[0] == '$'
  }

  /** One pass from left to right; replaced text is not looked at again. */
  function Replace(pairs: seq<Pair>, s: string): string
    requires StartWithDollar(pairs)
    decreases |s|
  {
    if s == "" then ""
    else match FirstMatch(pairs, s)
      case Some(p) => p.text + Replace(pairs, s[|p.key|..])
      case None => [s[0]] + Replace(pairs, s[1..])
  }

  lemma {:induction false} ReplaceKeepsText(pairs: seq<Pair>, text: string, rest: string)
    requires StartWithDollar(pairs) && '$' !in text
    ensures Replace(pairs, text + rest) == text + Replace(pairs, rest)
  {
    if text == "" {
      assert text + rest == rest;
    } else {
      var s := text + rest;
      assert s[0] == text[0] && text[0] in text;
      assert s[1..] == text[1..] + rest;
      ReplaceKeepsText(pairs, text[1..], rest);
      assert FirstMatch(pairs, s).None?;
      assert text == [text[0]] + text[1..];
    }
  }

  // ---------------------------------------------------------------------------------------------
  // substituteURL

  /** What a template can mention: the caller, its task and the inputs bound so far. */
  datatype Env = Env(identity: string, groups: string, task: string, inputs: map<string, string>)

  const INPUT := "input."

  function Key(name: string): (key: string)
    ensures |key| == |name| + 3
  {
    "${" + name + "}"
  }

  /** The variable that "${name}" stands for, if it is bound. */
  function Value(env: Env, name: string): Option<string> {
    if name == "identity" then Some(env.identity)
    else if name == "groups" then Some(env.groups)
    else if name == "task" then Some(env.task)
    else if INPUT <= name && name[|INPUT|..] in env.inputs then Some(env.inputs[name[|INPUT|..]])
    else None
  }

  ghost predicate IsOrder(order: seq<string>, names: set<string>) {
    && (forall k :: k in order <==> k in names)
    && (forall i, j :: 0 <= i < j < |order| ==> order[i] != order[j])
  }

  function InputPairs(inputs: map<string, string>, order: seq<string>): seq<Pair>
    requires forall k :: k in order ==> k in inputs
  {
    if order == [] then []
    else [Pair(Key(INPUT + order[0]), Escape(inputs[order[0]]))] + InputPairs(inputs, order[1..])
  }

  function CallerPairs(env: Env): seq<Pair> {
    [Pair(Key("identity"), Escape(env.identity)),
     Pair(Key("groups"), Escape(env.groups)),
     Pair(Key("task"), Escape(env.task))]
  }

  /** The replacer's arguments when the map of inputs is visited in the given order. */
  function Pairs(env: Env, order: seq<string>): seq<Pair>
    requires forall k :: k in order ==> k in env.inputs
  {
    CallerPairs(env) + InputPairs(env.inputs, order)
  }

  function PairOf(env: Env, name: string): Pair
    requires Value(env, name).Some?
  {
    Pair(Key(name), Escape(Value(env, name).value))
  }

  lemma InputIsNoCallerName(k: string)
    ensures INPUT + k != "identity" && INPUT + k != "groups" && INPUT + k != "task"
    ensures INPUT <= INPUT + k && (INPUT + k)[|INPUT|..] == k
  {
    assert (INPUT + k)[1] == 'n' && "identity"[1] == 'd' && "groups"[1] == 'r' && "task"[1] == 'a';
  }

  lemma {:induction false} InputPairsAre(env: Env, order: seq<string>)
    requires forall k :: k in order ==> k in env.inputs
    ensures forall p :: p in InputPairs(env.inputs, order) ==>
              exists k :: k in order && Value(env, INPUT + k).Some? && p == PairOf(env, INPUT + k)
    ensures forall k :: k in order ==>
              Value(env, INPUT + k).Some? && PairOf(env, INPUT + k) in InputPairs(env.inputs, order)
  {
    if order != [] {
      InputPairsAre(env, order[1..]);
      InputIsNoCallerName(order[0]);
      assert PairOf(env, INPUT + order[0]) == InputPairs(env.inputs, order)[0];
      assert order == [order[0]] + order[1..];
    }
  }

  lemma CallerPairsAre(env: Env)
    ensures forall n :: n in ["identity", "groups", "task"] ==>
              Value(env, n).Some? && PairOf(env, n) in CallerPairs(env)
    ensures CallerPairs(env) == [PairOf(env, "identity"), PairOf(env, "groups"), PairOf(env, "task")]
  {
    hide Escape;
    assert CallerPairs(env)[0] == PairOf(env, "identity");
    assert CallerPairs(env)[1] == PairOf(env, "groups");
    assert CallerPairs(env)[2] == PairOf(env, "task");
  }

  lemma ValueCases(env: Env, n: string)
    requires Value(env, n).Some?
    ensures n in ["identity", "groups", "task"] || (INPUT <= n && n[|INPUT|..] in env.inputs)
    ensures INPUT <= n ==> n == INPUT + n[|INPUT|..]
  {
  }

  /** Every bound variable has its pair, whatever the order. */
  lemma BoundHasPair(env: Env, order: seq<string>, n: string)
    requires IsOrder(order, env.inputs.Keys) && Value(env, n).Some?
    ensures PairOf(env, n) in Pairs(env, order)
  {
    hide Value, PairOf, Escape, CallerPairs, InputPairs;
    ValueCases(env, n);
    CallerPairsAre(env);
    InputPairsAre(env, order);
  }

  /** Every pair is that of a bound variable. */
  lemma PairIsBound(env: Env, order: seq<string>, p: Pair) returns (n: string)
    requires IsOrder(order, env.inputs.Keys) && p in Pairs(env, order)
    ensures Value(env, n).Some? && p == PairOf(env, n)
  {
    hide Value, PairOf, Escape, CallerPairs, InputPairs;
    CallerPairsAre(env);
    InputPairsAre(env, order);
    if p in CallerPairs(env) {
      n :| n in ["identity", "groups", "task"] && p == PairOf(env, n);
    } else {
      var k :| k in order && Value(env, INPUT + k).Some? && p == PairOf(env, INPUT + k);
      n := INPUT + k;
    }
  }

  lemma KeysStartWithDollar(env: Env, order: seq<string>)
    requires IsOrder(order, env.inputs.Keys)
    ensures StartWithDollar(Pairs(env, order))
  {
    forall p | p in Pairs(env, order) ensures p.key != "" && p.key[0] == '$' {
      var n := PairIsBound(env, order, p);
    }
  }

  function Substitute(env: Env, order: seq<string>, template: string): string
    requires IsOrder(order, env.inputs.Keys)
  {
    KeysStartWithDollar(env, order);
    Replace(Pairs(env, order), template)
  }

  lemma {:induction false} InputPairsGrow(inputs: map<string, string>, order: seq<string>, k: string)
    requires k in inputs && forall x :: x in order ==> x in inputs
    ensures InputPairs(inputs, order + [k]) == InputPairs(inputs, order) + [Pair(Key(INPUT + k), Escape(inputs[k]))]
  {
    if order == [] {
    } else {
      InputPairsGrow(inputs, order[1..], k);
      assert (order + [k])[1..] == order[1..] + [k];
    }
  }

  /** substituteURL: the map of inputs is visited in an order that nobody controls. */
  method SubstituteURL(env: Env, template: string) returns (url: string)
    ensures exists order :: IsOrder(order, env.inputs.Keys) && url == Substitute(env, order, template)
  {
    hide Escape;
    var pairs := CallerPairs(env);
    var remaining := env.inputs.Keys;
    ghost var order := [];
    while remaining != {}
      invariant remaining <= env.inputs.Keys
      invariant IsOrder(order, env.inputs.Keys - remaining)
      invariant pairs == CallerPairs(env) + InputPairs(env.inputs, order)
      decreases |remaining|
    {
      var k :| k in remaining;
      InputPairsGrow(env.inputs, order, k);
      pairs := pairs + [Pair(Key(INPUT + k), Escape(env.inputs[k]))];
      order := order + [k];
      remaining := remaining - {k};
    }
    assert env.inputs.Keys - remaining == env.inputs.Keys;
    KeysStartWithDollar(env, order);
    url := Replace(pairs, template);
  }

  // ---------------------------------------------------------------------------------------------
  // The order of the map

  /** No input name followed by "}" starts another input name; so it is when no name has a "}". */
  ghost predicate PrefixFree(names: set<string>) {
    forall a, b :: a in names && b in names ==> !(a + "}" <= b)
  }

  lemma KeysOnOneText(n: string, m: string, s: string)
    requires Key(n) <= s && Key(m) <= s
    ensures n == m || n + "}" <= m || m + "}" <= n
  {
    var a, b := n + "}", m + "}";
    assert s[2..][..|a|] == a && s[2..][..|b|] == b;
    if |n| < |m| {
      assert a == b[..|a|] == m[..|a|];
    } else if |m| < |n| {
      assert b == a[..|b|] == n[..|b|];
    } else {
      assert n == a[..|n|] == b[..|m|] == m;
    }
  }

  lemma BoundPrefixIsInput(env: Env, n: string, m: string)
    requires Value(env, n).Some? && Value(env, m).Some? && n + "}" <= m
    ensures !PrefixFree(env.inputs.Keys)
  {
    assert forall i :: 0 <= i < |n| ==> m[i] == n[i];
    assert m[|n|] == '}';
    assert INPUT <= m;
    assert n[1] == m[1] == 'n';
    var a, b := n[|INPUT|..], m[|INPUT|..];
    assert a + "}" <= b;
  }

  /** With prefix-free names at most one bound variable matches at any place. */
  lemma MatchIsUnique(env: Env, n: string, m: string, s: string)
    requires PrefixFree(env.inputs.Keys)
    requires Value(env, n).Some? && Value(env, m).Some? && Key(n) <= s && Key(m) <= s
    ensures n == m
  {
    hide Value, PrefixFree, Key;
    if n != m {
      KeysOnOneText(n, m, s);
      if n + "}" <= m {
        BoundPrefixIsInput(env, n, m);
      } else {
        BoundPrefixIsInput(env, m, n);
      }
    }
  }

  lemma FirstMatchIsBound(env: Env, order: seq<string>, n: string, s: string)
    requires IsOrder(order, env.inputs.Keys) && PrefixFree(env.inputs.Keys)
    requires Value(env, n).Some? && Key(n) <= s
    ensures FirstMatch(Pairs(env, order), s) == Some(PairOf(env, n))
  {
    hide Value, PrefixFree, Escape, Pairs, FirstMatch, Key;
    BoundHasPair(env, order, n);
    var found := FirstMatch(Pairs(env, order), s);
    assert PairOf(env, n).key == Key(n);
    var m := PairIsBound(env, order, found.value);
    MatchIsUnique(env, n, m, s);
  }

  lemma FirstMatchIgnoresOrder(env: Env, o1: seq<string>, o2: seq<string>, s: string)
    requires IsOrder(o1, env.inputs.Keys) && IsOrder(o2, env.inputs.Keys) && PrefixFree(env.inputs.Keys)
    ensures FirstMatch(Pairs(env, o1), s) == FirstMatch(Pairs(env, o2), s)
  {
    hide Value, PrefixFree, Escape, Pairs, FirstMatch, Key;
    var found1, found2 := FirstMatch(Pairs(env, o1), s), FirstMatch(Pairs(env, o2), s);
    if found1.Some? {
      var n := PairIsBound(env, o1, found1.value);
      FirstMatchIsBound(env, o2, n, s);
    } else if found2.Some? {
      var n := PairIsBound(env, o2, found2.value);
      FirstMatchIsBound(env, o1, n, s);
    }
  }

  lemma {:induction false} ReplaceIgnoresOrder(env: Env, o1: seq<string>, o2: seq<string>, s: string)
    requires IsOrder(o1, env.inputs.Keys) && IsOrder(o2, env.inputs.Keys) && PrefixFree(env.inputs.Keys)
    ensures Substitute(env, o1, s) == Substitute(env, o2, s)
    decreases |s|
  {
    hide Value, PrefixFree, Escape, Pairs, FirstMatch, Key;
    KeysStartWithDollar(env, o1);
    KeysStartWithDollar(env, o2);
    if s != "" {
      FirstMatchIgnoresOrder(env, o1, o2, s);
      match FirstMatch(Pairs(env, o1), s)
      case Some(p) =>
        ReplaceIgnoresOrder(env, o1, o2, s[|p.key|..]);
      case None =>
        ReplaceIgnoresOrder(env, o1, o2, s[1..]);
    }
  }

  lemma {:induction false} OrderExists(names: set<string>) returns (order: seq<string>)
    ensures IsOrder(order, names)
  {
    order := [];
    if names != {} {
      var k :| k in names;
      var rest := OrderExists(names - {k});
      order := [k] + rest;
    }
  }

  lemma OrderFrom(first: string, names: set<string>) returns (order: seq<string>)
    requires first in names
    ensures IsOrder(order, names) && order[0] == first
  {
    var rest := OrderExists(names - {first});
    order := [first] + rest;
  }

  /** Two orders of clashing names give two URLs: the template is the key of the longer name. */
  lemma ClashShows(a: string, b: string, names: set<string>)
    returns (env: Env, o1: seq<string>, o2: seq<string>)
    requires a in names && b in names && a + "}" <= b
    ensures env.inputs.Keys == names && IsOrder(o1, names) && IsOrder(o2, names)
    ensures Substitute(env, o1, Key(INPUT + b)) != Substitute(env, o2, Key(INPUT + b))
  {
    env := Env("", "", "", map k | k in names :: if k == b then "" else "x");
    o1 := OrderFrom(a, names);
    o2 := OrderFrom(b, names);
    PrefixOfKey(a, b);
    EscapeOfX();
    FirstInputWins(env, o1, Key(INPUT + b));
    FirstInputWins(env, o2, Key(INPUT + b));
  }

  lemma FirstInputWins(env: Env, order: seq<string>, s: string)
    requires IsOrder(order, env.inputs.Keys) && order != []
    requires Key(INPUT + order[0]) <= s
    ensures Escape(env.inputs[order[0]]) <= Substitute(env, order, s)
    ensures s == Key(INPUT + order[0]) ==> Substitute(env, order, s) == Escape(env.inputs[order[0]])
  {
    hide Escape, FirstMatch, Pairs;
    KeysStartWithDollar(env, order);
    FirstInputMatches(env, order, s);
    var value := Escape(env.inputs[order[0]]);
    assert s[|s|..] == "" && value + "" == value;
    assert Replace(Pairs(env, order), "") == "";
  }

  lemma EscapeOfX()
    ensures Escape("x") == "x" && Escape("") == ""
  {
  }

  lemma PrefixOfKey(a: string, b: string)
    requires a + "}" <= b
    ensures Key(INPUT + a) <= Key(INPUT + b)
  {
    var c := b[|a| + 1..];
    assert b == a + "}" + c;
    assert Key(INPUT + b) == Key(INPUT + a) + c + "}";
  }

  /** The caller's keys start no input's key, so the first input in the order wins. */
  lemma FirstInputMatches(env: Env, order: seq<string>, s: string)
    requires IsOrder(order, env.inputs.Keys) && order != []
    requires Key(INPUT + order[0]) <= s
    ensures FirstMatch(Pairs(env, order), s) == Some(Pair(Key(INPUT + order[0]), Escape(env.inputs[order[0]])))
  {
    hide Escape;
    assert s[3] == Key(INPUT + order[0])[3] == 'n';
    assert Key("identity")[3] == 'd' && Key("groups")[3] == 'r' && Key("task")[3] == 'a';
    var pairs := Pairs(env, order);
    assert pairs[1..][1..][1..] == InputPairs(env.inputs, order);
    assert FirstMatch(pairs, s) == FirstMatch(pairs[1..], s);
    assert FirstMatch(pairs[1..], s) == FirstMatch(pairs[1..][1..], s);
    assert FirstMatch(pairs[1..][1..], s) == FirstMatch(pairs[1..][1..][1..], s);
  }

  ghost predicate OrderIsIrrelevant(names: set<string>) {
    forall env: Env, o1: seq<string>, o2: seq<string>, template: string ::
      env.inputs.Keys == names && IsOrder(o1, names) && IsOrder(o2, names) ==>
        Substitute(env, o1, template) == Substitute(env, o2, template)
  }

  /** Substitution is deterministic for every template and all values exactly when the input
      names are prefix-free. */
  lemma DeterministicExactlyWhenPrefixFree(names: set<string>)
    ensures OrderIsIrrelevant(names) <==> PrefixFree(names)
  {
    hide Substitute, IsOrder, Escape;
    if PrefixFree(names) {
      forall env: Env, o1: seq<string>, o2: seq<string>, template: string
        | env.inputs.Keys == names && IsOrder(o1, names) && IsOrder(o2, names)
        ensures Substitute(env, o1, template) == Substitute(env, o2, template)
      {
        ReplaceIgnoresOrder(env, o1, o2, template);
      }
    } else {
      var a, b :| a in names && b in names && a + "}" <= b;
      var env, o1, o2 := ClashShows(a, b, names);
    }
  }

  ghost predicate BraceFree(names: set<string>) {
    forall k :: k in names ==> '}' !in k
  }

  lemma BraceFreeIsPrefixFree(names: set<string>)
    requires BraceFree(names)
    ensures PrefixFree(names)
  {
    forall a, b | a in names && b in names ensures !(a + "}" <= b) {
      assert |a| < |b| ==> b[|a|] in b;
    }
  }
}
