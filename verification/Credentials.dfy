/** The credential that a request presents (Middleware in internal/auth/auth.go). */
module Credentials {
  import opened Text
  import opened QueryEscape

  const MAX_TOKEN := 16384

  function Lower(c: char): char {
    if 'A' <= c <= 'Z' then c - 'A' + 'a' else c
  }

  function LowerAll(s: string): string {
    if s == "" then "" else [Lower(s[0])] + LowerAll(s[1..])
  }

  /** strings.Fields */
  function Fields(s: string): seq<string> {
    FieldsAfter("", s)
  }

  function FieldsAfter(word: string, s: string): seq<string>
    decreases |s|
  {
    if s == "" then (if word == "" then [] else [word])
    else if IsSpace(s[0]) then (if word == "" then [] else [word]) + FieldsAfter("", s[1..])
    else FieldsAfter(word + [s[0]], s[1..])
  }

  /** The credential of an Authorization header given exactly once; its length counts bytes. */
  function BearerToken(values: seq<string>): Option<string> {
    if |values| != 1 then None
    else
      var parts := Fields(values[0]);
      if |parts| != 2 || LowerAll(parts[0]) != "bearer" || |Utf8All(parts[1])| > MAX_TOKEN then None
      else Some(parts[1])
  }

  // ---- The same in terms of the header alone ----

  predicate Word(s: string) {
    s != "" && forall i :: 0 <= i < |s| ==> !IsSpace(s[i])
  }

  /** "bearer" with each letter in either case. */
  predicate IsScheme(s: string) {
    |s| == 6 && forall i :: 0 <= i < 6 ==> s[i] == "bearer"[i] || s[i] == "BEARER"[i]
  }

  /** The scheme and the token, apart from each other, with white space around them. */
  ghost predicate Presents(header: string, token: string) {
    Word(token) && |Utf8All(token)| <= 16384
    && exists before, scheme, gap, after ::
         IsScheme(scheme) && Around(before, gap, after) && header == before + scheme + gap + token + after
  }

  predicate Around(before: string, gap: string, after: string) {
    AllSpace(before) && AllSpace(gap) && gap != "" && AllSpace(after)
  }

  lemma {:induction false} FieldsOfWord(word: string, w: string, rest: string)
    requires forall i :: 0 <= i < |w| ==> !IsSpace(w[i])
    ensures FieldsAfter(word, w + rest) == FieldsAfter(word + w, rest)
    decreases |w|
  {
    hide IsSpace;
    if w == "" {
      assert w + rest == rest && word + w == word;
    } else {
      assert (w + rest)[1..] == w[1..] + rest && (w + rest)[0] == w[0];
      FieldsOfWord(word + [w[0]], w[1..], rest);
      assert word + [w[0]] + w[1..] == word + w;
    }
  }

  lemma {:induction false} FieldsOfPad(pad: string, rest: string)
    requires AllSpace(pad)
    ensures Fields(pad + rest) == Fields(rest)
  {
    hide IsSpace;
    if pad == "" {
      assert pad + rest == rest;
    } else {
      assert (pad + rest)[1..] == pad[1..] + rest && (pad + rest)[0] == pad[0];
      FieldsOfPad(pad[1..], rest);
    }
  }

  /** A word ends at white space or at the end of the text. */
  lemma FieldsOfFirst(w: string, rest: string)
    requires Word(w) && (rest == "" || IsSpace(rest[0]))
    ensures Fields(w + rest) == [w] + Fields(rest)
  {
    hide IsSpace;
    FieldsOfWord("", w, rest);
    assert "" + w == w;
    if rest != "" {
      assert Fields(rest) == FieldsAfter("", rest[1..]);
    }
  }

  lemma {:induction false} SpaceBefore(s: string) returns (pad: string, rest: string)
    ensures s == pad + rest && AllSpace(pad) && (rest == "" || !IsSpace(rest[0]))
  {
    hide IsSpace;
    pad, rest := "", s;
    if s != "" && IsSpace(s[0]) {
      pad, rest := SpaceBefore(s[1..]);
      pad := [s[0]] + pad;
    }
  }

  lemma {:induction false} WordBefore(s: string) returns (w: string, rest: string)
    ensures s == w + rest && (rest == "" || IsSpace(rest[0]))
    ensures forall i :: 0 <= i < |w| ==> !IsSpace(w[i])
    ensures s != "" && !IsSpace(s[0]) ==> w != ""
  {
    hide IsSpace;
    w, rest := "", s;
    if s != "" && !IsSpace(s[0]) {
      w, rest := WordBefore(s[1..]);
      w := [s[0]] + w;
    }
  }

  /** A text is blank, or white space, its first field and a rest. */
  lemma NextField(s: string) returns (pad: string, w: string, rest: string)
    ensures s == pad + w + rest && AllSpace(pad) && (rest == "" || IsSpace(rest[0]))
    ensures Fields(s) == if w == "" then [] else [w] + Fields(rest)
    ensures w == "" ==> rest == ""
    ensures w != "" ==> Word(w)
  {
    hide IsSpace;
    var tail;
    pad, tail := SpaceBefore(s);
    w, rest := WordBefore(tail);
    FieldsOfPad(pad, tail);
    assert s == pad + w + rest;
    if w != "" {
      FieldsOfFirst(w, rest);
    }
  }

  lemma LowerIsBearer(s: string)
    ensures LowerAll(s) == "bearer" <==> IsScheme(s)
  {
    LowerAllIs(s);
    assert "bearer" == ['b', 'e', 'a', 'r', 'e', 'r'] && "BEARER" == ['B', 'E', 'A', 'R', 'E', 'R'];
    if LowerAll(s) == "bearer" {
      forall i | 0 <= i < 6 ensures s[i] == "bearer"[i] || s[i] == "BEARER"[i] {
        assert Lower(s[i]) == "bearer"[i];
      }
    }
    if IsScheme(s) {
      forall i | 0 <= i < 6 ensures LowerAll(s)[i] == "bearer"[i] {
      }
    }
  }

  lemma {:induction false} LowerAllIs(s: string)
    ensures |LowerAll(s)| == |s| && forall i :: 0 <= i < |s| ==> LowerAll(s)[i] == Lower(s[i])
  {
    if s != "" {
      LowerAllIs(s[1..]);
    }
  }

  lemma TwoFields(before: string, scheme: string, gap: string, token: string, after: string)
    requires Word(scheme) && Word(token) && Around(before, gap, after)
    ensures Fields(before + scheme + gap + token + after) == [scheme, token]
  {
    hide IsSpace, Fields;
    var tail := gap + (token + after);
    assert before + scheme + gap + token + after == before + (scheme + tail);
    FieldsOfPad(before, scheme + tail);
    FieldsOfFirst(scheme, tail);
    FieldsOfPad(gap, token + after);
    FieldsOfFirst(token, after);
    assert after == after + "";
    FieldsOfPad(after, "");
    assert Fields("") == [] by { NoFields(); }
  }

  lemma NoFields()
    ensures Fields("") == []
  {
  }

  lemma SchemeIsWord(s: string)
    requires IsScheme(s)
    ensures Word(s)
  {
    assert "bearer" == ['b', 'e', 'a', 'r', 'e', 'r'] && "BEARER" == ['B', 'E', 'A', 'R', 'E', 'R'];
  }

  lemma SplitInTwo(header: string) returns (before: string, scheme: string, gap: string, token: string, after: string)
    requires |Fields(header)| == 2
    ensures Fields(header) == [scheme, token] && Word(token) && Around(before, gap, after)
    ensures header == before + scheme + gap + token + after
  {
    hide IsSpace, Fields;
    var rest, rest2, w, rest3;
    before, scheme, rest := NextField(header);
    gap, token, rest2 := NextField(rest);
    after, w, rest3 := NextField(rest2);
    assert Fields(header)[1..] == Fields(rest) && Fields(rest)[1..] == Fields(rest2) == [];
    assert w == "";
    assert gap != "";
  }

  /** The credential of a request: there is one exactly when there is a single Authorization header, and it
      presents that token. */
  lemma BearerTokenExactly(values: seq<string>, token: string)
    ensures BearerToken(values) == Some(token) <==> |values| == 1 && Presents(values[0], token)
  {
    hide IsSpace, Fields, Utf8All, LowerAll, IsScheme, Word, Around;
    if |values| == 1 && Presents(values[0], token) {
      var before, scheme, gap, after :|
        IsScheme(scheme) && Around(before, gap, after) && values[0] == before + scheme + gap + token + after;
      SchemeIsWord(scheme);
      TwoFields(before, scheme, gap, token, after);
      LowerIsBearer(scheme);
    }
    if BearerToken(values) == Some(token) {
      var before, scheme, gap, t, after := SplitInTwo(values[0]);
      LowerIsBearer(scheme);
    }
  }
}
