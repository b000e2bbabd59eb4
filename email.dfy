/** The placeholder substitution that `sendEmail` applies to an HTML
    template: every `{{name}}` whose name is a run of word characters is
    replaced by the variable of that name, or by nothing when the variable is
    missing or empty.
    The pass is split into a tokenizer (where the regular expression matches)
    and a filler (what each match becomes). */
module EmailTemplate {
  import opened Wrappers

  /** A character of the regex class `\w`. */
  predicate IsWordChar(c: char) {
    ('a' <= c <= 'z') || ('A' <= c <= 'Z') || ('0' <= c <= '9') || c == '_'
  }

  /** A name `\w+` can match: one or more word characters. */
  predicate IsWordName(s: string) {
    |s| > 0 && forall i :: 0 <= i < |s| ==> IsWordChar(s[i])
  }

  function PlaceholderText(name: string): string {
    "{{" + name + "}}"
  }

  /** `s` begins with the placeholder `{{name}}`. */
  predicate PlaceholderAt(s: string, name: string) {
    IsWordName(name) && PlaceholderText(name) <= s
  }

  /** Length of the longest run of word characters that starts `s`, which is
      what the greedy `\w+` takes. */
  function WordRun(s: string): (n: nat)
    ensures n <= |s|
    ensures forall i :: 0 <= i < n ==> IsWordChar(s[i])
    ensures n < |s| ==> !IsWordChar(s[n])
  {
    if s == [] || !IsWordChar(s[0]) then 0 else 1 + WordRun(s[1..])
  }

  /** The match of `{{(\w+)}}` anchored at the start of `s`, if there is one. */
  function MatchAt(s: string): (m: Option<string>)
    ensures m.Some? ==> PlaceholderAt(s, m.value)
    ensures forall name {:trigger PlaceholderAt(s, name)} :: PlaceholderAt(s, name) <==> m == Some(name)
  {
    if |s| >= 2 && s[0] == '{' && s[1] == '{' then
      var n := WordRun(s[2..]);
      if n > 0 && n + 4 <= |s| && s[n + 2] == '}' && s[n + 3] == '}' then
        var name := s[2..n + 2];
        assert forall i :: 0 <= i < n ==> name[i] == s[2..][i];
        assert s[..n + 4] == PlaceholderText(name);
        NoOtherPlaceholder(s);
        Some(name)
      else
        NoOtherPlaceholder(s);
        None
    else
      None
  }

  /** A placeholder at the start of `s` is the one the greedy run finds. */
  lemma NoOtherPlaceholder(s: string)
    requires |s| >= 2
    ensures forall name {:trigger PlaceholderAt(s, name)} :: PlaceholderAt(s, name) ==>
      WordRun(s[2..]) == |name| && s[2..|name| + 2] == name &&
      s[|name| + 2] == '}' && s[|name| + 3] == '}'
  {
    forall name | PlaceholderAt(s, name)
      ensures WordRun(s[2..]) == |name| && s[2..|name| + 2] == name
      ensures s[|name| + 2] == '}' && s[|name| + 3] == '}'
    {
      var p := PlaceholderText(name);
      assert s[..|p|] == p;
      assert forall i :: 0 <= i < |name| ==> s[2..][i] == name[i];
      assert s[2..][|name|] == '}';
      WordRunOfName(s[2..], |name|);
    }
  }

  lemma {:induction false} WordRunOfName(s: string, n: nat)
    requires n < |s| && !IsWordChar(s[n])
    requires forall i :: 0 <= i < n ==> IsWordChar(s[i])
    ensures WordRun(s) == n
  {
    if n > 0 {
      WordRunOfName(s[1..], n - 1);
    }
  }

  // ---------------------------------------------------------------------
  // Tokenizing

  /** A piece of a template: one literal character, or a matched placeholder. */
  datatype Piece = Literal(c: char) | Placeholder(name: string)

  function PieceText(p: Piece): string {
    match p
    case Literal(c) => [c]
    case Placeholder(name) => PlaceholderText(name)
  }

  /** Writes the pieces back out as template text. */
  function Unparse(ps: seq<Piece>): string {
    if ps == [] then "" else PieceText(ps[0]) + Unparse(ps[1..])
  }

  /** The left-to-right, non-overlapping matches of `/{{(\w+)}}/g`: at each
      position either a placeholder starts, and is consumed whole, or the
      character there is kept and the scan moves on by one. Reading the pieces
      back gives the template: every character outside the matches is kept,
      in its original order. */
  function Tokenize(s: string): (ps: seq<Piece>)
    ensures Unparse(ps) == s
    ensures forall p | p in ps :: p.Placeholder? ==> IsWordName(p.name)
    ensures ScanOrder(ps)
    decreases |s|
  {
    if s == [] then []
    else match MatchAt(s)
      case Some(name) =>
        assert PlaceholderAt(s, name);
        var rest := s[|name| + 4..];
        assert s == PlaceholderText(name) + rest;
        var ps := [Placeholder(name)] + Tokenize(rest);
        ScanOrderCons(Placeholder(name), Tokenize(rest), s);
        ps
      case None =>
        assert s == [s[0]] + s[1..];
        var ps := [Literal(s[0])] + Tokenize(s[1..]);
        ScanOrderCons(Literal(s[0]), Tokenize(s[1..]), s);
        ps
  }

  /** What the anchored match finds where piece `p` starts: nothing for a
      literal character, its name for a placeholder. */
  function Expected(p: Piece): Option<string> {
    match p
    case Literal(_) => None
    case Placeholder(name) => Some(name)
  }

  /** Each piece is what the anchored match decides at the point of the
      template where that piece starts: the scan is left to right and takes
      every match it meets. */
  predicate ScanOrder(ps: seq<Piece>) {
    forall k | 0 <= k < |ps| :: MatchAt(Unparse(ps[k..])) == Expected(ps[k])
  }

  /** The round trip and the scan order together determine the pieces: any
      split of the template that reads back to it and agrees with the matcher
      at every piece is the tokenizer's. */
  lemma {:induction false} TokenizeUnique(ps: seq<Piece>, s: string)
    requires Unparse(ps) == s && ScanOrder(ps)
    ensures ps == Tokenize(s)
    decreases |ps|
  {
    if ps != [] {
      var tail := ps[1..];
      assert ps[0..] == ps;
      ScanOrderTail(ps);
      TokenizeUnique(tail, Unparse(tail));
      TokenizeStep(s, ps[0], Unparse(tail));
      assert ps == [ps[0]] + tail;
    }
  }

  lemma ScanOrderTail(ps: seq<Piece>)
    requires ps != [] && ScanOrder(ps)
    ensures ScanOrder(ps[1..])
  {
    var tail := ps[1..];
    forall k | 0 <= k < |tail| ensures MatchAt(Unparse(tail[k..])) == Expected(tail[k]) {
      assert tail[k..] == ps[k + 1..];
    }
  }

  /** One step of the scan: where the matcher agrees with piece `p`, the
      tokenizer emits `p` and goes on after its text. */
  lemma TokenizeStep(s: string, p: Piece, rest: string)
    requires s == PieceText(p) + rest && MatchAt(s) == Expected(p)
    ensures Tokenize(s) == [p] + Tokenize(rest)
  {
    match p
    case Literal(c) =>
      assert s[0] == c && s[1..] == rest;
    case Placeholder(name) =>
      assert s[|name| + 4..] == rest;
  }

  lemma ScanOrderCons(p: Piece, rest: seq<Piece>, s: string)
    requires ScanOrder(rest) && Unparse([p] + rest) == s
    requires MatchAt(s) == Expected(p)
    ensures ScanOrder([p] + rest)
  {
    var ps := [p] + rest;
    forall k | 0 <= k < |ps| ensures MatchAt(Unparse(ps[k..])) == Expected(ps[k]) {
      if k > 0 {
        assert ps[k..] == rest[k - 1..];
        assert ps[k] == rest[k - 1];
      }
    }
  }

  // ---------------------------------------------------------------------
  // Rendering

  /** A variable's value, "" when it is missing: the fallback to "" changes
      only a missing variable, since an empty one is "" already. */
  function Lookup(vars: map<string, string>, name: string): (v: string)
    ensures name in vars ==> v == vars[name]
    ensures name !in vars ==> v == ""
  {
    if name in vars && vars[name] != "" then vars[name] else ""
  }

  function Fill(ps: seq<Piece>, vars: map<string, string>): string {
    if ps == [] then ""
    else
      var head := match ps[0]
        case Literal(c) => [c]
        case Placeholder(name) => Lookup(vars, name);
      head + Fill(ps[1..], vars)
  }

  /** The rendered HTML of `template` with `vars`. */
  function Render(template: string, vars: map<string, string>): (out: string)
    ensures '{' !in template ==> out == template
  {
    FillBraceFree(template, vars);
    Fill(Tokenize(template), vars)
  }

  /** Text without `{` tokenizes to literals only, which fill back to the
      text itself. */
  lemma {:induction false} FillBraceFree(s: string, vars: map<string, string>)
    ensures '{' !in s ==> Fill(Tokenize(s), vars) == s
    decreases |s|
  {
    if s != [] && '{' !in s {
      NoPlaceholderAtNonBrace(s);
      var ps := Tokenize(s);
      assert ps == [Literal(s[0])] + Tokenize(s[1..]);
      assert ps[1..] == Tokenize(s[1..]);
      assert '{' !in s[1..] by {
        forall i | 0 <= i < |s[1..]| ensures s[1..][i] != '{' {
          assert s[1..][i] == s[i + 1];
        }
      }
      FillBraceFree(s[1..], vars);
      assert s == [s[0]] + s[1..];
    }
  }

  /** A placeholder at the front is replaced by its value, and scanning goes
      on after it in the template: the inserted value is never re-scanned. */
  lemma RenderPlaceholderFirst(s: string, name: string, vars: map<string, string>)
    requires PlaceholderAt(s, name)
    ensures Render(s, vars) == Lookup(vars, name) + Render(s[|name| + 4..], vars)
  {
    assert MatchAt(s) == Some(name);
  }

  /** A character that starts no placeholder is copied and scanning goes on
      from the next one. */
  lemma RenderLiteralFirst(s: string, vars: map<string, string>)
    requires s != []
    requires forall name :: !PlaceholderAt(s, name)
    ensures Render(s, vars) == [s[0]] + Render(s[1..], vars)
  {
  }

  /** Text in which no placeholder starts anywhere comes out unchanged. */
  lemma {:induction false} RenderWithoutPlaceholders(s: string, vars: map<string, string>)
    requires forall i, name | 0 <= i <= |s| :: !PlaceholderAt(s[i..], name)
    ensures Render(s, vars) == s
  {
    if s != [] {
      assert s[0..] == s;
      RenderLiteralFirst(s, vars);
      forall i, name | 0 <= i <= |s[1..]|
        ensures !PlaceholderAt(s[1..][i..], name)
      {
        assert s[1..][i..] == s[i + 1..];
      }
      RenderWithoutPlaceholders(s[1..], vars);
    }
  }

  /** A prefix holding no `{` is copied unchanged in front of the rendering
      of the rest. */
  lemma {:induction false} RenderLiteralPrefix(prefix: string, s: string, vars: map<string, string>)
    requires '{' !in prefix
    ensures Render(prefix + s, vars) == prefix + Render(s, vars)
  {
    if prefix == [] {
      assert prefix + s == s;
    } else {
      var rest := prefix[1..] + s;
      assert Render(prefix + s, vars) == [prefix[0]] + Render(rest, vars) by {
        assert prefix + s == [prefix[0]] + rest;
        RenderConsLiteral(prefix[0], rest, vars);
      }
      assert Render(rest, vars) == prefix[1..] + Render(s, vars) by {
        RenderLiteralPrefix(prefix[1..], s, vars);
      }
      ConsConcat(prefix[0], prefix[1..], Render(s, vars));
      assert [prefix[0]] + prefix[1..] == prefix;
    }
  }

  lemma ConsConcat<T>(x: T, a: seq<T>, b: seq<T>)
    ensures [x] + (a + b) == ([x] + a) + b
  {
  }

  /** A character other than `{` in front of a text is copied through. */
  lemma RenderConsLiteral(c: char, rest: string, vars: map<string, string>)
    requires c != '{'
    ensures Render([c] + rest, vars) == [c] + Render(rest, vars)
  {
    var t := [c] + rest;
    assert t[1..] == rest;
    NoPlaceholderAtNonBrace(t);
    RenderLiteralFirst(t, vars);
  }

  /** No placeholder starts at a character other than `{`. */
  lemma NoPlaceholderAtNonBrace(t: string)
    requires t != [] && t[0] != '{'
    ensures forall name :: !PlaceholderAt(t, name)
  {
    forall name ensures !PlaceholderAt(t, name) {
      assert PlaceholderText(name)[0] == '{';
    }
  }

  /** A template that is just `{{name}}` renders as the variable's value. */
  lemma RenderSinglePlaceholder(name: string, vars: map<string, string>)
    requires IsWordName(name)
    ensures Render(PlaceholderText(name), vars) == Lookup(vars, name)
  {
    var s := PlaceholderText(name);
    RenderPlaceholderFirst(s, name, vars);
    assert s[|name| + 4..] == [];
  }

  /** A value that itself looks like a placeholder is inserted literally. */
  lemma InsertedValueNotRescanned()
    ensures Render("{{otp}}", map["otp" := "{{otp}}"]) == "{{otp}}"
  {
    assert IsWordName("otp");
    assert PlaceholderText("otp") == "{{otp}}";
    RenderSinglePlaceholder("otp", map["otp" := "{{otp}}"]);
  }

  /** `{{}}` and `{{a-b}}` are not placeholders: `\w+` needs at least one word
      character and stops at `-`. */
  lemma NonWordPlaceholdersStayLiteral(vars: map<string, string>)
    ensures Render("{{}}", vars) == "{{}}"
    ensures Render("{{a-b}}", vars) == "{{a-b}}"
  {
    NoPlaceholderIn("{{}}");
    RenderWithoutPlaceholders("{{}}", vars);
    NoPlaceholderIn("{{a-b}}");
    RenderWithoutPlaceholders("{{a-b}}", vars);
  }

  /** A string in which no `{{` is followed by a word run closed by `}}`. */
  lemma NoPlaceholderIn(s: string)
    requires s == "{{}}" || s == "{{a-b}}"
    ensures forall i, name | 0 <= i <= |s| :: !PlaceholderAt(s[i..], name)
  {
    NoOtherPlaceholder(s);
    assert s[2..][1..] == s[3..];
    assert WordRun(s[2..]) == 0 || (WordRun(s[2..]) == 1 && s[3] == '-');
  }
}
