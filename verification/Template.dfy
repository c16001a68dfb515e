/**
 Template rendering: one pass of ReplaceAll per variable, in whatever order the map is
 iterated. Templates are taken apart into `{{name}}` tokens and text in which no token begins;
 any braces that open no token are text.
 */
module Template {
  import opened Text
  import opened Wrappers

  /** `strings.ReplaceAll` for a non-empty `what`: leftmost matches, never overlapping. */
  function ReplaceAll(s: string, what: string, value: string): string
    requires what != ""
  {
    if s == "" then ""
    else if HasPrefix(s, what) then value + ReplaceAll(s[|what|..], what, value)
    else s[..1] + ReplaceAll(s[1..], what, value)
  }

  function Token(name: string): string {
    "{{" + name + "}}"
  }

  /** The passes for the variables in `order`, one after the other. */
  function RenderIn(order: seq<string>, tmpl: string, vars: map<string, string>): string
    requires forall k :: k in order ==> k in vars
  {
    if order == [] then tmpl
    else
      var last := order[|order| - 1];
      ReplaceAll(RenderIn(order[..|order| - 1], tmpl, vars), Token(last), vars[last])
  }

  /** `out` is what some iteration order makes of the template. */
  ghost predicate IsRendering(tmpl: string, vars: map<string, string>, out: string) {
    exists order :: Lists(order, vars.Keys) && out == RenderIn(order, tmpl, vars)
  }

  method Render(tmpl: string, vars: map<string, string>) returns (out: string)
    ensures IsRendering(tmpl, vars, out)
  {
    out := tmpl;
    var left := vars.Keys;
    ghost var order: seq<string> := [];
    while left != {}
      invariant left <= vars.Keys && Lists(order, vars.Keys - left)
      invariant out == RenderIn(order, tmpl, vars)
      decreases left
    {
      var key :| key in left;
      left := left - {key};
      out := ReplaceAll(out, Token(key), vars[key]);
      assert (order + [key])[..|order|] == order;
      order := order + [key];
    }
  }

  // ---- templates made of text and tokens ---------------------------------------------------------

  datatype Piece = Text(text: string) | Name(name: string)

  predicate BraceFree(s: string) {
    '{' !in s && '}' !in s
  }

  /** Reading on after "{{", a name could still end: with a "}}" that is there or is yet to come. */
  predicate MayClose(s: string) {
    s == "" || (if s[0] == '}' then |s| == 1 || s[1] == '}' else s[0] != '{' && MayClose(s[1..]))
  }

  /** A token could begin here, depending perhaps on what follows. */
  predicate MayOpen(s: string) {
    s != "" && s[0] == '{' && (|s| == 1 || (s[1] == '{' && MayClose(s[2..])))
  }

  /** No token begins in this text, whatever follows it. Braces as in `{"a": {"b": 1}}` are no token. */
  predicate OpensNothing(s: string) {
    s == "" || (!MayOpen(s) && OpensNothing(s[1..]))
  }

  predicate Plain(pieces: seq<Piece>) {
    forall p :: p in pieces ==> if p.Text? then OpensNothing(p.text) else BraceFree(p.name)
  }

  /** What one piece prints, and what it becomes. */
  function PrintedPiece(p: Piece): string {
    if p.Text? then p.text else Token(p.name)
  }

  function FilledPiece(p: Piece, vars: map<string, string>): Piece {
    if p.Name? && p.name in vars then Text(vars[p.name]) else p
  }

  function Printed(pieces: seq<Piece>): string {
    if pieces == [] then ""
    else PrintedPiece(pieces[0]) + Printed(pieces[1..])
  }

  /** Every token that names one of `vars` becomes its value, all at once. */
  function Filled(pieces: seq<Piece>, vars: map<string, string>): seq<Piece> {
    if pieces == [] then [] else [FilledPiece(pieces[0], vars)] + Filled(pieces[1..], vars)
  }

  /** The same with values that are themselves made of text and tokens. */
  function Expanded(pieces: seq<Piece>, vals: map<string, seq<Piece>>): seq<Piece> {
    if pieces == [] then []
    else
      var p := pieces[0];
      (if p.Name? && p.name in vals then vals[p.name] else [p]) + Expanded(pieces[1..], vals)
  }

  lemma {:induction false} PrintedConcat(xs: seq<Piece>, ys: seq<Piece>)
    ensures Printed(xs + ys) == Printed(xs) + Printed(ys)
  {
    if xs == [] {
      assert xs + ys == ys;
    } else {
      var p := PrintedPiece(xs[0]);
      PrintedConcat(xs[1..], ys);
      Front(xs, ys);
      assert p + (Printed(xs[1..]) + Printed(ys)) == (p + Printed(xs[1..])) + Printed(ys);
    }
  }

  lemma {:induction false} FilledConcat(xs: seq<Piece>, ys: seq<Piece>, vars: map<string, string>)
    ensures Filled(xs + ys, vars) == Filled(xs, vars) + Filled(ys, vars)
  {
    if xs == [] {
      assert xs + ys == ys;
    } else {
      var p := [FilledPiece(xs[0], vars)];
      FilledConcat(xs[1..], ys, vars);
      Front(xs, ys);
      assert p + (Filled(xs[1..], vars) + Filled(ys, vars)) == (p + Filled(xs[1..], vars)) + Filled(ys, vars);
    }
  }

  lemma PrintedOne(p: Piece)
    ensures Printed([p]) == PrintedPiece(p)
  {
    assert [p][1..] == [];
  }

  lemma FilledOne(p: Piece, vars: map<string, string>)
    ensures Filled([p], vars) == [FilledPiece(p, vars)]
  {
    assert [p][1..] == [];
  }

  lemma {:induction false} ExpandedIsPlain(pieces: seq<Piece>, vals: map<string, seq<Piece>>)
    requires Plain(pieces) && forall k :: k in vals ==> Plain(vals[k])
    ensures Plain(Expanded(pieces, vals))
  {
    if pieces != [] {
      ExpandedIsPlain(pieces[1..], vals);
    }
  }

  // ---- one pass ------------------------------------------------------------------------------------

  /** What begins with a name and "}}" could close, however much of it there is. */
  lemma {:induction false} NameMayClose(s: string, name: string, rest: string)
    requires BraceFree(name) && HasPrefix(s + rest, name + "}}")
    ensures MayClose(s)
  {
    var end := name + "}}";
    if s != "" {
      assert (s + rest)[0] == s[0] == end[0];
      if name == "" {
        assert |s| > 1 ==> (s + rest)[1] == s[1] == end[1];
      } else {
        assert (s + rest)[1..] == s[1..] + rest && end[1..] == name[1..] + "}}";
        assert end[0] == name[0];
        NameMayClose(s[1..], name[1..], rest);
      }
    }
  }

  /** And what could close does so with some name and some rest. */
  lemma {:induction false} SomeNameCloses(s: string) returns (name: string, rest: string)
    requires MayClose(s)
    ensures BraceFree(name) && HasPrefix(s + rest, name + "}}")
  {
    if s == "" {
      name, rest := "", "}}";
    } else if s[0] == '}' {
      name, rest := "", "}";
    } else {
      name, rest := SomeNameCloses(s[1..]);
      assert s + rest == [s[0]] + (s[1..] + rest);
      assert [s[0]] + name + "}}" == [s[0]] + (name + "}}");
      name := [s[0]] + name;
    }
  }

  lemma TokenMayOpen(s: string, key: string, rest: string)
    requires s != "" && BraceFree(key) && HasPrefix(s + rest, Token(key))
    ensures MayOpen(s)
  {
    assert (s + rest)[0] == s[0] == Token(key)[0];
    if |s| > 1 {
      assert (s + rest)[1] == s[1] == Token(key)[1];
      assert (s + rest)[2..] == s[2..] + rest && Token(key)[2..] == key + "}}";
      NameMayClose(s[2..], key, rest);
    }
  }

  /** MayOpen is exact: a token can begin here if and only if something that follows makes it one. */
  lemma MayOpenExactlyWhen(s: string)
    requires s != ""
    ensures MayOpen(s) <==> exists key, rest :: BraceFree(key) && HasPrefix(s + rest, Token(key))
  {
    if MayOpen(s) {
      if |s| == 1 {
        assert s + "{}}" == Token("");
        assert BraceFree("") && HasPrefix(s + "{}}", Token(""));
      } else {
        var key, rest := SomeNameCloses(s[2..]);
        assert s + rest == "{{" + (s[2..] + rest) && Token(key) == "{{" + (key + "}}");
        assert HasPrefix(s + rest, Token(key));
      }
    }
    forall key, rest | BraceFree(key) && HasPrefix(s + rest, Token(key)) ensures MayOpen(s) {
      TokenMayOpen(s, key, rest);
    }
  }

  lemma {:induction false} NoBraceOpensNothing(s: string)
    requires '{' !in s
    ensures OpensNothing(s)
  {
    if s != "" {
      NoBraceOpensNothing(s[1..]);
    }
  }

  /** Text that opens no token passes through. */
  lemma {:induction false} ReplaceSkips(head: string, rest: string, key: string, value: string)
    requires OpensNothing(head) && BraceFree(key)
    ensures ReplaceAll(head + rest, Token(key), value) == head + ReplaceAll(rest, Token(key), value)
  {
    if head == "" {
      assert head + rest == rest;
    } else {
      if HasPrefix(head + rest, Token(key)) {
        TokenMayOpen(head, key, rest);
      }
      assert (head + rest)[1..] == head[1..] + rest;
      assert head == head[..1] + head[1..] && (head + rest)[..1] == head[..1];
      ReplaceSkips(head[1..], rest, key, value);
    }
  }

  /** Nothing inside a brace-free name closes a token. */
  lemma NoBraceInside(s: string, name: string)
    requires BraceFree(name) && |name| + 2 <= |s| && s[2..|name| + 2] == name
    ensures forall i :: 2 <= i < |name| + 2 ==> s[i] != '}'
  {
    forall i | 2 <= i < |name| + 2 ensures s[i] != '}' {
      assert s[i] == s[2..|name| + 2][i - 2];
    }
  }

  lemma TokensDiffer(name: string, key: string, rest: string)
    requires BraceFree(name) && BraceFree(key) && HasPrefix(Token(name) + rest, Token(key))
    ensures name == key
  {
    var s := Token(name) + rest;
    assert s[2..|name| + 2] == name && s[|name| + 2] == '}';
    assert Token(key)[2..|key| + 2] == key && Token(key)[|key| + 2] == '}';
    assert s[..|Token(key)|] == Token(key);
    assert s[2..|key| + 2] == key && s[|key| + 2] == '}';
    NoBraceInside(s, name);
    NoBraceInside(s, key);
  }

  lemma ReplaceOtherToken(name: string, rest: string, key: string, value: string)
    requires BraceFree(name) && BraceFree(key) && name != key
    ensures ReplaceAll(Token(name) + rest, Token(key), value) == Token(name) + ReplaceAll(rest, Token(key), value)
  {
    var s, tail := Token(name) + rest, name + "}}";
    if HasPrefix(s, Token(key)) {
      TokensDiffer(name, key, rest);
    }
    assert s[1..] == "{" + (tail + rest) && s[..1] == "{";
    assert s[1..][1] == tail[0] != '{' && Token(key)[1] == '{';
    assert s[1..][1..] == tail + rest && s[1..][..1] == "{";
    NoBraceOpensNothing(tail);
    ReplaceSkips(tail, rest, key, value);
    assert Token(name) == "{" + ("{" + tail);
  }

  lemma ReplaceThisToken(rest: string, key: string, value: string)
    ensures ReplaceAll(Token(key) + rest, Token(key), value) == value + ReplaceAll(rest, Token(key), value)
  {
    assert (Token(key) + rest)[|Token(key)|..] == rest;
  }

  /** One pass fills the tokens of its variable and leaves everything else alone. */
  lemma {:induction false} PassFills(pieces: seq<Piece>, key: string, value: string)
    requires Plain(pieces) && BraceFree(key)
    ensures ReplaceAll(Printed(pieces), Token(key), value) == Printed(Filled(pieces, map[key := value]))
  {
    if pieces != [] {
      var p, rest := pieces[0], Printed(pieces[1..]);
      PassFills(pieces[1..], key, value);
      if p.Text? {
        ReplaceSkips(p.text, rest, key, value);
      } else if p.name == key {
        ReplaceThisToken(rest, key, value);
      } else {
        ReplaceOtherToken(p.name, rest, key, value);
      }
      assert Filled(pieces, map[key := value])[1..] == Filled(pieces[1..], map[key := value]);
    }
  }

  // ---- main results ----------------------------------------------------------------------------------

  /** `vals` takes the values of the variables that the pieces name apart into text and tokens. */
  predicate Means(pieces: seq<Piece>, vars: map<string, string>, vals: map<string, seq<Piece>>) {
    forall p :: p in pieces && p.Name? && p.name in vars ==>
      p.name in vals && Plain(vals[p.name]) && vars[p.name] == Printed(vals[p.name])
  }

  /** A token that a pass finds in a filled-in value, it replaces by itself. */
  predicate Harmless(pieces: seq<Piece>, vars: map<string, string>, vals: map<string, seq<Piece>>) {
    forall p, q :: p in pieces && p.Name? && p.name in vars && p.name in vals ==>
      q in vals[p.name] && q.Name? && q.name in vars && q.name != p.name ==> vars[q.name] == Token(q.name)
  }

  predicate BraceFreeKeys(vars: map<string, string>) {
    forall k :: k in vars ==> BraceFree(k)
  }

  function Restrict<V>(vars: map<string, V>, keys: seq<string>): map<string, V> {
    map k | k in keys && k in vars :: vars[k]
  }

  lemma {:induction false} OwnTokenChangesNothing(pieces: seq<Piece>, key: string, value: string)
    requires value == Token(key) || Name(key) !in pieces
    ensures Printed(Filled(pieces, map[key := value])) == Printed(pieces)
  {
    if pieces != [] {
      OwnTokenChangesNothing(pieces[1..], key, value);
      assert Filled(pieces, map[key := value])[1..] == Filled(pieces[1..], map[key := value]);
      assert pieces[0] in pieces;
    }
  }

  /** The pieces after the passes for the variables in `done`. */
  function AfterPasses(pieces: seq<Piece>, vars: map<string, string>, vals: map<string, seq<Piece>>,
                       done: seq<string>): seq<Piece> {
    Expanded(pieces, map k | k in done && k in vars && k in vals :: vals[k])
  }

  lemma {:induction false} AfterPassesPrints(pieces: seq<Piece>, vars: map<string, string>,
                                             vals: map<string, seq<Piece>>, done: seq<string>)
    requires Plain(pieces) && Means(pieces, vars, vals)
    ensures Plain(AfterPasses(pieces, vars, vals, done))
    ensures Printed(AfterPasses(pieces, vars, vals, done)) == Printed(Filled(pieces, Restrict(vars, done)))
  {
    if pieces != [] {
      var p, rest := pieces[0], pieces[1..];
      AfterPassesPrints(rest, vars, vals, done);
      var first := if p.Name? && p.name in done && p.name in vars && p.name in vals then vals[p.name] else [p];
      PrintedOne(p);
      PrintedConcat(first, AfterPasses(rest, vars, vals, done));
      assert p in pieces;
    }
  }

  /** What the passes for `done` made of one piece. */
  function DonePiece(p: Piece, vars: map<string, string>, vals: map<string, seq<Piece>>,
                     done: seq<string>): seq<Piece> {
    if p.Name? && p.name in done && p.name in vars && p.name in vals then vals[p.name] else [p]
  }

  lemma OnePieceMore(p: Piece, vars: map<string, string>, vals: map<string, seq<Piece>>, done: seq<string>, key: string)
    requires Means([p], vars, vals) && Harmless([p], vars, vals) && key in vars && key !in done
    ensures Printed(Filled(DonePiece(p, vars, vals, done), map[key := vars[key]]))
         == PrintedPiece(FilledPiece(p, Restrict(vars, done + [key])))
  {
    var fill := map[key := vars[key]];
    assert p in [p];
    if p.Name? && p.name in done && p.name in vars {
      OwnTokenChangesNothing(vals[p.name], key, vars[key]);
    } else {
      FilledOne(p, fill);
      PrintedOne(FilledPiece(p, fill));
    }
  }

  /** One more pass fills the tokens of its variable and, being harmless, changes nothing else. */
  lemma {:induction false} OneMorePass(pieces: seq<Piece>, vars: map<string, string>, vals: map<string, seq<Piece>>,
                                       done: seq<string>, key: string)
    requires Plain(pieces) && Means(pieces, vars, vals) && Harmless(pieces, vars, vals) && key in vars && key !in done
    ensures Printed(Filled(AfterPasses(pieces, vars, vals, done), map[key := vars[key]]))
         == Printed(Filled(pieces, Restrict(vars, done + [key])))
  {
    if pieces != [] {
      var p, rest, fill := pieces[0], pieces[1..], map[key := vars[key]];
      var first, after := DonePiece(p, vars, vals, done), AfterPasses(rest, vars, vals, done);
      OneMorePass(rest, vars, vals, done, key);
      assert AfterPasses(pieces, vars, vals, done) == first + after;
      FilledConcat(first, after, fill);
      PrintedConcat(Filled(first, fill), Filled(after, fill));
      OnePieceMore(p, vars, vals, done, key);
    }
  }

  /** Whatever the order: the passes made so far are one simultaneous substitution. */
  lemma {:induction false} PassesFill(order: seq<string>, pieces: seq<Piece>, vars: map<string, string>,
                                      vals: map<string, seq<Piece>>)
    requires Plain(pieces) && BraceFreeKeys(vars) && Means(pieces, vars, vals) && Harmless(pieces, vars, vals)
    requires (forall k :: k in order ==> k in vars) && forall i, j :: 0 <= i < j < |order| ==> order[i] != order[j]
    ensures RenderIn(order, Printed(pieces), vars) == Printed(Filled(pieces, Restrict(vars, order)))
  {
    if order == [] {
      FilledWithNothing(pieces);
      assert Restrict(vars, order) == map[];
    } else {
      var n := |order| - 1;
      var done, last := order[..n], order[n];
      PassesFill(done, pieces, vars, vals);
      AfterPassesPrints(pieces, vars, vals, done);
      PassFills(AfterPasses(pieces, vars, vals, done), last, vars[last]);
      OneMorePass(pieces, vars, vals, done, last);
      assert order == done + [last];
    }
  }

  lemma {:induction false} FilledWithNothing(pieces: seq<Piece>)
    ensures Filled(pieces, map[]) == pieces
  {
    if pieces != [] {
      FilledWithNothing(pieces[1..]);
    }
  }

  /**
   Rendering is one simultaneous substitution, in any order, as long as the values of the
   variables that the template names hold no token that a later pass would turn into something
   else. The values of all other variables do not matter.
   */
  lemma HarmlessRendering(pieces: seq<Piece>, vars: map<string, string>, vals: map<string, seq<Piece>>, out: string)
    requires Plain(pieces) && BraceFreeKeys(vars) && Means(pieces, vars, vals) && Harmless(pieces, vars, vals)
    ensures IsRendering(Printed(pieces), vars, out) <==> out == Printed(Filled(pieces, vars))
  {
    forall order | Lists(order, vars.Keys)
      ensures RenderIn(order, Printed(pieces), vars) == Printed(Filled(pieces, vars))
    {
      PassesFill(order, pieces, vars, vals);
      assert Restrict(vars, order) == vars;
    }
    var order := AnOrder(vars.Keys);
    assert Lists(order, vars.Keys);
  }

  /** In particular when no token begins in the values of the variables that the template names. */
  lemma RenderingIsSubstitution(pieces: seq<Piece>, vars: map<string, string>, out: string)
    requires Plain(pieces) && BraceFreeKeys(vars)
    requires forall p :: p in pieces && p.Name? && p.name in vars ==> OpensNothing(vars[p.name])
    ensures IsRendering(Printed(pieces), vars, out) <==> out == Printed(Filled(pieces, vars))
  {
    var vals := map k | k in vars && OpensNothing(vars[k]) :: [Text(vars[k])];
    forall k | k in vals ensures Printed(vals[k]) == vars[k] {
      PrintedOne(Text(vars[k]));
    }
    HarmlessRendering(pieces, vars, vals, out);
  }

  lemma AnOrder(keys: set<string>) returns (order: seq<string>)
    ensures Lists(order, keys)
  {
    if keys == {} {
      order := [];
    } else {
      var k :| k in keys;
      order := AnOrder(keys - {k});
      order := order + [k];
    }
  }

  /** Where text could become a token with what follows, here "{{" before a token, the order shows ... */
  lemma NestedBracesDependOnOrder()
    ensures var vars := map["a" := "b", "b" := "c"];
      && RenderIn(["a", "b"], "{{{{a}}}}", vars) == "c"
      && RenderIn(["b", "a"], "{{{{a}}}}", vars) == "{{b}}"
  {
    var vars := map["a" := "b", "b" := "c"];
    var s := "{{{{a}}}}";
    assert RenderIn([], s, vars) == s;
    ABecomesB();
    BBecomesC("c");
    NoBInNest();
    assert ["a", "b"][..1] == ["a"] && ["a"][..0] == [];
    assert ["b", "a"][..1] == ["b"] && ["b"][..0] == [];
    assert RenderIn(["a"], s, vars) == "{{b}}";
    assert RenderIn(["b"], s, vars) == s;
  }

  /** ... and so it does when a value, such as a file's content, holds a token. */
  lemma ValuesWithTokensDependOnOrder()
    ensures var vars := map["a" := "{{b}}", "b" := "c"];
      && RenderIn(["a", "b"], "{{a}}", vars) == "c"
      && RenderIn(["b", "a"], "{{a}}", vars) == "{{b}}"
  {
    var vars := map["a" := "{{b}}", "b" := "c"];
    assert RenderIn([], "{{a}}", vars) == "{{a}}";
    ReplaceThisToken("", "a", "{{b}}");
    assert Token("a") + "" == "{{a}}" && Token("b") + "" == "{{b}}";
    BBecomesC("c");
    ReplaceOtherToken("a", "", "b", "c");
    assert ["a", "b"][..1] == ["a"] && ["a"][..0] == [];
    assert ["b", "a"][..1] == ["b"] && ["b"][..0] == [];
    assert RenderIn(["a"], "{{a}}", vars) == "{{b}}";
    assert RenderIn(["b"], "{{a}}", vars) == "{{a}}";
  }

  lemma BBecomesC(c: string)
    ensures ReplaceAll("{{b}}", Token("b"), c) == c
  {
    ReplaceThisToken("", "b", c);
    assert Token("b") + "" == "{{b}}";
  }

  /** A brace before an opening token stays. */
  lemma KeepBrace(rest: string, key: string, value: string)
    requires 2 <= |rest| && rest[1] == '{' && key != "" && key[0] != '{'
    ensures ReplaceAll("{" + rest, Token(key), value) == "{" + ReplaceAll(rest, Token(key), value)
  {
    assert ("{" + rest)[1..] == rest && ("{" + rest)[..1] == "{";
    assert ("{" + rest)[2] == '{' && Token(key)[2] == key[0];
  }

  lemma PassOverNest(inner: string, key: string, value: string)
    requires 2 <= |inner| && inner[0] == inner[1] == '{' && key != "" && key[0] != '{'
    ensures ReplaceAll("{" + ("{" + inner), Token(key), value) == "{" + ("{" + ReplaceAll(inner, Token(key), value))
  {
    KeepBrace("{" + inner, key, value);
    KeepBrace(inner, key, value);
  }

  lemma NestIsABraceEachSide()
    ensures "{{{{a}}}}" == "{" + ("{" + (Token("a") + "}}"))
  {
  }

  lemma ABecomesB()
    ensures ReplaceAll("{{{{a}}}}", Token("a"), "b") == "{{b}}"
  {
    NestIsABraceEachSide();
    PassOverNest(Token("a") + "}}", "a", "b");
    ReplaceThisToken("}}", "a", "b");
    ReplaceSkips("}}", "", "a", "b");
    assert "}}" + "" == "}}";
  }

  lemma NoBInNest()
    ensures ReplaceAll("{{{{a}}}}", Token("b"), "c") == "{{{{a}}}}"
  {
    NestIsABraceEachSide();
    PassOverNest(Token("a") + "}}", "b", "c");
    ReplaceOtherToken("a", "}}", "b", "c");
    ReplaceSkips("}}", "", "b", "c");
    assert "}}" + "" == "}}";
  }
}
