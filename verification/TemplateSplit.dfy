/**
 Taking any string apart into text and tokens, and the rendering results for strings: they
 speak of all templates and values but those whose text breaks off inside a token.
 */
module TemplateSplit {
  import opened Template
  import opened TemplateOrder
  import opened Text
  import opened Wrappers

  /** The name that ends here, at the first brace if that begins "}}". */
  function NameEnd(s: string): Option<nat> {
    if s == "" || s[0] == '{' then None
    else if s[0] == '}' then (if HasPrefix(s, "}}") then Some(0) else None)
    else
      match NameEnd(s[1..])
      case None => None
      case Some(n) => Some(n + 1)
  }

  lemma {:induction false} NameEndIsName(s: string)
    ensures NameEnd(s).Some? ==>
      var n := NameEnd(s).value; n + 2 <= |s| && BraceFree(s[..n]) && s[..n + 2] == s[..n] + "}}"
  {
    if s != "" && s[0] != '{' && s[0] != '}' {
      NameEndIsName(s[1..]);
      if NameEnd(s).Some? {
        var n := NameEnd(s[1..]).value;
        assert s[..n + 1] == [s[0]] + s[1..][..n] && s[..n + 3] == [s[0]] + s[1..][..n + 2];
      }
    }
  }

  lemma {:induction false} NameHasEnd(name: string, rest: string)
    requires BraceFree(name)
    ensures NameEnd(name + "}}" + rest) == Some(|name|)
  {
    var s := name + "}}" + rest;
    if name != "" {
      assert s[1..] == name[1..] + "}}" + rest && s[0] == name[0];
      NameHasEnd(name[1..], rest);
    } else {
      assert s[..2] == "}}";
    }
  }

  /** The token at the front, if there is one. */
  function TokenAt(s: string): Option<string>
    ensures TokenAt(s).Some? ==> BraceFree(TokenAt(s).value) && HasPrefix(s, Token(TokenAt(s).value))
  {
    if !HasPrefix(s, "{{") then None
    else
      NameEndIsName(s[2..]);
      match NameEnd(s[2..])
      case None => None
      case Some(n) =>
        assert s == "{{" + s[2..] && s[2..][..n + 2] == s[2..][..n] + "}}";
        assert s[..n + 4] == Token(s[2..][..n]);
        Some(s[2..][..n])
  }

  lemma TokenIsAt(name: string, rest: string)
    requires BraceFree(name)
    ensures TokenAt(Token(name) + rest) == Some(name)
  {
    var s := Token(name) + rest;
    assert s[2..] == name + "}}" + rest && s[..2] == "{{";
    NameHasEnd(name, rest);
    assert (name + "}}" + rest)[..|name|] == name;
  }

  /** More text in front. */
  function WithText(text: string, pieces: seq<Piece>): seq<Piece> {
    if pieces != [] && pieces[0].Text? then [Text(text + pieces[0].text)] + pieces[1..] else [Text(text)] + pieces
  }

  function Split(s: string): seq<Piece> {
    if s == "" then []
    else
      match TokenAt(s)
      case Some(name) => [Name(name)] + Split(s[|Token(name)|..])
      case None => WithText([s[0]], Split(s[1..]))
  }

  lemma WithTextPrints(text: string, pieces: seq<Piece>)
    ensures Printed(WithText(text, pieces)) == text + Printed(pieces)
  {
    if pieces != [] && pieces[0].Text? {
      Associate(text, pieces[0].text, Printed(pieces[1..]));
    }
  }

  /** Nothing is lost. */
  lemma {:induction false} SplitPrints(s: string)
    ensures Printed(Split(s)) == s
  {
    if s != "" {
      match TokenAt(s)
      case Some(name) =>
        SplitPrints(s[|Token(name)|..]);
        assert Split(s)[1..] == Split(s[|Token(name)|..]);
      case None =>
        SplitPrints(s[1..]);
        WithTextPrints([s[0]], Split(s[1..]));
    }
  }

  /** Text that opens no token goes on opening none. */
  lemma {:induction false} LongerOpensNothing(s: string, more: string)
    requires OpensNothing(s) && OpensNothing(more)
    ensures OpensNothing(s + more)
  {
    if s == "" {
      assert s + more == more;
    } else {
      LongerOpensNothing(s[1..], more);
      assert (s + more)[1..] == s[1..] + more;
      if MayOpen(s + more) {
        LongerMayOpen(s, more);
      }
    }
  }

  lemma LongerMayOpen(s: string, more: string)
    requires s != "" && MayOpen(s + more)
    ensures MayOpen(s)
  {
    if |s| > 1 {
      assert (s + more)[2..] == s[2..] + more;
      LongerMayClose(s[2..], more);
    }
  }

  lemma {:induction false} LongerMayClose(s: string, more: string)
    requires MayClose(s + more)
    ensures MayClose(s)
  {
    if s != "" && s[0] != '}' {
      assert (s + more)[1..] == s[1..] + more;
      LongerMayClose(s[1..], more);
    }
  }

  lemma WithTextTwice(more: string, text: string, pieces: seq<Piece>)
    ensures WithText(more, WithText(text, pieces)) == WithText(more + text, pieces)
  {
    if pieces != [] && pieces[0].Text? {
      Associate(more, text, pieces[0].text);
    }
  }

  lemma SplitOneChar(s: string)
    requires s != "" && TokenAt(s).None?
    ensures Split(s) == WithText([s[0]], Split(s[1..]))
  {
  }

  lemma NoTokenAtText(text: string, rest: string)
    requires OpensNothing(text) && text != ""
    ensures TokenAt(text + rest).None?
  {
    if TokenAt(text + rest).Some? {
      TokenMayOpen(text, TokenAt(text + rest).value, rest);
    }
  }

  /** What Split makes of text, followed by anything. */
  lemma {:induction false} SplitText(text: string, rest: string)
    requires OpensNothing(text) && text != ""
    ensures Split(text + rest) == WithText(text, Split(rest))
  {
    NoTokenAtText(text, rest);
    SplitOneChar(text + rest);
    assert (text + rest)[1..] == text[1..] + rest;
    if |text| == 1 {
      assert text[1..] + rest == rest && text == [text[0]];
    } else {
      SplitText(text[1..], rest);
      WithTextTwice([text[0]], text[1..], Split(rest));
      assert text == [text[0]] + text[1..];
    }
  }

  /** Split takes a string apart whenever it can be taken apart at all. */
  lemma {:induction false} SplitIsPlain(pieces: seq<Piece>)
    requires Plain(pieces)
    ensures Plain(Split(Printed(pieces)))
  {
    if pieces != [] {
      var p, rest := pieces[0], Printed(pieces[1..]);
      SplitIsPlain(pieces[1..]);
      if p.Name? {
        TokenIsAt(p.name, rest);
        assert (Token(p.name) + rest)[|Token(p.name)|..] == rest;
      } else if p.text == "" {
        assert p.text + rest == rest;
      } else {
        SplitText(p.text, rest);
        if Split(rest) != [] && Split(rest)[0].Text? {
          LongerOpensNothing(p.text, Split(rest)[0].text);
        }
      }
    }
  }

  /** No text in it breaks off where what follows could make it a token. */
  predicate Splits(s: string) {
    Plain(Split(s))
  }

  lemma SplitsExactlyWhen(s: string)
    ensures Splits(s) <==> exists pieces :: Plain(pieces) && Printed(pieces) == s
  {
    SplitPrints(s);
    forall pieces | Plain(pieces) && Printed(pieces) == s ensures Splits(s) {
      SplitIsPlain(pieces);
    }
  }

  function Values(vars: map<string, string>): map<string, seq<Piece>> {
    map k | k in vars :: Split(vars[k])
  }

  /**
   For strings: map order does not show if and only if no variable that the template names has
   a value naming another variable, other than one that stands for itself.
   */
  lemma OrderFreeForStrings(tmpl: string, vars: map<string, string>)
    requires BraceFreeKeys(vars) && Splits(tmpl) && forall k :: k in vars ==> Splits(vars[k])
    requires OneWay(Split(tmpl), Values(vars))
    ensures OrderFree(tmpl, vars) <==> Harmless(Split(tmpl), vars, Values(vars))
  {
    SplitPrints(tmpl);
    forall k | k in vars ensures Printed(Split(vars[k])) == vars[k] {
      SplitPrints(vars[k]);
    }
    OrderFreeExactlyWhen(Split(tmpl), vars, Values(vars));
  }
}
