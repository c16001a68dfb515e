/**
 Exactly when map order shows in a rendered template: when a value that is filled in names
 another variable, whose own value is not just that name again.
 */
module TemplateOrder {
  import opened Template
  import opened Wrappers

  /** All variables that rendering can reach have values made of text and tokens. */
  predicate Reached(pieces: seq<Piece>, vars: map<string, string>, vals: map<string, seq<Piece>>) {
    && Means(pieces, vars, vals)
    && forall k :: k in vals ==>
         k in vars && Plain(vals[k]) && vars[k] == Printed(vals[k]) && Means(vals[k], vars, vals)
  }

  /** No variable that the template names has a value naming one that names it back. */
  predicate OneWay(pieces: seq<Piece>, vals: map<string, seq<Piece>>) {
    forall a, b :: Name(a) in pieces && a in vals && b in vals && a != b && Name(b) in vals[a] ==> Name(a) !in vals[b]
  }

  /** Every order gives the same text. */
  ghost predicate OrderFree(tmpl: string, vars: map<string, string>) {
    forall out, out' :: IsRendering(tmpl, vars, out) && IsRendering(tmpl, vars, out') ==> out == out'
  }

  // ---- counting tokens -------------------------------------------------------------------------------

  function Count(pieces: seq<Piece>, key: string): nat {
    if pieces == [] then 0 else (if pieces[0] == Name(key) then 1 else 0) + Count(pieces[1..], key)
  }

  lemma {:induction false} CountConcat(xs: seq<Piece>, ys: seq<Piece>, key: string)
    ensures Count(xs + ys, key) == Count(xs, key) + Count(ys, key)
  {
    if xs == [] {
      assert xs + ys == ys;
    } else {
      CountConcat(xs[1..], ys, key);
      Front(xs, ys);
    }
  }

  lemma {:induction false} CountIsPresence(pieces: seq<Piece>, key: string)
    ensures Count(pieces, key) > 0 <==> Name(key) in pieces
  {
    if pieces != [] {
      CountIsPresence(pieces[1..], key);
      assert pieces == [pieces[0]] + pieces[1..];
    }
  }

  lemma CountOne(p: Piece, key: string)
    ensures Count([p], key) == if p == Name(key) then 1 else 0
  {
    assert [p][1..] == [];
  }

  lemma OneTimeMore(n: nat, d: int)
    ensures (1 + n) * d == d + n * d
  {
  }

  lemma {:induction false} CountExpanded(pieces: seq<Piece>, key: string, value: seq<Piece>, x: string)
    ensures Count(Expanded(pieces, map[key := value]), x)
         == (if x == key then 0 else Count(pieces, x)) + Count(pieces, key) * Count(value, x)
  {
    if pieces != [] {
      var p, rest := pieces[0], pieces[1..];
      var after := Expanded(rest, map[key := value]);
      CountExpanded(rest, key, value, x);
      if p == Name(key) {
        CountConcat(value, after, x);
        OneTimeMore(Count(rest, key), Count(value, x));
      } else {
        CountConcat([p], after, x);
        CountOne(p, x);
      }
    }
  }

  /** The length after a pass, in terms of what one replacement adds. */
  lemma {:induction false} LengthFilled(pieces: seq<Piece>, key: string, value: string, d: int)
    requires d == |value| - |Token(key)|
    ensures |Printed(Filled(pieces, map[key := value]))| == |Printed(pieces)| + Count(pieces, key) * d
  {
    if pieces != [] {
      var rest := pieces[1..];
      LengthFilled(rest, key, value, d);
      assert Filled(pieces, map[key := value])[1..] == Filled(rest, map[key := value]);
      OneTimeMore(Count(rest, key), d);
    }
  }

  /** As long as its own token and holding it: the token itself. */
  lemma {:induction false} OwnTokenByLength(pieces: seq<Piece>, key: string)
    requires Name(key) in pieces
    ensures |Token(key)| <= |Printed(pieces)|
    ensures |Printed(pieces)| == |Token(key)| ==> Printed(pieces) == Token(key)
  {
    var p, rest := PrintedPiece(pieces[0]), Printed(pieces[1..]);
    if pieces[0] != Name(key) {
      OwnTokenByLength(pieces[1..], key);
      assert |p| == 0 ==> p + rest == rest;
    } else {
      assert |rest| == 0 ==> p + rest == p;
    }
  }

  // ---- one pass over pieces --------------------------------------------------------------------------

  lemma {:induction false} ExpandedPrints(pieces: seq<Piece>, key: string, value: seq<Piece>)
    ensures Printed(Expanded(pieces, map[key := value])) == Printed(Filled(pieces, map[key := Printed(value)]))
  {
    if pieces != [] {
      var p, rest := pieces[0], pieces[1..];
      ExpandedPrints(rest, key, value);
      PrintedConcat(if p == Name(key) then value else [p], Expanded(rest, map[key := value]));
      PrintedOne(p);
    }
  }

  lemma PassExpands(pieces: seq<Piece>, key: string, value: seq<Piece>)
    requires Plain(pieces) && BraceFree(key)
    ensures ReplaceAll(Printed(pieces), Token(key), Printed(value)) == Printed(Expanded(pieces, map[key := value]))
  {
    PassFills(pieces, key, Printed(value));
    ExpandedPrints(pieces, key, value);
  }

  lemma {:induction false} ExpandedHolds(pieces: seq<Piece>, key: string, value: seq<Piece>, p: Piece)
    ensures p in Expanded(pieces, map[key := value])
      <==> (p in pieces && p != Name(key)) || (Name(key) in pieces && p in value)
  {
    if pieces != [] {
      ExpandedHolds(pieces[1..], key, value, p);
    }
  }

  /** A pass keeps to text and reached tokens, and keeps the tokens of every other variable. */
  lemma PassKeepsReached(pieces: seq<Piece>, vars: map<string, string>, vals: map<string, seq<Piece>>, key: string)
    returns (next: seq<Piece>)
    requires Plain(pieces) && Reached(pieces, vars, vals) && key in vars && BraceFree(key)
    ensures Plain(next) && Reached(next, vars, vals)
    ensures ReplaceAll(Printed(pieces), Token(key), vars[key]) == Printed(next)
    ensures forall a :: a != key && Name(a) in pieces ==> Name(a) in next
  {
    if key in vals {
      next := Expanded(pieces, map[key := vals[key]]);
      PassExpands(pieces, key, vals[key]);
      ExpandedIsPlain(pieces, map[key := vals[key]]);
      forall p ensures p in next <==> (p in pieces && p != Name(key)) || (Name(key) in pieces && p in vals[key]) {
        ExpandedHolds(pieces, key, vals[key], p);
      }
    } else {
      next := pieces;
      PassFills(pieces, key, vars[key]);
      OwnTokenChangesNothing(pieces, key, vars[key]);
    }
  }

  /** So does a whole list of passes. */
  lemma {:induction false} PassesKeepReached(order: seq<string>, pieces: seq<Piece>, vars: map<string, string>,
                                             vals: map<string, seq<Piece>>, a: string) returns (after: seq<Piece>)
    requires Plain(pieces) && Reached(pieces, vars, vals) && BraceFreeKeys(vars) && Name(a) in pieces
    requires forall k :: k in order ==> k in vars && k != a
    ensures Plain(after) && Reached(after, vars, vals) && Name(a) in after
    ensures RenderIn(order, Printed(pieces), vars) == Printed(after)
  {
    if order == [] {
      after := pieces;
    } else {
      var n := |order| - 1;
      var before := PassesKeepReached(order[..n], pieces, vars, vals, a);
      after := PassKeepsReached(before, vars, vals, order[n]);
    }
  }

  // ---- two last passes ---------------------------------------------------------------------------------

  /** The text after a pass for `x` and then one for `y`. */
  function TwoPasses(pieces: seq<Piece>, x: string, xs: seq<Piece>, y: string, ys: seq<Piece>): seq<Piece> {
    Expanded(Expanded(pieces, map[x := xs]), map[y := ys])
  }

  lemma PassLength(pieces: seq<Piece>, key: string, value: string, d: int)
    requires Plain(pieces) && BraceFree(key) && d == |value| - |Token(key)|
    ensures |ReplaceAll(Printed(pieces), Token(key), value)| == |Printed(pieces)| + Count(pieces, key) * d
  {
    PassFills(pieces, key, value);
    LengthFilled(pieces, key, value, d);
  }

  /** Texts that agree hold each token equally often: it shows when the token is made one longer. */
  lemma SameTextSameCount(xs: seq<Piece>, ys: seq<Piece>, key: string)
    requires Plain(xs) && Plain(ys) && BraceFree(key) && Printed(xs) == Printed(ys)
    ensures Count(xs, key) == Count(ys, key)
  {
    var longer := Token(key) + "x";
    PassLength(xs, key, longer, 1);
    PassLength(ys, key, longer, 1);
  }

  lemma CancelFactor(k: nat, x: int, y: int)
    requires k > 0 && k * x == k * y
    ensures x == y
  {
    assert k * (x - y) == 0;
  }

  /** Length after a pass for `x` and then one for `y`, in terms of the numbers that count. */
  lemma TwoPassesLength(pieces: seq<Piece>, x: string, xs: seq<Piece>, y: string, ys: seq<Piece>,
                        n: nat, m: nat, p: nat, dx: int, dy: int)
    requires x != y && n == Count(pieces, x) && m == Count(pieces, y) && p == Count(xs, y)
    requires dx == |Printed(xs)| - |Token(x)| && dy == |Printed(ys)| - |Token(y)|
    ensures |Printed(TwoPasses(pieces, x, xs, y, ys))| == |Printed(pieces)| + n * dx + (m + n * p) * dy
  {
    var one := Expanded(pieces, map[x := xs]);
    ExpandedLengthBy(pieces, x, xs, dx);
    ExpandedLengthBy(one, y, ys, dy);
    CountExpandedBy(pieces, x, xs, y, n, m, p);
  }

  lemma ExpandedLengthBy(pieces: seq<Piece>, key: string, value: seq<Piece>, d: int)
    requires d == |Printed(value)| - |Token(key)|
    ensures |Printed(Expanded(pieces, map[key := value]))| == |Printed(pieces)| + Count(pieces, key) * d
  {
    ExpandedPrints(pieces, key, value);
    LengthFilled(pieces, key, Printed(value), d);
  }

  lemma CountExpandedBy(pieces: seq<Piece>, key: string, value: seq<Piece>, x: string, n: nat, m: nat, p: nat)
    requires x != key && n == Count(pieces, key) && m == Count(pieces, x) && p == Count(value, x)
    ensures Count(Expanded(pieces, map[key := value]), x) == m + n * p
  {
    CountExpanded(pieces, key, value, x);
  }

  lemma TwoPassesPlain(pieces: seq<Piece>, x: string, xs: seq<Piece>, y: string, ys: seq<Piece>)
    requires Plain(pieces) && Plain(xs) && Plain(ys)
    ensures Plain(TwoPasses(pieces, x, xs, y, ys))
  {
    ExpandedIsPlain(pieces, map[x := xs]);
    ExpandedIsPlain(Expanded(pieces, map[x := xs]), map[y := ys]);
  }

  /** How often the text names `b` after passes for `a` and `b`, in both orders, when b's value does not name `a`. */
  lemma TwoPassesCounts(pieces: seq<Piece>, a: string, xs: seq<Piece>, b: string, ys: seq<Piece>,
                        n: nat, m: nat, p: nat, t: nat)
    requires a != b && Count(ys, a) == 0
    requires n == Count(pieces, a) && m == Count(pieces, b) && p == Count(xs, b) && t == Count(ys, b)
    ensures Count(TwoPasses(pieces, a, xs, b, ys), b) == (m + n * p) * t
    ensures Count(TwoPasses(pieces, b, ys, a, xs), b) == m * t + n * p
  {
    CountExpandedBy(pieces, a, xs, b, n, m, p);
    CountOwn(Expanded(pieces, map[a := xs]), b, ys, m + n * p, t);
    CountExpandedBy(pieces, b, ys, a, m, n, 0);
    CountOwn(pieces, b, ys, m, t);
    CountExpandedBy(Expanded(pieces, map[b := ys]), a, xs, b, n, m * t, p);
  }

  lemma CountOwn(pieces: seq<Piece>, key: string, value: seq<Piece>, n: nat, p: nat)
    requires n == Count(pieces, key) && p == Count(value, key)
    ensures Count(Expanded(pieces, map[key := value]), key) == n * p
  {
    CountExpanded(pieces, key, value, key);
  }

  lemma TwoPassesDiffer(pieces: seq<Piece>, a: string, xs: seq<Piece>, b: string, ys: seq<Piece>)
    requires Plain(pieces) && Plain(xs) && Plain(ys) && BraceFree(a) && BraceFree(b) && a != b
    requires Name(a) in pieces && Name(b) in xs && Name(a) !in ys && Printed(ys) != Token(b)
    ensures Printed(TwoPasses(pieces, a, xs, b, ys)) != Printed(TwoPasses(pieces, b, ys, a, xs))
  {
    CountIsPresence(pieces, a);
    CountIsPresence(xs, b);
    CountIsPresence(ys, a);
    CountIsPresence(ys, b);
    TwoPassesPlain(pieces, a, xs, b, ys);
    TwoPassesPlain(pieces, b, ys, a, xs);
    if Printed(TwoPasses(pieces, a, xs, b, ys)) == Printed(TwoPasses(pieces, b, ys, a, xs)) {
      SameTextSameCount(TwoPasses(pieces, a, xs, b, ys), TwoPasses(pieces, b, ys, a, xs), b);
      CountIsKept(pieces, a, xs, b, ys, Count(pieces, a), Count(pieces, b), Count(xs, b), Count(ys, b));
      LengthIsKept(pieces, a, xs, b, ys, Count(pieces, a), Count(pieces, b), Count(xs, b),
                   |Printed(xs)| - |Token(a)|, |Printed(ys)| - |Token(b)|);
      OwnTokenByLength(ys, b);
    }
  }

  /** Texts of one length: the pass for `b` replaces its token by something as long. */
  lemma LengthIsKept(pieces: seq<Piece>, a: string, xs: seq<Piece>, b: string, ys: seq<Piece>,
                     n: nat, m: nat, p: nat, da: int, db: int)
    requires a != b && Count(ys, a) == 0 && n > 0 && p > 0
    requires n == Count(pieces, a) && m == Count(pieces, b) && p == Count(xs, b)
    requires da == |Printed(xs)| - |Token(a)| && db == |Printed(ys)| - |Token(b)|
    requires |Printed(TwoPasses(pieces, a, xs, b, ys))| == |Printed(TwoPasses(pieces, b, ys, a, xs))|
    ensures db == 0
  {
    var start := |Printed(pieces)|;
    TwoPassesLength(pieces, a, xs, b, ys, n, m, p, da, db);
    TwoPassesLength(pieces, b, ys, a, xs, m, n, 0, db, da);
    EqualLengths(start, |Printed(TwoPasses(pieces, a, xs, b, ys))|, n, m, p, da, db);
  }

  lemma EqualLengths(start: int, length: int, n: nat, m: nat, p: nat, da: int, db: int)
    requires n > 0 && p > 0
    requires length == start + n * da + (m + n * p) * db
    requires length == start + m * db + (n + m * 0) * da
    ensures db == 0
  {
    Spread(m, n * p, db);
    PositiveProduct(n, p);
    CancelFactor(n * p, db, 0);
  }

  /** Equal counts: and by something that holds it once. */
  lemma CountIsKept(pieces: seq<Piece>, a: string, xs: seq<Piece>, b: string, ys: seq<Piece>,
                    n: nat, m: nat, p: nat, t: nat)
    requires a != b && Count(ys, a) == 0 && n > 0 && p > 0
    requires n == Count(pieces, a) && m == Count(pieces, b) && p == Count(xs, b) && t == Count(ys, b)
    requires Count(TwoPasses(pieces, a, xs, b, ys), b) == Count(TwoPasses(pieces, b, ys, a, xs), b)
    ensures t == 1
  {
    TwoPassesCounts(pieces, a, xs, b, ys, n, m, p, t);
    Spread(m, n * p, t);
    PositiveProduct(n, p);
    CancelFactor(n * p, t, 1);
  }

  lemma PositiveProduct(n: nat, p: nat)
    requires n > 0 && p > 0
    ensures n * p > 0
  {
  }

  lemma Spread(m: int, k: int, d: int)
    ensures (m + k) * d == m * d + k * d
  {
  }

  // ---- main results ------------------------------------------------------------------------------------

  /** The two orders that end with the given passes. */
  lemma RenderLastTwo(rest: seq<string>, x: string, y: string, tmpl: string, vars: map<string, string>)
    requires x in vars && y in vars && forall k :: k in rest ==> k in vars
    ensures RenderIn(rest + [x, y], tmpl, vars)
         == ReplaceAll(ReplaceAll(RenderIn(rest, tmpl, vars), Token(x), vars[x]), Token(y), vars[y])
  {
    var order := rest + [x, y];
    assert order[..|order| - 1] == rest + [x];
    assert (rest + [x])[..|rest|] == rest;
  }

  lemma RenderedText(rest: seq<string>, pieces: seq<Piece>, after: seq<Piece>, vars: map<string, string>,
                     vals: map<string, seq<Piece>>, x: string, y: string)
    requires BraceFreeKeys(vars) && Plain(after) && Reached(after, vars, vals) && x in vals && y in vals
    requires (forall k :: k in rest ==> k in vars) && RenderIn(rest, Printed(pieces), vars) == Printed(after)
    ensures RenderIn(rest + [x, y], Printed(pieces), vars) == Printed(TwoPasses(after, x, vals[x], y, vals[y]))
  {
    RenderLastTwo(rest, x, y, Printed(pieces), vars);
    PassExpands(after, x, vals[x]);
    ExpandedIsPlain(after, map[x := vals[x]]);
    PassExpands(Expanded(after, map[x := vals[x]]), y, vals[y]);
  }

  lemma LastTwoListed(rest: seq<string>, keys: set<string>, x: string, y: string)
    requires x in keys && y in keys && x != y && Lists(rest, keys - {x, y})
    ensures Lists(rest + [x, y], keys)
  {
    assert forall k :: k in rest + [x, y] <==> k in rest || k == x || k == y;
  }

  /** A value that names another variable makes two orders differ. */
  lemma NamingShowsOrder(pieces: seq<Piece>, vars: map<string, string>, vals: map<string, seq<Piece>>, a: string,
                         b: string)
    requires Plain(pieces) && BraceFreeKeys(vars) && Reached(pieces, vars, vals)
    requires a in vals && b in vals && a != b && Name(a) in pieces && Name(b) in vals[a] && Name(a) !in vals[b]
    requires vars[b] != Token(b)
    ensures !OrderFree(Printed(pieces), vars)
  {
    var rest := AnOrder(vars.Keys - {a, b});
    LastTwoListed(rest, vars.Keys, a, b);
    LastTwoListed(rest, vars.Keys, b, a);
    var after := PassesKeepReached(rest, pieces, vars, vals, a);
    RenderedText(rest, pieces, after, vars, vals, a, b);
    RenderedText(rest, pieces, after, vars, vals, b, a);
    TwoPassesDiffer(after, a, vals[a], b, vals[b]);
    TwoOrdersShow(rest + [a, b], rest + [b, a], Printed(pieces), vars);
  }

  lemma TwoOrdersShow(one: seq<string>, two: seq<string>, tmpl: string, vars: map<string, string>)
    requires Lists(one, vars.Keys) && Lists(two, vars.Keys) && RenderIn(one, tmpl, vars) != RenderIn(two, tmpl, vars)
    ensures !OrderFree(tmpl, vars)
  {
    var out, out' := RenderIn(one, tmpl, vars), RenderIn(two, tmpl, vars);
    assert IsRendering(tmpl, vars, out) && IsRendering(tmpl, vars, out');
  }

  /**
   For text and tokens throughout - any strings, as TemplateSplit says, that do not break off
   inside a token: map order does not show if and only if no variable that the template names
   has a value naming another variable, other than one that stands for itself. Variables that
   rendering does not reach may have any value.
   */
  lemma OrderFreeExactlyWhen(pieces: seq<Piece>, vars: map<string, string>, vals: map<string, seq<Piece>>)
    requires Plain(pieces) && BraceFreeKeys(vars) && Reached(pieces, vars, vals) && OneWay(pieces, vals)
    ensures OrderFree(Printed(pieces), vars) <==> Harmless(pieces, vars, vals)
  {
    if Harmless(pieces, vars, vals) {
      forall out, out' | IsRendering(Printed(pieces), vars, out) && IsRendering(Printed(pieces), vars, out')
        ensures out == out'
      {
        HarmlessRendering(pieces, vars, vals, out);
        HarmlessRendering(pieces, vars, vals, out');
      }
    } else {
      var p, q :| p in pieces && p.Name? && p.name in vars && p.name in vals
        && q in vals[p.name] && q.Name? && q.name in vars && q.name != p.name && vars[q.name] != Token(q.name);
      NamingShowsOrder(pieces, vars, vals, p.name, q.name);
    }
  }

  // ---- why OneWay is there -----------------------------------------------------------------------------

  lemma ExpandedFront(p: Piece, rest: seq<Piece>, vals: map<string, seq<Piece>>)
    ensures Expanded([p] + rest, vals)
      == (if p.Name? && p.name in vals then vals[p.name] else [p]) + Expanded(rest, vals)
  {
    assert ([p] + rest)[1..] == rest;
  }

  /** Four pieces that take turns. */
  lemma ExpandedTurns(p: Piece, q: Piece, vals: map<string, seq<Piece>>)
    requires p.Name? && q.Name? && p != q && p.name !in vals && q.name in vals
    ensures Expanded([p, q], vals) == [p] + vals[q.name]
    ensures Expanded([q, p], vals) == vals[q.name] + [p]
    ensures Expanded([p, q, p, q], vals) == [p] + vals[q.name] + [p] + vals[q.name]
    ensures Expanded([q, p, q, p], vals) == vals[q.name] + [p] + vals[q.name] + [p]
  {
    var v := vals[q.name];
    assert [p] == [p] + [] && [q] == [q] + [];
    ExpandedFront(p, [], vals);
    ExpandedFront(q, [], vals);
    ExpandedFront(p, [q], vals);
    ExpandedFront(q, [p], vals);
    assert [p, q] == [p] + [q] && [q, p] == [q] + [p];
    ExpandedFront(q, [p, q], vals);
    ExpandedFront(p, [q, p], vals);
    assert [q, p, q] == [q] + [p, q] && [p, q, p] == [p] + [q, p];
    ExpandedFront(p, [q, p, q], vals);
    ExpandedFront(q, [p, q, p], vals);
    assert [p, q, p, q] == [p] + [q, p, q] && [q, p, q, p] == [q] + [p, q, p];
  }

  lemma FirstThreeDiffer(order: seq<string>)
    requires forall i, j :: 0 <= i < j < |order| ==> order[i] != order[j]
    ensures |order| > 2 ==> order[0] != order[1] && order[0] != order[2] && order[1] != order[2]
    ensures |order| > 1 ==> order[0] != order[1]
  {
  }

  lemma TwoOrders(order: seq<string>, a: string, b: string)
    requires Lists(order, {a, b}) && a != b
    ensures order == [a, b] || order == [b, a]
  {
    FirstThreeDiffer(order);
    assert a in order && b in order;
    assert forall k :: 0 <= k < |order| ==> order[k] in order;
  }

  /** The text `pieces` becomes in both orders, when the two variables stand for x and y. */
  lemma TurnsAgree(p: Piece, q: Piece)
    requires p.Name? && q.Name? && p != q
    ensures var x, y, all := [p, q, p], [q, p, q], [p, q, p, q, p, q, p, q];
      TwoPasses([p, q], p.name, x, q.name, y) == all == TwoPasses([p, q], q.name, y, p.name, x)
  {
    var x, y := [p, q, p], [q, p, q];
    ExpandedTurns(p, q, map[q.name := y]);
    ExpandedTurns(q, p, map[p.name := x]);
    assert x + [q] == [p, q, p, q] == [p] + y;
  }

  /** Three tokens are more than one. */
  lemma LongerThanToken(p: Piece, q: Piece)
    requires p.Name? && q.Name?
    ensures Printed([p, q, p]) != Token(p.name)
  {
    assert [p, q, p] == [p] + [q, p] && [q, p] == [q] + [p];
    PrintedConcat([p], [q, p]);
    PrintedConcat([q], [p]);
    PrintedOne(p);
    PrintedOne(q);
  }

  lemma BothOrdersAgree(pieces: seq<Piece>, vars: map<string, string>, vals: map<string, seq<Piece>>, a: string,
                        b: string)
    requires BraceFreeKeys(vars) && Plain(pieces) && Reached(pieces, vars, vals)
    requires vars.Keys == {a, b} && a != b && a in vals && b in vals
    requires TwoPasses(pieces, a, vals[a], b, vals[b]) == TwoPasses(pieces, b, vals[b], a, vals[a])
    ensures OrderFree(Printed(pieces), vars)
  {
    assert RenderIn([], Printed(pieces), vars) == Printed(pieces);
    RenderedText([], pieces, pieces, vars, vals, a, b);
    RenderedText([], pieces, pieces, vars, vals, b, a);
    assert [] + [a, b] == [a, b] && [] + [b, a] == [b, a];
    forall out | IsRendering(Printed(pieces), vars, out)
      ensures out == Printed(TwoPasses(pieces, a, vals[a], b, vals[b]))
    {
      var order :| Lists(order, vars.Keys) && out == RenderIn(order, Printed(pieces), vars);
      TwoOrders(order, a, b);
    }
  }

  /**
   Two variables that name each other can agree in every order all the same: with a = "aba" and
   b = "bab", read as tokens, the template "ab" becomes "abababab" either way.
   */
  lemma NamingEachOtherCanAgree(a: string, b: string)
    returns (pieces: seq<Piece>, vars: map<string, string>, vals: map<string, seq<Piece>>)
    requires BraceFree(a) && BraceFree(b) && a != b
    ensures Plain(pieces) && BraceFreeKeys(vars) && Reached(pieces, vars, vals)
    ensures !Harmless(pieces, vars, vals) && OrderFree(Printed(pieces), vars)
  {
    var p, q := Name(a), Name(b);
    pieces, vals := [p, q], map[a := [p, q, p], b := [q, p, q]];
    vars := map[a := Printed(vals[a]), b := Printed(vals[b])];
    TurnsAgree(p, q);
    BothOrdersAgree(pieces, vars, vals, a, b);
    LongerThanToken(q, p);
    assert p in pieces && q in vals[a];
  }
}
