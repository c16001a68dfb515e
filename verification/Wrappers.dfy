// Small datatypes, and facts about maps and sequences, shared by the other modules.
module Wrappers {
  datatype Option<+T> = None | Some(value: T)

  type pos = x: int | 0 < x witness 1

  function Lookup<K, V>(m: map<K, V>, k: K): Option<V> {
    if k in m then Some(m[k]) else None
  }

  /** `order` lists each element once, as an iteration over a map does. */
  predicate Lists<T(==)>(order: seq<T>, all: set<T>) {
    && (forall x :: x in order ==> x in all)
    && (forall x :: x in all ==> x in order)
    && (forall i, j :: 0 <= i < j < |order| ==> order[i] != order[j])
  }

  lemma ListsOneMore<T>(order: seq<T>, all: set<T>, x: T)
    requires Lists(order, all) && x !in all
    ensures Lists(order + [x], all + {x})
  {
    assert forall i :: 0 <= i < |order| ==> order[i] in order;
  }

  lemma Associate<T>(xs: seq<T>, ys: seq<T>, zs: seq<T>)
    ensures xs + ys + zs == xs + (ys + zs)
  {
  }

  lemma Front<T>(xs: seq<T>, ys: seq<T>)
    requires xs != []
    ensures xs + ys != [] && (xs + ys)[0] == xs[0] && (xs + ys)[1..] == xs[1..] + ys
  {
  }

  // ---- what a filtering loop yields ---------------------------------------------------------------

  /** `picks` are the positions of `xs` at which `keep` holds, in order. */
  ghost predicate Positions<T(!new)>(xs: seq<T>, keep: T -> bool, picks: seq<nat>) {
    && (forall i: nat :: i in picks <==> i < |xs| && keep(xs[i]))
    && (forall j, k :: 0 <= j < k < |picks| ==> picks[j] < picks[k])
  }

  ghost predicate ChosenAt<T(!new), U>(xs: seq<T>, keep: T -> bool, f: T -> U, r: seq<U>, picks: seq<nat>) {
    && Positions(xs, keep, picks) && |r| == |picks|
    && forall k :: 0 <= k < |picks| && picks[k] < |xs| ==> r[k] == f(xs[picks[k]])
  }

  /** `r` holds the `f` of every element with `keep`, once for each position and in order, and nothing else. */
  ghost predicate Chosen<T(!new), U>(xs: seq<T>, keep: T -> bool, f: T -> U, r: seq<U>) {
    exists picks: seq<nat> :: ChosenAt(xs, keep, f, r, picks)
  }

  lemma ChosenNone<T(!new), U>(keep: T -> bool, f: T -> U)
    ensures Chosen([], keep, f, [])
  {
    var none: seq<nat> := [];
    assert ChosenAt([], keep, f, [], none);
  }

  lemma PositionIsInside<T(!new)>(xs: seq<T>, keep: T -> bool, picks: seq<nat>, k: nat)
    requires Positions(xs, keep, picks) && k < |picks|
    ensures picks[k] < |xs| && keep(xs[picks[k]])
  {
    var i: nat := picks[k];
    assert i in picks;
  }

  /** The last element of a longer list has its position added, or has none. */
  lemma PositionsOneMore<T(!new)>(xs: seq<T>, x: T, keep: T -> bool, picks: seq<nat>)
    requires Positions(xs, keep, picks)
    ensures !keep(x) ==> Positions(xs + [x], keep, picks)
    ensures keep(x) ==> Positions(xs + [x], keep, picks + [|xs|])
    ensures forall k: nat :: k < |picks| ==> picks[k] < |xs|
  {
    forall k: nat | k < |picks| ensures picks[k] < |xs| {
      PositionIsInside(xs, keep, picks, k);
    }
    forall i: nat ensures i < |xs + [x]| && keep((xs + [x])[i]) <==> i in picks || (keep(x) && i == |xs|) {
      assert i in picks <==> i < |xs| && keep(xs[i]);
    }
  }

  lemma ChosenOneMore<T(!new), U>(xs: seq<T>, x: T, keep: T -> bool, f: T -> U, r: seq<U>)
    requires Chosen(xs, keep, f, r)
    ensures Chosen(xs + [x], keep, f, if keep(x) then r + [f(x)] else r)
  {
    var picks: seq<nat> :| ChosenAt(xs, keep, f, r, picks);
    PositionsOneMore(xs, x, keep, picks);
    if keep(x) {
      assert ChosenAt(xs + [x], keep, f, r + [f(x)], picks + [|xs|]);
    } else {
      assert ChosenAt(xs + [x], keep, f, r, picks);
    }
  }

  /** The step of an induction over `xs`. */
  lemma ChosenStep<T(!new), U>(xs: seq<T>, keep: T -> bool, f: T -> U, most: seq<U>, last: seq<U>)
    requires xs != [] && Chosen(xs[..|xs| - 1], keep, f, most)
    requires last == if keep(xs[|xs| - 1]) then [f(xs[|xs| - 1])] else []
    ensures Chosen(xs, keep, f, most + last)
  {
    var front, x := xs[..|xs| - 1], xs[|xs| - 1];
    assert xs == front + [x];
    assert most + last == if keep(x) then most + [f(x)] else most;
    ChosenOneMore(front, x, keep, f, most);
  }

  lemma ChosenMembers<T(!new), U>(xs: seq<T>, keep: T -> bool, f: T -> U, r: seq<U>)
    requires Chosen(xs, keep, f, r)
    ensures forall y :: y in r <==> exists x :: x in xs && keep(x) && f(x) == y
  {
    var picks: seq<nat> :| ChosenAt(xs, keep, f, r, picks);
    forall y | y in r ensures exists x :: x in xs && keep(x) && f(x) == y {
      var k :| 0 <= k < |r| && r[k] == y;
      assert picks[k] in picks;
      assert xs[picks[k]] in xs;
    }
    forall x | x in xs && keep(x) ensures f(x) in r {
      var i: nat :| i < |xs| && xs[i] == x;
      assert i in picks;
      var k :| 0 <= k < |picks| && picks[k] == i;
      assert r[k] == f(x);
    }
  }
}
