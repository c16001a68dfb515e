/**
 Placing a new node on the canvas: from a preferred position, step down a column until the
 slot is free. Positions are real numbers.
 */
module NodeLayout {
  import opened Wrappers

  datatype Position = Position(x: real, y: real)

  const HORIZONTAL_STEP := 260.0
  const VERTICAL_STEP := 120.0
  const COLLISION_THRESHOLD_X := 180.0
  const COLLISION_THRESHOLD_Y := VERTICAL_STEP

  function Abs(r: real): real {
    if r < 0.0 then -r else r
  }

  /** Two node cards standing in each other's slot. */
  predicate Collide(a: Position, b: Position) {
    Abs(a.x - b.x) < COLLISION_THRESHOLD_X && Abs(a.y - b.y) < COLLISION_THRESHOLD_Y
  }

  predicate IsOccupied(existing: seq<Position>, candidate: Position) {
    exists n :: n in existing && Collide(n, candidate)
  }

  function Preferred(source: Option<Position>): Position {
    match source
    case None => Position(40.0, 40.0)
    case Some(s) => Position(s.x + HORIZONTAL_STEP, s.y)
  }

  /** The k-th slot of the column below the preferred position. */
  function Slot(start: Position, k: nat): Position {
    Position(start.x, start.y + k as real * VERTICAL_STEP)
  }

  // ---- counting blocked slots ------------------------------------------------------------------

  function Blocked(existing: seq<Position>, start: Position, count: nat): set<nat> {
    set k: nat | k < count && IsOccupied(existing, Slot(start, k))
  }

  function BlockedBy(n: Position, start: Position, count: nat): set<nat> {
    set k: nat | k < count && Collide(n, Slot(start, k))
  }

  /** Slots are as far apart as the collision threshold, so a node only reaches neighbouring ones. */
  lemma ReachIsShort(n: Position, start: Position, b: nat, c: nat)
    requires Collide(n, Slot(start, b)) && Collide(n, Slot(start, c))
    ensures b <= c + 1
  {
    assert Slot(start, b).y - Slot(start, c).y == (b as real - c as real) * VERTICAL_STEP < 2.0 * VERTICAL_STEP;
  }

  lemma OneNodeBlocksTwo(n: Position, start: Position, count: nat)
    ensures |BlockedBy(n, start, count)| <= 2
  {
    var slots := BlockedBy(n, start, count);
    if a :| a in slots {
      forall b, c | b in slots && c in slots ensures b <= c + 1 {
        ReachIsShort(n, start, b, c);
      }
      var two := if a + 1 in slots then {a, a + 1} else if a > 0 then {a - 1, a} else {a};
      assert slots <= two;
      SubsetSize(slots, two);
    }
  }

  lemma {:induction false} SubsetSize<T>(s: set<T>, t: set<T>)
    requires s <= t
    ensures |s| <= |t|
  {
    assert t == s + (t - s);
  }

  lemma {:induction false} FewSlotsBlocked(existing: seq<Position>, start: Position, count: nat)
    ensures |Blocked(existing, start, count)| <= 2 * |existing|
  {
    if existing == [] {
      assert Blocked(existing, start, count) == {};
    } else {
      var first, rest := BlockedBy(existing[0], start, count), Blocked(existing[1..], start, count);
      FewSlotsBlocked(existing[1..], start, count);
      OneNodeBlocksTwo(existing[0], start, count);
      forall k | k in Blocked(existing, start, count) ensures k in first + rest {
        var n :| n in existing && Collide(n, Slot(start, k));
        assert n == existing[0] || n in existing[1..];
      }
      SubsetSize(Blocked(existing, start, count), first + rest);
      assert |first + rest| <= |first| + |rest|;
    }
  }

  function Below(count: nat): (s: set<nat>)
    ensures |s| == count && forall k: nat :: k in s <==> k < count
  {
    if count == 0 then {} else Below(count - 1) + {count - 1}
  }

  /** If every one of the first slots is taken, there are no more of them than two per node. */
  lemma TakenSlotsBound(existing: seq<Position>, start: Position, count: nat)
    requires forall k: nat :: k < count ==> IsOccupied(existing, Slot(start, k))
    ensures count <= 2 * |existing|
  {
    FewSlotsBlocked(existing, start, count);
    assert Blocked(existing, start, count) == Below(count);
  }

  // ---- the placement ---------------------------------------------------------------------------

  /** The first free slot is found after at most two steps per existing node. */
  method ComputeNewNodePosition(existing: seq<Position>, source: Option<Position>)
    returns (candidate: Position, ghost steps: nat)
    ensures candidate == Slot(Preferred(source), steps)
    ensures candidate.x == if source.Some? then source.value.x + HORIZONTAL_STEP else 40.0
    ensures candidate.y == (if source.Some? then source.value.y else 40.0) + steps as real * VERTICAL_STEP
    ensures forall n :: n in existing ==>
      || Abs(n.x - candidate.x) >= COLLISION_THRESHOLD_X || Abs(n.y - candidate.y) >= COLLISION_THRESHOLD_Y
    ensures !IsOccupied(existing, candidate)
    ensures forall k: nat :: k < steps ==> IsOccupied(existing, Slot(Preferred(source), k))
    ensures steps <= 2 * |existing|
  {
    steps := 0;
    if source.None? {
      candidate := Position(40.0, 40.0);
      while IsOccupied(existing, candidate)
        invariant candidate == Slot(Preferred(source), steps)
        invariant forall k: nat :: k < steps ==> IsOccupied(existing, Slot(Preferred(source), k))
        invariant steps <= 2 * |existing|
        decreases 2 * |existing| - steps
      {
        TakenSlotsBound(existing, Preferred(source), steps + 1);
        candidate := Position(candidate.x, candidate.y + VERTICAL_STEP);
        steps := steps + 1;
      }
      return;
    }
    candidate := Position(source.value.x + HORIZONTAL_STEP, source.value.y);
    while IsOccupied(existing, candidate)
      invariant candidate == Slot(Preferred(source), steps)
      invariant forall k: nat :: k < steps ==> IsOccupied(existing, Slot(Preferred(source), k))
      invariant steps <= 2 * |existing|
      decreases 2 * |existing| - steps
    {
      TakenSlotsBound(existing, Preferred(source), steps + 1);
      candidate := Position(candidate.x, candidate.y + VERTICAL_STEP);
      steps := steps + 1;
    }
  }

  // ---- main results about many placements ------------------------------------------------------

  predicate Spread(nodes: seq<Position>) {
    forall j, k :: 0 <= j < k < |nodes| ==> !Collide(nodes[j], nodes[k])
  }

  /** `p` is the first free slot for a node connected to `source`. */
  ghost predicate Placed(existing: seq<Position>, source: Option<Position>, p: Position) {
    exists steps: nat ::
      && p == Slot(Preferred(source), steps) && !IsOccupied(existing, p)
      && forall k: nat :: k < steps ==> IsOccupied(existing, Slot(Preferred(source), k))
  }

  /** However many nodes are added, connected to whatever sources, they stay apart. */
  lemma {:induction false} AdditionsStayApart(nodes: seq<Position>, sources: seq<Option<Position>>, all: seq<Position>)
    requires Spread(nodes) && nodes <= all && |all| == |nodes| + |sources|
    requires forall i :: 0 <= i < |sources| ==> Placed(all[..|nodes| + i], sources[i], all[|nodes| + i])
    ensures Spread(all)
  {
    var n := |all| - 1;
    if sources != [] {
      forall i | 0 <= i < |sources| - 1 ensures Placed(all[..n][..|nodes| + i], sources[i], all[..n][|nodes| + i]) {
        assert all[..n][..|nodes| + i] == all[..|nodes| + i];
      }
      AdditionsStayApart(nodes, sources[..|sources| - 1], all[..n]);
      var last := |sources| - 1;
      assert Placed(all[..|nodes| + last], sources[last], all[|nodes| + last]);
      assert !IsOccupied(all[..n], all[n]);
      assert forall j :: 0 <= j < n ==> all[j] in all[..n];
    } else {
      assert all == nodes;
    }
  }

  /** Positions halfway between slots, two slots apart. */
  function Straddling(start: Position, n: nat): seq<Position> {
    seq(n, (i: nat) => Position(start.x, start.y + (2 * i) as real * VERTICAL_STEP + 60.0))
  }

  /** Two steps per node is exact: n nodes that do not collide can take the first 2n slots. */
  lemma TwoStepsPerNodeAreNeeded(start: Position, n: nat)
    ensures |Straddling(start, n)| == n && Spread(Straddling(start, n))
    ensures forall k: nat :: k < 2 * n ==> IsOccupied(Straddling(start, n), Slot(start, k))
    ensures !IsOccupied(Straddling(start, n), Slot(start, 2 * n))
  {
    var nodes := Straddling(start, n);
    forall k: nat | k < 2 * n ensures IsOccupied(nodes, Slot(start, k)) {
      assert nodes[k / 2] in nodes;
      assert k as real == (2 * (k / 2)) as real + (k % 2) as real;
    }
  }
}
