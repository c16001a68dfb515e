/**
 The line loop that reads an SSE response. A block of lines ends at an empty line; "event:"
 and "data:" may come in either order, the last of each counts, and a block without data is
 skipped. The loop is proved against a definition by blocks, and that definition inverts
 printing: the single-data-line subset of section 9.2.6 of the WHATWG HTML Living Standard.
 */
module SseStream {
  import opened Text
  import opened Wrappers

  datatype Event = Event(eventType: string, data: string)

  // ---- trimming, and splitting text into lines -------------------------------------------

  /** The characters `strings.TrimSpace` removes. */
  predicate IsSpace(c: char) {
    || c == ' ' || '\t' <= c <= '\r' || c == '\U{0085}' || c == '\U{00A0}' || c == '\U{1680}'
    || '\U{2000}' <= c <= '\U{200A}' || c == '\U{2028}' || c == '\U{2029}' || c == '\U{202F}'
    || c == '\U{205F}' || c == '\U{3000}'
  }

  function TrimLeft(s: string): string {
    if s != "" && IsSpace(s[0]) then TrimLeft(s[1..]) else s
  }

  function TrimRight(s: string): string {
    if s != "" && IsSpace(s[|s| - 1]) then TrimRight(s[..|s| - 1]) else s
  }

  function TrimSpace(s: string): string {
    TrimRight(TrimLeft(s))
  }

  function DropCR(s: string): string {
    if s != "" && s[|s| - 1] == '\r' then s[..|s| - 1] else s
  }

  function IndexOf<T(==)>(xs: seq<T>, x: T): (i: nat)
    ensures i <= |xs| && x !in xs[..i] && (i < |xs| ==> xs[i] == x)
  {
    if xs == [] || xs[0] == x then 0
    else
      var i := IndexOf(xs[1..], x);
      assert xs[..i + 1] == [xs[0]] + xs[1..][..i];
      i + 1
  }

  lemma {:induction false} IndexOfSplit<T>(xs: seq<T>, x: T, ys: seq<T>)
    requires x !in xs
    ensures IndexOf(xs + [x] + ys, x) == |xs|
    ensures (xs + [x] + ys)[..|xs|] == xs && (xs + [x] + ys)[|xs| + 1..] == ys
  {
    if xs != [] {
      assert (xs + [x] + ys)[1..] == xs[1..] + [x] + ys;
      IndexOfSplit(xs[1..], x, ys);
    }
  }

  /** `bufio.ScanLines`: cut at newlines, drop one carriage return, keep a last unfinished line. */
  function Lines(text: string): seq<string>
    decreases |text|
  {
    if text == "" then []
    else
      var i := IndexOf(text, '\n');
      if i < |text| then [DropCR(text[..i])] + Lines(text[i + 1..]) else [DropCR(text)]
  }

  // ---- what a stream delivers, by blocks ---------------------------------------------------

  /** The blocks that are ended by an empty line. */
  function Blocks(lines: seq<string>): seq<seq<string>>
    decreases |lines|
  {
    var i := IndexOf(lines, "");
    if i == |lines| then [] else [lines[..i]] + Blocks(lines[i + 1..])
  }

  /** The value of the last line of a block that carries the field, or what it was before. */
  function FieldAfter(before: string, block: seq<string>, field: string): string {
    if block == [] then before
    else
      var n := |block| - 1;
      if HasPrefix(block[n], field) then TrimSpace(TrimPrefix(block[n], field))
      else FieldAfter(before, block[..n], field)
  }

  function Deliver(eventType: string, data: string): seq<Event> {
    if data == "" then [] else [Event(eventType, data)]
  }

  function DeliverBlocks(blocks: seq<seq<string>>): seq<Event> {
    if blocks == [] then []
    else Deliver(FieldAfter("", blocks[0], "event:"), FieldAfter("", blocks[0], "data:")) + DeliverBlocks(blocks[1..])
  }

  function Delivered(lines: seq<string>): seq<Event> {
    DeliverBlocks(Blocks(lines))
  }

  lemma DeliveredBlock(block: seq<string>, rest: seq<string>)
    requires "" !in block
    ensures Delivered(block + [""] + rest)
         == Deliver(FieldAfter("", block, "event:"), FieldAfter("", block, "data:")) + Delivered(rest)
  {
    IndexOfSplit(block, "", rest);
    assert ([block] + Blocks(rest))[1..] == Blocks(rest);
  }

  /** `v` is the value of the last line of the block with the field; it is empty if there is none. */
  ghost predicate LastValue(block: seq<string>, field: string, v: string) {
    || (exists i :: LastWith(block, field, i) && v == TrimSpace(block[i][|field|..]))
    || (v == "" && forall i :: 0 <= i < |block| ==> !HasPrefix(block[i], field))
  }

  predicate LastWith(block: seq<string>, field: string, i: int) {
    && 0 <= i < |block| && HasPrefix(block[i], field)
    && forall j :: i < j < |block| ==> !HasPrefix(block[j], field)
  }

  lemma {:induction false} FieldAfterIsLastValue(block: seq<string>, field: string)
    ensures LastValue(block, field, FieldAfter("", block, field))
  {
    if block != [] {
      var n := |block| - 1;
      if HasPrefix(block[n], field) {
        assert LastWith(block, field, n);
      } else {
        FieldAfterIsLastValue(block[..n], field);
        if i :| LastWith(block[..n], field, i) && FieldAfter("", block, field) == TrimSpace(block[i][|field|..]) {
          assert LastWith(block, field, i);
        }
      }
    }
  }

  /**
   A block delivers one event, of the last type and the last data that its lines give - or none,
   if they give no data -, and has no effect on what follows it.
   */
  lemma BlockDeliversItsLastData(block: seq<string>, rest: seq<string>) returns (eventType: string, data: string)
    requires "" !in block
    ensures LastValue(block, "event:", eventType) && LastValue(block, "data:", data)
    ensures Delivered(block + [""] + rest) == (if data == "" then [] else [Event(eventType, data)]) + Delivered(rest)
  {
    eventType, data := FieldAfter("", block, "event:"), FieldAfter("", block, "data:");
    FieldAfterIsLastValue(block, "event:");
    FieldAfterIsLastValue(block, "data:");
    DeliveredBlock(block, rest);
  }

  lemma {:induction false} TrimLeftParts(s: string) returns (left: string)
    ensures AllSpace(left) && s == left + TrimLeft(s) && (TrimLeft(s) != "" ==> !IsSpace(TrimLeft(s)[0]))
  {
    left := "";
    if s != "" && IsSpace(s[0]) {
      left := TrimLeftParts(s[1..]);
      left := [s[0]] + left;
    }
  }

  lemma {:induction false} TrimRightParts(s: string) returns (right: string)
    ensures AllSpace(right) && s == TrimRight(s) + right
    ensures TrimRight(s) != "" ==> !IsSpace(TrimRight(s)[|TrimRight(s)| - 1])
  {
    right := "";
    if s != "" && IsSpace(s[|s| - 1]) {
      right := TrimRightParts(s[..|s| - 1]);
      right := right + [s[|s| - 1]];
    }
  }

  /** Trimming takes off the space at both ends, all of it and nothing else. */
  lemma TrimSpaceParts(s: string) returns (left: string, right: string)
    ensures s == left + TrimSpace(s) + right && AllSpace(left) && AllSpace(right) && Trimmed(TrimSpace(s))
  {
    left := TrimLeftParts(s);
    right := TrimRightParts(TrimLeft(s));
    Associate(left, TrimSpace(s), right);
    assert TrimSpace(s) != "" ==> TrimSpace(s)[0] == TrimLeft(s)[0];
  }

  // ---- the loop ------------------------------------------------------------------------------

  /** What is still delivered from `lines` when the loop has these two values buffered. */
  function Pending(eventType: string, data: string, lines: seq<string>): seq<Event> {
    var i := IndexOf(lines, "");
    if i == |lines| then []
    else
      Deliver(FieldAfter(eventType, lines[..i], "event:"), FieldAfter(data, lines[..i], "data:"))
      + Delivered(lines[i + 1..])
  }

  lemma {:induction false} FieldAfterFirst(before: string, block: seq<string>, field: string)
    requires block != []
    ensures FieldAfter(before, block, field)
         == FieldAfter(if HasPrefix(block[0], field) then TrimSpace(TrimPrefix(block[0], field)) else before,
                       block[1..], field)
  {
    var n := |block| - 1;
    if n > 0 && !HasPrefix(block[n], field) {
      FieldAfterFirst(before, block[..n], field);
      assert block[1..][..n - 1] == block[..n][1..];
    }
  }

  lemma PendingLine(eventType: string, data: string, line: string, rest: seq<string>)
    requires line != ""
    ensures Pending(eventType, data, [line] + rest)
         == Pending(
              if HasPrefix(line, "event:") then TrimSpace(TrimPrefix(line, "event:")) else eventType,
              if HasPrefix(line, "data:") then TrimSpace(TrimPrefix(line, "data:")) else data,
              rest)
  {
    var all, i := [line] + rest, IndexOf(rest, "");
    assert all[1..] == rest && IndexOf(all, "") == i + 1;
    if i < |rest| {
      FieldAfterFirst(eventType, all[..i + 1], "event:");
      FieldAfterFirst(data, all[..i + 1], "data:");
      assert all[..i + 1][1..] == rest[..i];
      assert all[i + 2..] == rest[i + 1..];
    }
  }

  lemma PendingEnd(eventType: string, data: string, rest: seq<string>)
    ensures Pending(eventType, data, [""] + rest) == Deliver(eventType, data) + Pending("", "", rest)
  {
    var all := [""] + rest;
    assert IndexOf(all, "") == 0 && all[1..] == rest;
    DeliveredIsPending(rest);
  }

  lemma DeliveredIsPending(lines: seq<string>)
    ensures Delivered(lines) == Pending("", "", lines)
  {
    var i := IndexOf(lines, "");
    if i < |lines| {
      assert Blocks(lines)[1..] == Blocks(lines[i + 1..]);
    }
  }

  /** What the loop delivers when it goes through `lines` with these two values buffered. */
  function Scan(eventType: string, data: string, lines: seq<string>): seq<Event>
    decreases lines
  {
    if lines == [] then []
    else if HasPrefix(lines[0], "event:") then Scan(TrimSpace(TrimPrefix(lines[0], "event:")), data, lines[1..])
    else if HasPrefix(lines[0], "data:") then Scan(eventType, TrimSpace(TrimPrefix(lines[0], "data:")), lines[1..])
    else if lines[0] == "" then Deliver(eventType, data) + Scan("", "", lines[1..])
    else Scan(eventType, data, lines[1..])
  }

  lemma {:induction false} ScanIsPending(eventType: string, data: string, lines: seq<string>)
    ensures Scan(eventType, data, lines) == Pending(eventType, data, lines)
    decreases |lines|
  {
    if lines != [] {
      var line, rest := lines[0], lines[1..];
      assert lines == [line] + rest;
      if line == "" {
        PendingEnd(eventType, data, rest);
        ScanIsPending("", "", rest);
      } else {
        PendingLine(eventType, data, line, rest);
        var e := if HasPrefix(line, "event:") then TrimSpace(TrimPrefix(line, "event:")) else eventType;
        var d := if HasPrefix(line, "data:") then TrimSpace(TrimPrefix(line, "data:")) else data;
        ScanIsPending(e, d, rest);
        assert HasPrefix(line, "event:") ==> line[0] == 'e';
      }
    }
  }

  /** The read loop of streamOnce; `delivered` lists its handleEvent calls. */
  method StreamOnce(lines: seq<string>) returns (delivered: seq<Event>)
    ensures delivered == Delivered(lines)
  {
    delivered := [];
    var eventType, data := "", "";
    DeliveredIsPending(lines);
    ScanIsPending("", "", lines);
    ghost var total := Scan("", "", lines);
    assert lines[0..] == lines;
    for i := 0 to |lines|
      invariant total == delivered + Scan(eventType, data, lines[i..])
    {
      var line := lines[i];
      assert lines[i..][1..] == lines[i + 1..];
      if HasPrefix(line, "event:") {
        eventType := TrimSpace(TrimPrefix(line, "event:"));
      } else if HasPrefix(line, "data:") {
        data := TrimSpace(TrimPrefix(line, "data:"));
      } else if line == "" {
        Associate(delivered, Deliver(eventType, data), Scan("", "", lines[i + 1..]));
        if data != "" {
          delivered := delivered + [Event(eventType, data)];
        }
        eventType, data := "", "";
      }
    }
  }

  // ---- main results ------------------------------------------------------------------------

  predicate Terminated(lines: seq<string>) {
    lines == [] || lines[|lines| - 1] == ""
  }

  /** Block-terminated streams can be read one after the other. */
  lemma {:induction false} DeliveredConcat(xs: seq<string>, ys: seq<string>)
    requires Terminated(xs)
    ensures Delivered(xs + ys) == Delivered(xs) + Delivered(ys)
    decreases |xs|
  {
    if xs == [] {
      assert xs + ys == ys;
    } else {
      var i := IndexOf(xs, "");
      assert i < |xs| by { assert xs[|xs| - 1] in xs; }
      var block, rest := xs[..i], xs[i + 1..];
      assert xs == block + [""] + rest && xs + ys == block + [""] + (rest + ys);
      DeliveredConcat(rest, ys);
      DeliveredBlock(block, rest);
      DeliveredBlock(block, rest + ys);
      Associate(Deliver(FieldAfter("", block, "event:"), FieldAfter("", block, "data:")), Delivered(rest),
                Delivered(ys));
    }
  }

  /** A stream cut off inside a block loses that block and nothing else. */
  lemma UnterminatedTailIsDropped(xs: seq<string>, tail: seq<string>)
    requires Terminated(xs) && "" !in tail
    ensures Delivered(xs + tail) == Delivered(xs)
  {
    DeliveredConcat(xs, tail);
    var i := IndexOf(tail, "");
    assert i == |tail|;
  }

  predicate Ignored(line: string) {
    line != "" && !HasPrefix(line, "event:") && !HasPrefix(line, "data:")
  }

  predicate AllSpace(s: string) {
    forall c :: c in s ==> IsSpace(c)
  }

  predicate Trimmed(s: string) {
    s != "" ==> !IsSpace(s[0]) && !IsSpace(s[|s| - 1])
  }

  /** A line carrying the field with padding around its value. */
  predicate Carries(line: string, field: string, value: string, left: string, right: string) {
    line == field + left + value + right && AllSpace(left) && AllSpace(right) && Trimmed(value)
  }

  /** How one event is printed: its two lines in either order among ignored ones. */
  datatype Printing = Printing(eventAt: nat, dataAt: nat, pads: (string, string, string, string), lines: seq<string>)

  predicate Prints(p: Printing, e: Event) {
    && p.eventAt < |p.lines| && p.dataAt < |p.lines| && p.eventAt != p.dataAt
    && Carries(p.lines[p.eventAt], "event:", e.eventType, p.pads.0, p.pads.1)
    && Carries(p.lines[p.dataAt], "data:", e.data, p.pads.2, p.pads.3)
    && e.data != ""
    && forall i :: 0 <= i < |p.lines| && i != p.eventAt && i != p.dataAt ==> Ignored(p.lines[i])
  }

  function PrintAll(ps: seq<Printing>): seq<string> {
    if ps == [] then [] else ps[0].lines + [""] + PrintAll(ps[1..])
  }

  lemma {:induction false} TrimLeftSkips(pad: string, rest: string)
    requires AllSpace(pad)
    ensures TrimLeft(pad + rest) == TrimLeft(rest)
  {
    if pad == "" {
      assert pad + rest == rest;
    } else {
      assert (pad + rest)[1..] == pad[1..] + rest;
      TrimLeftSkips(pad[1..], rest);
    }
  }

  lemma {:induction false} TrimRightSkips(rest: string, pad: string)
    requires AllSpace(pad)
    ensures TrimRight(rest + pad) == TrimRight(rest)
  {
    if pad == "" {
      assert rest + pad == rest;
    } else {
      assert (rest + pad)[..|rest + pad| - 1] == rest + pad[..|pad| - 1];
      TrimRightSkips(rest, pad[..|pad| - 1]);
    }
  }

  lemma FieldValue(line: string, field: string, value: string, left: string, right: string)
    requires Carries(line, field, value, left, right)
    ensures HasPrefix(line, field) && TrimSpace(TrimPrefix(line, field)) == value
  {
    assert TrimPrefix(line, field) == left + (value + right);
    TrimLeftSkips(left, value + right);
    if value == "" {
      assert value + right == right + "";
      TrimLeftSkips(right, "");
    } else {
      TrimRightSkips(value, right);
    }
  }

  lemma {:induction false} OnlyLineWithField(block: seq<string>, field: string, at: nat)
    requires at < |block| && HasPrefix(block[at], field)
    requires forall i :: 0 <= i < |block| && i != at ==> !HasPrefix(block[i], field)
    ensures FieldAfter("", block, field) == TrimSpace(TrimPrefix(block[at], field))
  {
    if at < |block| - 1 {
      OnlyLineWithField(block[..|block| - 1], field, at);
    }
  }

  lemma PrintedBlock(p: Printing, e: Event)
    requires Prints(p, e)
    ensures "" !in p.lines && FieldAfter("", p.lines, "event:") == e.eventType
      && FieldAfter("", p.lines, "data:") == e.data
  {
    FieldValue(p.lines[p.eventAt], "event:", e.eventType, p.pads.0, p.pads.1);
    FieldValue(p.lines[p.dataAt], "data:", e.data, p.pads.2, p.pads.3);
    assert p.lines[p.eventAt][0] == 'e' && p.lines[p.dataAt][0] == 'd';
    OnlyLineWithField(p.lines, "event:", p.eventAt);
    OnlyLineWithField(p.lines, "data:", p.dataAt);
  }

  /** Reading back what was printed delivers exactly the events that were printed. */
  lemma {:induction false} RoundTrip(ps: seq<Printing>, events: seq<Event>)
    requires |ps| == |events| && forall k :: 0 <= k < |ps| ==> Prints(ps[k], events[k])
    ensures Delivered(PrintAll(ps)) == events
  {
    if ps != [] {
      PrintedBlock(ps[0], events[0]);
      RoundTrip(ps[1..], events[1..]);
      DeliveredBlock(ps[0].lines, PrintAll(ps[1..]));
      assert events == [events[0]] + events[1..];
    }
  }

  // ---- down to characters ------------------------------------------------------------------

  predicate OneLine(line: string) {
    '\n' !in line && (line != "" ==> line[|line| - 1] != '\r')
  }

  /** Lines joined with either line ending. */
  function Join(lines: seq<string>, crlf: bool): string {
    if lines == [] then "" else lines[0] + (if crlf then "\r\n" else "\n") + Join(lines[1..], crlf)
  }

  lemma LinesAfterOne(line: string, crlf: bool, more: string)
    requires OneLine(line)
    ensures Lines(line + (if crlf then "\r\n" else "\n") + more) == [line] + Lines(more)
  {
    var first := line + if crlf then "\r" else "";
    assert line + (if crlf then "\r\n" else "\n") + more == first + ['\n'] + more;
    IndexOfSplit(first, '\n', more);
    assert DropCR(first) == line;
  }

  /** What is left when the stream ends is a line, too, even without a newline. */
  lemma UnfinishedLine(rest: string)
    requires OneLine(rest)
    ensures Lines(rest) == if rest == "" then [] else [rest]
  {
    assert IndexOf(rest, '\n') == |rest|;
  }

  /** Lines joined with either ending come back, and what follows them is read on its own. */
  lemma {:induction false} LinesWithRest(lines: seq<string>, crlf: bool, rest: string)
    requires forall l :: l in lines ==> OneLine(l)
    ensures Lines(Join(lines, crlf) + rest) == lines + Lines(rest)
  {
    if lines == [] {
      assert Join(lines, crlf) + rest == rest && lines + Lines(rest) == Lines(rest);
    } else {
      var first, more := lines[0] + (if crlf then "\r\n" else "\n"), Join(lines[1..], crlf);
      assert OneLine(lines[0]);
      LinesWithRest(lines[1..], crlf, rest);
      LinesAfterOne(lines[0], crlf, more + rest);
      Associate(first, more, rest);
      Associate([lines[0]], lines[1..], Lines(rest));
      assert lines == [lines[0]] + lines[1..];
    }
  }

  lemma LinesOfJoin(lines: seq<string>, crlf: bool)
    requires forall l :: l in lines ==> OneLine(l)
    ensures Lines(Join(lines, crlf)) == lines
  {
    LinesWithRest(lines, crlf, "");
    assert Join(lines, crlf) + "" == Join(lines, crlf);
  }

  /** The round trip from the characters on the wire. */
  lemma WireRoundTrip(ps: seq<Printing>, events: seq<Event>, crlf: bool)
    requires |ps| == |events| && forall k :: 0 <= k < |ps| ==> Prints(ps[k], events[k])
    requires forall l :: l in PrintAll(ps) ==> OneLine(l)
    ensures Delivered(Lines(Join(PrintAll(ps), crlf))) == events
  {
    LinesOfJoin(PrintAll(ps), crlf);
    RoundTrip(ps, events);
  }
}
