/**
 Saving the ring as text and loading it back. As written both loops cover the cells
 front .. rear-1, that is the dead slot and every live cell but the newest; repaired they
 cover the live cells front+1 .. rear.
 */
module QueueFile {

  import opened DecimalText
  import opened RingQueue

  /** The cell k steps around the ring from i. */
  function Around(i: nat, k: nat, size: nat): (r: nat)
    requires i < size && k < size
    ensures r < size
  {
    if i + k < size then i + k else i + k - size
  }

  /** The contents of n consecutive cells. */
  function Stretch(cells: seq<int>, i: nat, n: nat): (s: seq<int>)
    requires i < |cells| && n < |cells|
    ensures |s| == n
  {
    seq(n, k requires 0 <= k < n => cells[Around(i, k, |cells|)])
  }

  /** Where the loops start. */
  function FirstCell(front: nat, size: nat, repaired: bool): (i: nat)
    requires front < size && (repaired ==> size > 1)
    ensures i < size
  {
    if repaired then Around(front, 1, size) else front
  }

  /** Where they stop. */
  function StopCell(rear: nat, size: nat, repaired: bool): (i: nat)
    requires rear < size && (repaired ==> size > 1)
    ensures i < size
  {
    if repaired then Around(rear, 1, size) else rear
  }

  lemma LoopBounds(front: nat, rear: nat, size: nat, repaired: bool)
    requires front < size && rear < size && (repaired ==> size > 1)
    ensures FirstCell(front, size, repaired) == if repaired then (front + 1) % size else front
    ensures StopCell(rear, size, repaired) == if repaired then (rear + 1) % size else rear
    ensures Around(FirstCell(front, size, repaired), 0, size) == FirstCell(front, size, repaired)
  {
    StepAround(front, size);
    StepAround(rear, size);
  }

  lemma AroundStep(i: nat, k: nat, size: nat)
    requires i < size && k + 1 < size
    ensures Around(i, k + 1, size) == (Around(i, k, size) + 1) % size
  {
    StepAround(Around(i, k, size), size);
  }

  /** A loop takes as many steps as there are live cells. */
  lemma LoopStops(front: nat, rear: nat, cells: seq<int>, repaired: bool, k: nat)
    requires front < |cells| && rear < |cells| && (repaired ==> |cells| > 1)
    requires k <= |LiveCells(front, rear, cells)|
    ensures Around(FirstCell(front, |cells|, repaired), k, |cells|) == StopCell(rear, |cells|, repaired)
            <==> k == |LiveCells(front, rear, cells)|
  {
  }

  lemma StretchGrows(cells: seq<int>, i: nat, k: nat)
    requires i < |cells| && k + 1 < |cells|
    ensures Stretch(cells, i, k + 1) == Stretch(cells, i, k) + [cells[Around(i, k, |cells|)]]
  {
  }

  // ---------- The text ----------

  function PrintHeader(front: nat, rear: nat): string {
    Print(front) + " " + Print(rear) + "\n"
  }

  function PrintCells(s: seq<int>): string {
    if s == [] then "" else PrintCells(s[..|s| - 1]) + Print(s[|s| - 1]) + "\n"
  }

  lemma PrintOneMore(s: seq<int>, x: int)
    ensures PrintCells(s + [x]) == PrintCells(s) + Print(x) + "\n"
  {
    assert (s + [x])[..|s|] == s;
  }

  lemma NothingPrinted(cells: seq<int>, i: nat)
    requires i < |cells|
    ensures PrintCells(Stretch(cells, i, 0)) == ""
  {
  }

  lemma {:induction false} PrintCellsFromFront(s: seq<int>)
    requires s != []
    ensures PrintCells(s) == Print(s[0]) + "\n" + PrintCells(s[1..])
  {
    if |s| > 1 {
      var n := |s| - 1;
      PrintCellsFromFront(s[..n]);
      assert s[..n][1..] == s[1..][..n - 1];
    }
  }

  lemma {:induction false} CellLines(s: seq<int>)
    ensures PrintCells(s) == Text(seq(|s|, k requires 0 <= k < |s| => Print(s[k])))
  {
    hide Print;
    if s != [] {
      var rest := s[1..];
      PrintCellsFromFront(s);
      CellLines(rest);
      assert seq(|s|, k requires 0 <= k < |s| => Print(s[k]))[1..] ==
             seq(|rest|, k requires 0 <= k < |rest| => Print(rest[k]));
    }
  }

  /**
   The lines of a saved queue: the two positions with one space between them, and then as
   many cells as there are live ones, on around the ring from the dead slot as written, or
   from the oldest live one.
   */
  lemma SavedQueueLines(front: nat, rear: nat, cells: seq<int>, repaired: bool)
    requires front < |cells| && rear < |cells| && (repaired ==> |cells| > 1)
    ensures var n := (rear - front) % |cells|;
            var first := if repaired then front + 1 else front;
            SavedText(front, rear, cells, repaired) ==
            Text([Print(front) + " " + Print(rear)] +
                 seq(n, k requires 0 <= k < n => Print(cells[(first + k) % |cells|])))
    ensures forall x, y :: OneLine(Print(x)) && OneLine(Print(x) + " " + Print(y))
  {
    hide Print, OneLine, LiveCells, Text, PrintCells, Stretch, FirstCell;
    var n, first := (rear - front) % |cells|, if repaired then front + 1 else front;
    var s := Stretch(cells, FirstCell(front, |cells|, repaired), n);
    LiveCount(front, rear, cells);
    CellLines(s);
    SavedStretch(front, n, cells, repaired);
    var lines := seq(n, k requires 0 <= k < n => Print(cells[(first + k) % |cells|]));
    assert lines == seq(|s|, k requires 0 <= k < |s| => Print(s[k]));
    LineInFront(Print(front) + " " + Print(rear), lines);
    forall x, y ensures OneLine(Print(x)) && OneLine(Print(x) + " " + Print(y)) {
      NumbersOnOneLine(x, y);
    }
  }

  lemma LineInFront(line: string, lines: seq<string>)
    ensures Text([line] + lines) == line + "\n" + Text(lines)
  {
    assert ([line] + lines)[1..] == lines;
  }

  lemma SavedStretch(front: nat, n: nat, cells: seq<int>, repaired: bool)
    requires front < |cells| && n < |cells| && (repaired ==> |cells| > 1)
    ensures var s := Stretch(cells, FirstCell(front, |cells|, repaired), n);
            forall k :: 0 <= k < n ==> s[k] == cells[((if repaired then front + 1 else front) + k) % |cells|]
  {
    forall k: nat | k < n
      ensures Around(FirstCell(front, |cells|, repaired), k, |cells|) ==
              ((if repaired then front + 1 else front) + k) % |cells|
    {
      AroundIsRemainder(front, if repaired then k + 1 else k, |cells|);
    }
  }

  lemma AroundIsRemainder(i: nat, k: nat, size: nat)
    requires i < size && k <= size
    ensures (i + k) % size == if i + k < size then i + k else i + k - size
  {
  }

  function SavedText(front: nat, rear: nat, cells: seq<int>, repaired: bool): string
    requires front < |cells| && rear < |cells| && (repaired ==> |cells| > 1)
  {
    var n := |LiveCells(front, rear, cells)|;
    PrintHeader(front, rear) + PrintCells(Stretch(cells, FirstCell(front, |cells|, repaired), n))
  }

  /** The loading loop: n numbers go into n consecutive cells; a failing scan leaves its cell alone. */
  function Store(cells: seq<int>, i: nat, n: nat, text: string): (r: seq<int>)
    requires i < |cells| && n < |cells|
    ensures |r| == |cells|
    decreases n
  {
    if n == 0 then cells
    else
      var scan := ScanInt(text);
      Store(if scan.ok then cells[i := scan.value] else cells, Around(i, 1, |cells|), n - 1, scan.rest)
  }

  /** The cells with the values written from cell i on. */
  function Overlay(cells: seq<int>, i: nat, values: seq<int>): (r: seq<int>)
    requires i < |cells| && |values| < |cells|
    ensures |r| == |cells|
    decreases |values|
  {
    if values == [] then cells
    else Overlay(cells[i := values[0]], Around(i, 1, |cells|), values[1..])
  }

  lemma StoreStep(cells: seq<int>, i: nat, n: nat, text: string)
    requires i < |cells| && 0 < n < |cells|
    ensures var scan := ScanInt(text);
            Store(cells, i, n, text) ==
            Store(if scan.ok then cells[i := scan.value] else cells, Around(i, 1, |cells|), n - 1, scan.rest)
  {
    hide ScanInt;
  }

  lemma FirstLine(values: seq<int>)
    requires values != []
    ensures ScanInt("\n" + PrintCells(values)) == Scan(true, values[0], "\n" + PrintCells(values[1..]))
  {
    hide ScanInt, Print;
    var tail := "\n" + PrintCells(values[1..]);
    PrintCellsFromFront(values);
    assert PrintCells(values) == Print(values[0]) + tail;
    ScanPrinted(values[0], tail);
    ScanAfterSpace('\n', PrintCells(values));
  }

  lemma {:induction false} NothingToStore(cells: seq<int>, i: nat, n: nat)
    requires i < |cells| && n < |cells|
    ensures Store(cells, i, n, "") == cells && Store(cells, i, n, "\n") == cells
    decreases n
  {
    ScanOfNothing();
    ScanAfterSpace('\n', "");
    assert ['\n'] + "" == "\n";
    if n > 0 {
      NothingToStore(cells, Around(i, 1, |cells|), n - 1);
    }
  }

  /**
   Loading printed cells stores exactly their values (the newline ends the line before); where
   the file has fewer numbers than the positions ask for, the cells behind stay as they were.
   */
  lemma {:induction false} LoadedCells(cells: seq<int>, i: nat, n: nat, values: seq<int>)
    requires i < |cells| && |values| <= n < |cells|
    ensures Store(cells, i, n, "\n" + PrintCells(values)) == Overlay(cells, i, values)
    decreases |values|
  {
    if values == [] {
      NothingToStore(cells, i, n);
    } else {
      hide ScanInt, PrintCells, Around, Store;
      FirstLine(values);
      StoreStep(cells, i, n, "\n" + PrintCells(values));
      assert ScanInt("\n" + PrintCells(values)).value == values[0];
      LoadedCells(cells[i := values[0]], Around(i, 1, |cells|), n - 1, values[1..]);
    }
  }

  /** A number that cannot be read leaves its own cell alone, and the next one goes into the next cell. */
  lemma UnreadableCell(cells: seq<int>, i: nat, n: nat, values: seq<int>)
    requires i < |cells| && |values| < n < |cells|
    ensures Store(cells, i, n, "+\n" + PrintCells(values)) == Overlay(cells, Around(i, 1, |cells|), values)
  {
    hide ScanInt, PrintCells, Around, Store;
    var tail := "\n" + PrintCells(values);
    ScanLoneSign(tail);
    assert "+\n" + PrintCells(values) == "+" + tail;
    StoreStep(cells, i, n, "+" + tail);
    LoadedCells(cells, Around(i, 1, |cells|), n - 1, values);
  }

  /**
   An empty file leaves both positions as they were, one with a single number the second one,
   and one whose first number cannot be read again both.
   */
  lemma ShortHeader(f: int, front: int, rear: int)
    ensures ScanHeader("", front, rear) == Header(front, rear, "")
    ensures ScanHeader(Print(f), front, rear) == Header(f, rear, "")
    ensures ScanHeader("+\n" + Print(f), front, rear) == Header(front, rear, "\n" + Print(f))
  {
    hide ScanInt, Print;
    var tail := "\n" + Print(f);
    ScanLoneSign(tail);
    assert "+\n" + Print(f) == "+" + tail;
    ScanOfNothing();
    ScanPrinted(f, "");
    assert Print(f) + "" == Print(f);
  }

  /** Cell by cell: the written stretch holds the values, every other cell is as before. */
  lemma {:induction false} OverlayAt(cells: seq<int>, i: nat, values: seq<int>, k: nat)
    requires i < |cells| && |values| <= |cells| - 1 && k < |cells|
    ensures Overlay(cells, i, values)[Around(i, k, |cells|)] ==
            if k < |values| then values[k] else cells[Around(i, k, |cells|)]
    decreases |values|
  {
    if values != [] {
      var next := Around(i, 1, |cells|);
      if k > 0 {
        assert Around(next, k - 1, |cells|) == Around(i, k, |cells|);
        OverlayAt(cells[i := values[0]], next, values[1..], k - 1);
      } else {
        assert Around(next, |cells| - 1, |cells|) == i;
        OverlayAt(cells[i := values[0]], next, values[1..], |cells| - 1);
      }
    }
  }

  // ---------- What a reload restores ----------

  /** The live elements after a save and a load over the cells of another ring. */
  function Restored(front: nat, rear: nat, cells: seq<int>, over: seq<int>, repaired: bool): seq<int>
    requires front < |cells| == |over| && rear < |cells| && (repaired ==> |cells| > 1)
  {
    var i, n := FirstCell(front, |cells|, repaired), |LiveCells(front, rear, cells)|;
    LiveCells(front, rear, Overlay(over, i, Stretch(cells, i, n)))
  }

  /** As written, everything comes back except the newest element. */
  lemma WrittenLosesNewest(front: nat, rear: nat, cells: seq<int>, over: seq<int>)
    requires front < |cells| == |over| && rear < |cells|
    ensures var live := LiveCells(front, rear, cells);
            Restored(front, rear, cells, over, false) ==
            if live == [] then [] else live[..|live| - 1] + [over[rear]]
  {
    var live, got := LiveCells(front, rear, cells), Restored(front, rear, cells, over, false);
    var s := Stretch(cells, front, |live|);
    forall k: nat | k < |live| ensures got[k] == if k < |live| - 1 then live[k] else over[rear] {
      OverlayAt(over, front, s, k + 1);
      LiveAt(front, rear, cells, k);
      LiveAt(front, rear, Overlay(over, front, s), k);
    }
  }

  /** So the queue survives exactly when it is empty or the overwritten ring happened to hold its newest element. */
  lemma WrittenSurvivesExactlyWhen(front: nat, rear: nat, cells: seq<int>, over: seq<int>)
    requires front < |cells| == |over| && rear < |cells|
    ensures Restored(front, rear, cells, over, false) == LiveCells(front, rear, cells)
            <==> front == rear || over[rear] == cells[rear]
  {
    WrittenLosesNewest(front, rear, cells, over);
    var live := LiveCells(front, rear, cells);
    if live != [] {
      assert live[|live| - 1] == cells[rear];
      assert live == live[..|live| - 1] + [cells[rear]];
      assert (live[..|live| - 1] + [over[rear]])[|live| - 1] == over[rear];
    }
  }

  /** Repaired, the whole queue comes back, wrapped or not. */
  lemma RepairedRestores(front: nat, rear: nat, cells: seq<int>, over: seq<int>)
    requires front < |cells| == |over| && rear < |cells| && |cells| > 1
    ensures Restored(front, rear, cells, over, true) == LiveCells(front, rear, cells)
  {
    var live, got := LiveCells(front, rear, cells), Restored(front, rear, cells, over, true);
    var i := FirstCell(front, |cells|, true);
    var s := Stretch(cells, i, |live|);
    forall k: nat | k < |live| ensures got[k] == live[k] {
      OverlayAt(over, i, s, k);
      LiveAt(front, rear, cells, k);
      LiveAt(front, rear, Overlay(over, i, s), k);
    }
  }

  // ---------- On the heap ----------

  method SaveQueueToFile(r: Ring, repaired: bool) returns (file: string)
    requires r.Valid() && (repaired ==> r.queue.Length > 1)
    ensures file == SavedText(r.front, r.rear, r.queue[..], repaired)
  {
    hide LiveCells, Print, PrintCells, PrintHeader, Stretch, Around, FirstCell, StopCell;
    var size := r.queue.Length;
    LoopBounds(r.front, r.rear, size, repaired);
    var i := if repaired then (r.front + 1) % size else r.front;
    var stop := if repaired then (r.rear + 1) % size else r.rear;
    var body := "";
    ghost var cells, first, k, n := r.queue[..], i, 0, |r.Contents()|;
    LoopStops(r.front, r.rear, cells, repaired, k);
    NothingPrinted(cells, first);
    while i != stop
      invariant 0 <= k <= n && i == Around(first, k, size) && (i == stop <==> k == n)
      invariant body == PrintCells(Stretch(cells, first, k))
      decreases n - k
    {
      body := body + Print(r.queue[i]) + "\n";
      StretchGrows(cells, first, k);
      PrintOneMore(Stretch(cells, first, k), cells[i]);
      AroundStep(first, k, size);
      LoopStops(r.front, r.rear, cells, repaired, k + 1);
      i, k := (i + 1) % size, k + 1;
    }
    file := PrintHeader(r.front, r.rear) + body;
  }

  /** The first line: a number that could not be read leaves its variable as it was. */
  datatype Header = Header(front: int, rear: int, rest: string)

  function ScanHeader(text: string, front: int, rear: int): Header {
    var f := ScanInt(text);
    if !f.ok then Header(front, rear, f.rest)
    else
      var b := ScanInt(f.rest);
      Header(f.value, if b.ok then b.value else rear, b.rest)
  }

  /** C's remainder, which truncates toward zero. */
  function Remainder(x: int, size: nat): int
    requires size > 0
  {
    if x >= 0 then x % size else -((-x) % size)
  }

  /** The loop variable of the loops as written, after n iterations. */
  function LoopIndex(front: int, size: nat, n: nat): int
    requires size > 0
  {
    if n == 0 then front else Remainder(LoopIndex(front, size, n - 1) + 1, size)
  }

  /** The loops as written end, after n iterations that all stay inside the array. */
  ghost predicate EndsSafely(front: int, rear: int, size: nat, n: nat)
    requires size > 0
  {
    && LoopIndex(front, size, n) == rear
    && forall k: nat :: k < n ==> LoopIndex(front, size, k) != rear && 0 <= LoopIndex(front, size, k) < size
  }

  lemma {:induction false} LoopIndexInRange(front: nat, size: nat, n: nat)
    requires front < size
    ensures 0 <= LoopIndex(front, size, n) < size
    ensures n < size ==> LoopIndex(front, size, n) == Around(front, n, size)
  {
    if n > 0 {
      LoopIndexInRange(front, size, n - 1);
      StepAround(LoopIndex(front, size, n - 1), size);
    }
  }

  /**
   Which positions in a file are safe: the loops as written end without leaving the array
   exactly for two equal positions, whatever they are, and for two that index the array.
   */
  lemma SafePositionsExactlyWhen(front: int, rear: int, size: nat)
    requires size > 0
    ensures (exists n: nat :: EndsSafely(front, rear, size, n)) <==>
            (front == rear || (0 <= front < size && 0 <= rear < size))
  {
    if front == rear {
      assert EndsSafely(front, rear, size, 0);
    } else if 0 <= front < size && 0 <= rear < size {
      var n := if front <= rear then rear - front else rear - front + size;
      forall k: nat | k <= n ensures LoopIndex(front, size, k) == Around(front, k, size) {
        LoopIndexInRange(front, size, k);
      }
      assert EndsSafely(front, rear, size, n);
    }
    if n: nat :| EndsSafely(front, rear, size, n) {
      if n > 0 {
        assert 0 <= LoopIndex(front, size, 0) < size;
        LoopIndexInRange(front, size, n);
      }
    }
  }

  /**
   The loader. It does not check the two positions; equal ones that index nothing end the loop
   at once and leave the ring unusable, other ones outside the array are excluded.
   */
  method LoadQueueFromFile(file: string, r: Ring, repaired: bool)
    requires r.Valid() && (repaired ==> r.queue.Length > 1)
    requires var h := ScanHeader(file, r.front, r.rear);
             h.front == h.rear || (0 <= h.front < r.queue.Length && 0 <= h.rear < r.queue.Length)
    modifies r, r.queue
    ensures var h := ScanHeader(file, old(r.front), old(r.rear));
            && r.front == h.front && r.rear == h.rear
            && (r.Valid() <==> 0 <= h.front < r.queue.Length)
            && (h.front == h.rear ==> r.queue[..] == old(r.queue[..]))
            && (r.Valid() ==>
                  r.queue[..] == Store(old(r.queue[..]), FirstCell(r.front, r.queue.Length, repaired),
                                       |r.Contents()|, h.rest))
  {
    hide ScanInt, ScanHeader, Store, LiveCells, Around, FirstCell, StopCell;
    var size := r.queue.Length;
    var h := ScanHeader(file, r.front, r.rear);
    r.front, r.rear := h.front, h.rear;
    var rest := h.rest;
    var i := if repaired then Remainder(r.front + 1, size) else r.front;
    var stop := if repaired then Remainder(r.rear + 1, size) else r.rear;
    ghost var start, first, k := r.queue[..], i, 0;
    ghost var n := if r.Valid() then |r.Contents()| else 0;
    if r.Valid() {
      LoopBounds(r.front, r.rear, size, repaired);
      LoopStops(r.front, r.rear, start, repaired, k);
    }
    while i != stop
      invariant r.front == h.front && r.rear == h.rear
      invariant r.Valid() ==>
                  && 0 <= k <= n && i == Around(first, k, size) && (i == stop <==> k == n)
                  && Store(r.queue[..], i, n - k, rest) == Store(start, first, n, h.rest)
      invariant h.front == h.rear ==> i == stop && r.queue[..] == start
      decreases n - k
    {
      var scan := ScanInt(rest);
      ghost var before := r.queue[..];
      if scan.ok {
        r.queue[i] := scan.value;
      }
      assert r.queue[..] == if scan.ok then before[i := scan.value] else before;
      if r.Valid() {
        StoreStep(before, i, n - k, rest);
        NextCell(h.front, h.rear, start, repaired, k);
      }
      rest := scan.rest;
      i, k := Remainder(i + 1, size), k + 1;
    }
    if r.Valid() {
      StoreNothing(r.queue[..], i, rest);
      SameCount(r.front, r.rear, start, r.queue[..]);
    }
  }

  /** From the k-th cell of a loop to the next one. */
  lemma NextCell(front: nat, rear: nat, cells: seq<int>, repaired: bool, k: nat)
    requires front < |cells| && rear < |cells| && (repaired ==> |cells| > 1)
    requires k < |LiveCells(front, rear, cells)|
    ensures var size, first := |cells|, FirstCell(front, |cells|, repaired);
            var i, next := Around(first, k, size), Around(first, k + 1, size);
            && Remainder(i + 1, size) == next == Around(i, 1, size)
            && (next == StopCell(rear, size, repaired) <==> k + 1 == |LiveCells(front, rear, cells)|)
  {
    var first := FirstCell(front, |cells|, repaired);
    AroundStep(first, k, |cells|);
    AroundStep(Around(first, k, |cells|), 0, |cells|);
    LoopStops(front, rear, cells, repaired, k + 1);
  }

  lemma StoreNothing(cells: seq<int>, i: nat, text: string)
    requires i < |cells|
    ensures Store(cells, i, 0, text) == cells
  {
  }

  /** How many cells are live depends on the two positions only. */
  lemma SameCount(front: nat, rear: nat, cells: seq<int>, others: seq<int>)
    requires front < |cells| == |others| && rear < |cells|
    ensures |LiveCells(front, rear, cells)| == |LiveCells(front, rear, others)|
  {
  }

  lemma HeaderReadsBack(front: nat, rear: nat, body: string, oldFront: int, oldRear: int)
    ensures ScanHeader(PrintHeader(front, rear) + body, oldFront, oldRear) == Header(front, rear, "\n" + body)
  {
    hide ScanInt;
    var second := Print(rear) + ("\n" + body);
    assert PrintHeader(front, rear) + body == Print(front) + (" " + second);
    ScanPrinted(front, " " + second);
    ScanAfterSpace(' ', second);
    ScanPrinted(rear, "\n" + body);
  }

  /** Save one ring and load it over another: the positions and the elements that come back. */
  method Reload(r: Ring, over: Ring, repaired: bool)
    requires r.Valid() && over.Valid() && r != over && r.queue != over.queue
    requires over.queue.Length == r.queue.Length && (repaired ==> r.queue.Length > 1)
    modifies over, over.queue
    ensures over.Valid() && over.front == r.front && over.rear == r.rear
    ensures over.Contents() == Restored(r.front, r.rear, r.queue[..], old(over.queue[..]), repaired)
    ensures repaired ==> over.Contents() == r.Contents()
  {
    hide ScanHeader, ScanInt, Print, Store, PrintCells, PrintHeader;
    var file := SaveQueueToFile(r, repaired);
    ghost var i, n := FirstCell(r.front, r.queue.Length, repaired), |r.Contents()|;
    ghost var saved := Stretch(r.queue[..], i, n);
    HeaderReadsBack(r.front, r.rear, PrintCells(saved), over.front, over.rear);
    LoadedCells(over.queue[..], i, n, saved);
    SameCount(r.front, r.rear, r.queue[..], over.queue[..]);
    LoadQueueFromFile(file, over, repaired);
    SameCount(r.front, r.rear, r.queue[..], over.queue[..]);
    if repaired {
      RepairedRestores(r.front, r.rear, r.queue[..], old(over.queue[..]));
    }
  }
}
