/**
 The bounded queue of tickets: a circular array with a dead slot at `front`.
 The live elements are the cells front+1 .. rear, modulo the array's length.
 */
module RingQueue {

  import opened Options

  /** The live cells of a ring, oldest first. */
  function LiveCells(front: nat, rear: nat, cells: seq<int>): (s: seq<int>)
    requires front < |cells| && rear < |cells|
    ensures |s| < |cells|
  {
    if front <= rear then cells[front + 1..rear + 1]
    else cells[front + 1..] + cells[..rear + 1]
  }

  /** One step around the ring, without the remainder. */
  lemma StepAround(x: nat, size: nat)
    requires x < size
    ensures (x + 1) % size == if x + 1 == size then 0 else x + 1
  {
  }

  /** The number of live cells is the distance from `front` to `rear` around the ring. */
  lemma LiveCount(front: nat, rear: nat, cells: seq<int>)
    requires front < |cells| && rear < |cells|
    ensures |LiveCells(front, rear, cells)| == (rear - front) % |cells|
  {
  }

  /** The master's test for a full queue says that every cell but the dead one is live. */
  lemma FullExactly(front: nat, rear: nat, cells: seq<int>)
    requires front < |cells| && rear < |cells|
    ensures (rear + 1) % |cells| == front <==> |LiveCells(front, rear, cells)| == |cells| - 1
  {
  }

  /** The k-th live element sits k+1 cells after the dead slot. */
  lemma LiveAt(front: nat, rear: nat, cells: seq<int>, k: nat)
    requires front < |cells| && rear < |cells|
    requires k < |LiveCells(front, rear, cells)|
    ensures var i := front + 1 + k;
            LiveCells(front, rear, cells)[k] == cells[if i < |cells| then i else i - |cells|]
  {
  }

  /**
   What the position scan as written computes: it walks the cells front .. rear without
   wrapping, starting on the dead slot, and counts from one.
   */
  function LinearScan(front: nat, rear: nat, cells: seq<int>, ticket: int): Option<nat>
    requires front < |cells| && rear < |cells|
  {
    if front <= rear then
      var r := IndexOf(cells[front..rear + 1], ticket);
      if r.None? then None else Some(r.value + 1)
    else None
  }

  /** What the scan is meant to compute: the one-based place of the ticket in the queue. */
  function Position(queue: seq<int>, ticket: int): Option<nat> {
    var r := IndexOf(queue, ticket);
    if r.None? then None else Some(r.value + 1)
  }

  /** A place is where the ticket stands, and a ticket without one is not in the queue. */
  lemma PositionFinds(queue: seq<int>, ticket: int)
    ensures match Position(queue, ticket)
            case Some(p) => 1 <= p <= |queue| && queue[p - 1] == ticket && ticket !in queue[..p - 1]
            case None => ticket !in queue
  {
  }

  /**
   How far the scan as written is off. A ticket still in the dead slot is reported first in
   line, any other queued ticket one place too far back, and once the ring has wrapped
   nothing is found at all.
   */
  lemma LinearScanError(front: nat, rear: nat, cells: seq<int>, ticket: int)
    requires front < |cells| && rear < |cells|
    ensures var q := LiveCells(front, rear, cells);
            LinearScan(front, rear, cells, ticket) ==
            if rear < front then None
            else if cells[front] == ticket then Some(1)
            else if Position(q, ticket).None? then None
            else Some(Position(q, ticket).value + 1)
  {
  }

  /**
   The scan as written is right exactly for a ticket that is in neither the queue nor an
   inspected dead slot, and for the head of an unwrapped queue whose dead slot still holds
   an equal ticket.
   */
  lemma LinearScanCorrectExactlyWhen(front: nat, rear: nat, cells: seq<int>, ticket: int)
    requires front < |cells| && rear < |cells|
    ensures var q := LiveCells(front, rear, cells);
            LinearScan(front, rear, cells, ticket) == Position(q, ticket)
            <==>
            if ticket in q then front <= rear && cells[front] == ticket && q[0] == ticket
            else rear < front || cells[front] != ticket
  {
  }

  class Ring {
    var front: int
    var rear: int
    const queue: array<int>

    ghost predicate Valid()
      reads this
    {
      0 <= front < queue.Length && 0 <= rear < queue.Length
    }

    ghost function Contents(): (s: seq<int>)
      requires Valid()
      reads this, queue
      ensures |s| < queue.Length
    {
      LiveCells(front, rear, queue[..])
    }

    /** What is left in the dead slot. */
    ghost function DeadCell(): int
      requires Valid()
      reads this, queue
    {
      queue[front]
    }

    constructor (size: nat)
      requires size > 0
      ensures Valid() && fresh(queue) && queue.Length == size
      ensures front == rear == 0
      ensures Contents() == [] && DeadCell() == 0
    {
      queue := new int[size](_ => 0);
      front, rear := 0, 0;
    }

    /**
     Appends the ticket. On a full ring the advance of `rear` is rolled back and nothing
     changes at all.
     */
    method Insert(ticket: int)
      requires Valid()
      modifies this`rear, queue
      ensures Valid() && DeadCell() == old(DeadCell())
      ensures |old(Contents())| < queue.Length - 1 ==> Contents() == old(Contents()) + [ticket]
      ensures |old(Contents())| == queue.Length - 1 ==>
                rear == old(rear) && queue[..] == old(queue[..]) && Contents() == old(Contents())
    {
      StepAround(rear, queue.Length);
      rear := (rear + 1) % queue.Length;
      if rear == front {
        if rear == 0 {
          rear := queue.Length - 1;
        } else {
          rear := rear - 1;
        }
      } else {
        queue[rear] := ticket;
        assert Contents() == old(Contents()) + [ticket];
      }
    }

    /** Removes the oldest ticket. An empty ring yields no value and is left alone. */
    method Delete() returns (ticket: Option<int>)
      requires Valid()
      modifies this`front
      ensures Valid()
      ensures old(Contents()) == [] ==> ticket.None? && front == old(front)
      ensures old(Contents()) != [] ==>
                && ticket == Some(old(Contents())[0]) && Contents() == old(Contents())[1..]
                && DeadCell() == old(Contents())[0]
    {
      if front == rear {
        ticket := None;
      } else {
        StepAround(front, queue.Length);
        front := (front + 1) % queue.Length;
        ticket := Some(queue[front]);
        assert Contents() == old(Contents())[1..];
      }
    }

    /** The scan as written. */
    method ScanPosition(ticket: int) returns (r: Option<nat>)
      requires Valid()
      ensures r == LinearScan(front, rear, queue[..], ticket)
    {
      var i, pos := front, 1;
      while i <= rear
        invariant front <= i && (i <= rear + 1 || i == front)
        invariant pos == i - front + 1
        invariant i <= rear + 1 ==> ticket !in queue[front..i]
      {
        if queue[i] == ticket {
          IndexOfUnique(queue[..][front..rear + 1], ticket, i - front) by {
            assert queue[..][front..rear + 1][..i - front] == queue[front..i];
          }
          return Some(pos);
        }
        i, pos := i + 1, pos + 1;
      }
      assert front <= rear ==> queue[..][front..rear + 1] == queue[front..i];
      return None;
    }

    /** The scan repaired: it starts behind the dead slot and follows the ring around. */
    method KnowPosition(ticket: int) returns (r: Option<nat>)
      requires Valid()
      ensures r == Position(Contents(), ticket)
    {
      var i, pos := front, 0;
      ghost var q := Contents();
      while i != rear
        invariant 0 <= pos <= |q|
        invariant i == if front + pos < queue.Length then front + pos else front + pos - queue.Length
        invariant i == rear ==> pos == |q|
        invariant ticket !in q[..pos]
        decreases |q| - pos
      {
        StepAround(i, queue.Length);
        i, pos := (i + 1) % queue.Length, pos + 1;
        LiveAt(front, rear, queue[..], pos - 1);
        if queue[i] == ticket {
          IndexOfUnique(q, ticket, pos - 1);
          return Some(pos);
        }
        assert q[..pos] == q[..pos - 1] + [q[pos - 1]];
      }
      assert q[..pos] == q;
      return None;
    }
  }
}
