/**
 The hash map as memory that several threads read and write without a lock. A node's key and
 link never change after it is published; insertion publishes a node in front of its chain
 with one write to the chain's head; statuses are overwritten in place. There is a single
 inserting thread, so nothing happens to a chain's head between the inserter's read and write.
 Memory is an interleaving of atomic reads and writes.
 */
module SharedChains {

  import opened Options
  import opened ChainedMap

  datatype Node = Node(key: int, status: int, next: Option<nat>)

  /** `heads` holds one address per bucket; an address is an index into `nodes`. */
  datatype Memory = Memory(heads: seq<Option<nat>>, nodes: seq<Node>)

  predicate Points(p: Option<nat>, limit: nat) {
    p.Some? ==> p.value < limit
  }

  /** Links lead to older nodes, so every chain ends. */
  ghost predicate Closed(nodes: seq<Node>) {
    forall a :: 0 <= a < |nodes| ==> Points(nodes[a].next, a)
  }

  /** The addresses met by following the links from p. */
  ghost function Addresses(nodes: seq<Node>, p: Option<nat>): (s: seq<nat>)
    requires Closed(nodes) && Points(p, |nodes|)
    ensures forall a :: a in s ==> a < |nodes| && p.Some? && a <= p.value
    decreases if p.Some? then p.value + 1 else 0
  {
    if p.None? then [] else [p.value] + Addresses(nodes, nodes[p.value].next)
  }

  /** Every node is in its own bucket's chain, and the chains hold nothing else. */
  ghost predicate WellFormed(m: Memory) {
    && |m.heads| == SIZE && Closed(m.nodes)
    && (forall b :: 0 <= b < SIZE ==> Points(m.heads[b], |m.nodes|))
    && (forall b, a :: 0 <= b < SIZE && 0 <= a < |m.nodes| ==>
          (a in Addresses(m.nodes, m.heads[b]) <==> Hash(m.nodes[a].key) == b))
    && (forall a :: 0 <= a < |m.nodes| ==> 0 <= Hash(m.nodes[a].key))
  }

  // ---------- What the other threads do ----------

  datatype Event = Publish(key: int, status: int) | Write(address: nat, status: int)

  predicate Possible(m: Memory, e: Event) {
    match e
    case Publish(key, _) => |m.heads| == SIZE && 0 <= Hash(key)
    case Write(a, _) => a < |m.nodes|
  }

  function Do(m: Memory, e: Event): Memory
    requires Possible(m, e)
  {
    match e
    case Publish(key, status) =>
      Memory(m.heads[Hash(key) := Some(|m.nodes|)], m.nodes + [Node(key, status, m.heads[Hash(key)])])
    case Write(a, status) =>
      m.(nodes := m.nodes[a := m.nodes[a].(status := status)])
  }

  /** Old nodes keep their keys and links. */
  ghost predicate SameLinks(nodes: seq<Node>, later: seq<Node>) {
    && |nodes| <= |later|
    && forall a :: 0 <= a < |nodes| ==> later[a].key == nodes[a].key && later[a].next == nodes[a].next
  }

  lemma {:induction false} AddressesKept(nodes: seq<Node>, later: seq<Node>, p: Option<nat>)
    requires Closed(nodes) && Closed(later) && SameLinks(nodes, later) && Points(p, |nodes|)
    ensures Addresses(later, p) == Addresses(nodes, p)
    decreases if p.Some? then p.value + 1 else 0
  {
    if p.Some? {
      AddressesKept(nodes, later, nodes[p.value].next);
    }
  }

  lemma DoKeepsLinks(m: Memory, e: Event)
    requires WellFormed(m) && Possible(m, e)
    ensures SameLinks(m.nodes, Do(m, e).nodes) && Closed(Do(m, e).nodes)
  {
  }

  lemma DoWellFormed(m: Memory, e: Event)
    requires WellFormed(m) && Possible(m, e)
    ensures WellFormed(Do(m, e))
  {
    var r := Do(m, e);
    DoKeepsLinks(m, e);
    forall b, a | 0 <= b < SIZE && 0 <= a < |r.nodes|
      ensures a in Addresses(r.nodes, r.heads[b]) <==> Hash(r.nodes[a].key) == b
    {
      AddressesKept(m.nodes, r.nodes, m.heads[b]);
      if a == |m.nodes| {
        assert a !in Addresses(m.nodes, m.heads[b]);
      }
    }
  }

  // ---------- Atomic lookups and updates ----------

  /** The address of the first node with the key. */
  ghost function Search(nodes: seq<Node>, p: Option<nat>, key: int): (r: Option<nat>)
    requires Closed(nodes) && Points(p, |nodes|)
    ensures r.Some? ==> r.value < |nodes| && nodes[r.value].key == key
    decreases if p.Some? then p.value + 1 else 0
  {
    if p.None? then None
    else if nodes[p.value].key == key then p
    else Search(nodes, nodes[p.value].next, key)
  }

  ghost function Target(m: Memory, key: int): Option<nat>
    requires WellFormed(m) && 0 <= Hash(key)
  {
    Search(m.nodes, m.heads[Hash(key)], key)
  }

  /** update_status as one indivisible step. */
  ghost function AtomicUpdate(m: Memory, key: int, status: int): Memory
    requires WellFormed(m) && 0 <= Hash(key)
  {
    var t := Target(m, key);
    if t.Some? then Do(m, Write(t.value, status)) else m
  }

  /** know_status as one indivisible step. */
  ghost function AtomicKnow(m: Memory, key: int): int
    requires WellFormed(m) && 0 <= Hash(key)
  {
    var t := Target(m, key);
    if t.Some? then m.nodes[t.value].status else -1
  }

  lemma {:induction false} SearchKept(nodes: seq<Node>, later: seq<Node>, p: Option<nat>, key: int)
    requires Closed(nodes) && Closed(later) && SameLinks(nodes, later) && Points(p, |nodes|)
    ensures Search(later, p, key) == Search(nodes, p, key)
    decreases if p.Some? then p.value + 1 else 0
  {
    if p.Some? {
      SearchKept(nodes, later, nodes[p.value].next, key);
    }
  }

  /** Only publishing the key itself changes which node a lookup finds. */
  lemma TargetKept(m: Memory, e: Event, key: int)
    requires WellFormed(m) && Possible(m, e) && 0 <= Hash(key)
    requires e.Publish? ==> e.key != key
    ensures WellFormed(Do(m, e)) && Target(Do(m, e), key) == Target(m, key)
  {
    DoWellFormed(m, e);
    DoKeepsLinks(m, e);
    SearchKept(m.nodes, Do(m, e).nodes, m.heads[Hash(key)], key);
  }

  // ---------- The memory stands for the chains ----------

  ghost function Along(nodes: seq<Node>, p: Option<nat>): Chain
    requires Closed(nodes) && Points(p, |nodes|)
    decreases if p.Some? then p.value + 1 else 0
  {
    if p.None? then []
    else [Pair(nodes[p.value].key, nodes[p.value].status)] + Along(nodes, nodes[p.value].next)
  }

  ghost function View(m: Memory): (v: seq<Chain>)
    requires WellFormed(m)
    ensures |v| == SIZE
  {
    seq(SIZE, b requires 0 <= b < SIZE => Along(m.nodes, m.heads[b]))
  }

  lemma {:induction false} AlongKept(nodes: seq<Node>, later: seq<Node>, p: Option<nat>)
    requires Closed(nodes) && Closed(later) && SameLinks(nodes, later) && Points(p, |nodes|)
    requires forall a :: a in Addresses(nodes, p) ==> later[a].status == nodes[a].status
    ensures Along(later, p) == Along(nodes, p)
    decreases if p.Some? then p.value + 1 else 0
  {
    if p.Some? {
      AlongKept(nodes, later, nodes[p.value].next);
    }
  }

  lemma PublishIsInsert(m: Memory, key: int, status: int)
    requires WellFormed(m) && 0 <= Hash(key)
    ensures WellFormed(Do(m, Publish(key, status)))
    ensures View(Do(m, Publish(key, status))) == InsertPair(View(m), key, status)
  {
    var r := Do(m, Publish(key, status));
    DoWellFormed(m, Publish(key, status));
    forall b | 0 <= b < SIZE ensures View(r)[b] == InsertPair(View(m), key, status)[b] {
      AlongKept(m.nodes, r.nodes, m.heads[b]);
    }
  }

  lemma {:induction false} WriteAlong(nodes: seq<Node>, p: Option<nat>, key: int, status: int)
    requires Closed(nodes) && Points(p, |nodes|)
    ensures var t := Search(nodes, p, key);
            (t.None? ==> Overwrite(Along(nodes, p), key, status) == Along(nodes, p)) &&
            (t.Some? ==>
              var later := nodes[t.value := nodes[t.value].(status := status)];
              Closed(later) && t.value in Addresses(nodes, p) &&
              Along(later, p) == Overwrite(Along(nodes, p), key, status))
    decreases if p.Some? then p.value + 1 else 0
  {
    if p.Some? {
      var a, rest := p.value, nodes[p.value].next;
      assert Along(nodes, p)[1..] == Along(nodes, rest);
      if nodes[a].key == key {
        var later := nodes[a := nodes[a].(status := status)];
        AlongKept(nodes, later, rest);
      } else {
        WriteAlong(nodes, rest, key, status);
      }
    }
  }

  /** An indivisible update of the memory is an update of the chains. */
  lemma AtomicUpdateIsUpdate(m: Memory, key: int, status: int)
    requires WellFormed(m) && 0 <= Hash(key)
    ensures WellFormed(AtomicUpdate(m, key, status))
    ensures View(AtomicUpdate(m, key, status)) == UpdatePair(View(m), key, status)
  {
    var t, r := Target(m, key), AtomicUpdate(m, key, status);
    WriteAlong(m.nodes, m.heads[Hash(key)], key, status);
    if t.Some? {
      DoWellFormed(m, Write(t.value, status));
      forall b | 0 <= b < SIZE ensures View(r)[b] == UpdatePair(View(m), key, status)[b] {
        if b != Hash(key) {
          AlongKept(m.nodes, r.nodes, m.heads[b]);
        }
      }
    }
  }

  lemma {:induction false} SearchIsFind(nodes: seq<Node>, p: Option<nat>, key: int)
    requires Closed(nodes) && Points(p, |nodes|)
    ensures var t := Search(nodes, p, key);
            Find(Along(nodes, p), key) == if t.Some? then Some(nodes[t.value].status) else None
    decreases if p.Some? then p.value + 1 else 0
  {
    if p.Some? {
      SearchIsFind(nodes, nodes[p.value].next, key);
      assert Along(nodes, p)[1..] == Along(nodes, nodes[p.value].next);
    }
  }

  /** An indivisible query of the memory is a lookup in the chains. */
  lemma AtomicKnowIsLookup(m: Memory, key: int)
    requires WellFormed(m) && 0 <= Hash(key)
    ensures AtomicKnow(m, key) == match Lookup(View(m), key) case Some(status) => status case None => -1
  {
    SearchIsFind(m.nodes, m.heads[Hash(key)], key);
  }

  // ---------- Every table has a memory ----------

  /** The memory before the first insertion. */
  function EmptyMemory(): Memory {
    Memory(seq(SIZE, _ => None), [])
  }

  lemma EmptyIsWellFormed()
    ensures WellFormed(EmptyMemory())
    ensures forall b :: 0 <= b < SIZE ==> View(EmptyMemory())[b] == []
  {
  }

  /** The memory after a run of indivisible insertions and updates. */
  ghost function MemoryAfter(ops: seq<Op>): (m: Memory)
    requires InTable(ops)
    ensures WellFormed(m)
  {
    if ops == [] then EmptyIsWellFormed(); EmptyMemory()
    else
      var before, op := MemoryAfter(ops[..|ops| - 1]), ops[|ops| - 1];
      match op
      case Insertion(key, status) => DoWellFormed(before, Publish(key, status)); Do(before, Publish(key, status))
      case StatusUpdate(key, status) => AtomicUpdateIsUpdate(before, key, status); AtomicUpdate(before, key, status)
  }

  /**
   The two models of the chains agree: after any operations the memory stands for the same
   buckets as the linked nodes of the heap, whose methods follow the same operations.
   */
  lemma {:induction false} MemoryRefinesBuckets(empty: seq<Chain>, ops: seq<Op>)
    requires |empty| == SIZE && InTable(ops)
    requires forall b :: 0 <= b < SIZE ==> empty[b] == []
    ensures View(MemoryAfter(ops)) == ApplyAll(empty, ops)
  {
    if ops == [] {
      EmptyIsWellFormed();
    } else {
      MemoryRefinesBuckets(empty, ops[..|ops| - 1]);
      var before := MemoryAfter(ops[..|ops| - 1]);
      match ops[|ops| - 1]
      case Insertion(key, status) => PublishIsInsert(before, key, status);
      case StatusUpdate(key, status) => AtomicUpdateIsUpdate(before, key, status);
    }
  }
}
