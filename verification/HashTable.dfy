/** The hash map on the heap: linked chains changed in place through `slots` and `status`. */
module HashTable {

  import opened Options
  import opened ChainedMap

  class KeyValuePair {
    const key: int
    var status: int
    var next: KeyValuePair?

    constructor (key: int, status: int)
      ensures this.key == key && this.status == status && next == null
    {
      this.key, this.status, this.next := key, status, null;
    }
  }

  function Nth(nodes: seq<KeyValuePair>, i: nat): KeyValuePair? {
    if i < |nodes| then nodes[i] else null
  }

  /**
   The chain hanging from `head` runs through exactly these nodes, once each, and they hold
   these bindings.
   */
  ghost predicate Holds(head: KeyValuePair?, nodes: seq<KeyValuePair>, chain: Chain)
    reads set n | n in nodes
  {
    && head == Nth(nodes, 0)
    && Distinct(nodes)
    && |chain| == |nodes|
    && (forall i {:trigger nodes[i].next} :: 0 <= i < |nodes| ==> nodes[i].next == Nth(nodes, i + 1))
    && (forall i {:trigger chain[i]} {:trigger nodes[i].status} :: 0 <= i < |nodes| ==>
          chain[i] == Pair(nodes[i].key, nodes[i].status))
  }

  /** Writing the status of the first node with a key is an overwrite of the chain. */
  lemma {:induction false} OverwriteAt(chain: Chain, key: int, status: int, i: nat)
    requires i < |chain| && chain[i].key == key
    requires forall j :: 0 <= j < i ==> chain[j].key != key
    ensures Overwrite(chain, key, status) == chain[i := Pair(key, status)]
    ensures Find(chain, key) == Some(chain[i].status)
  {
    if i > 0 {
      OverwriteAt(chain[1..], key, status, i - 1);
      assert chain == [chain[0]] + chain[1..];
    }
  }

  lemma {:induction false} FindAbsent(chain: Chain, key: int, status: int)
    requires forall j :: 0 <= j < |chain| ==> chain[j].key != key
    ensures Find(chain, key) == None && Overwrite(chain, key, status) == chain
  {
    if chain != [] {
      FindAbsent(chain[1..], key, status);
    }
  }

  class HashMap {
    const slots: array<KeyValuePair?>
    // the nodes of each chain, newest first, and the bindings they hold
    ghost var chains: seq<seq<KeyValuePair>>
    ghost var buckets: seq<Chain>
    ghost var Repr: set<KeyValuePair>

    ghost predicate Valid()
      reads this, slots, Repr
    {
      && slots.Length == SIZE && |chains| == SIZE
      && WellHashed(buckets)
      && forall b :: 0 <= b < SIZE ==>
           && (forall n :: n in chains[b] ==> n in Repr)
           && Holds(slots[b], chains[b], buckets[b])
    }

    constructor ()
      ensures Valid() && fresh(slots) && Repr == {}
      ensures buckets == seq(SIZE, _ => [])
    {
      slots := new KeyValuePair?[SIZE](_ => null);
      chains, buckets, Repr := seq(SIZE, _ => []), seq(SIZE, _ => []), {};
    }

    /** Nodes of different chains differ, since every key sits in its own bucket. */
    lemma ChainsDisjoint(b: nat, c: nat, i: nat, j: nat)
      requires Valid() && b < SIZE && c < SIZE && b != c
      requires i < |chains[b]| && j < |chains[c]|
      ensures chains[b][i] != chains[c][j]
    {
      assert Hash(buckets[b][i].key) == b;
      assert Hash(buckets[c][j].key) == c;
    }

    /** Prepends a binding to the chain of the key's bucket. */
    method Insert(key: int, status: int)
      requires Valid() && 0 <= Hash(key)
      modifies this, slots
      ensures Valid() && fresh(Repr - old(Repr)) && old(Repr) <= Repr
      ensures buckets == InsertPair(old(buckets), key, status)
    {
      var index := Hash(key);
      var newPair := new KeyValuePair(key, status);
      if slots[index] == null {
        slots[index] := newPair;
      } else {
        newPair.next := slots[index];
        slots[index] := newPair;
      }
      ghost var grown := InsertPair(buckets, key, status);
      assert WellHashed(grown) by { ModelAfterInsert(buckets, key, status); }
      assert Holds(newPair, [newPair] + chains[index], grown[index]);
      Repr := Repr + {newPair};
      chains := chains[index := [newPair] + chains[index]];
      buckets := grown;
    }

    /** Overwrites the newest binding of the key; reports 1 when there is none. */
    method UpdateStatus(key: int, status: int) returns (r: int)
      requires Valid() && 0 <= Hash(key)
      modifies this`buckets, Repr`status
      ensures Valid() && Repr == old(Repr)
      ensures buckets == UpdatePair(old(buckets), key, status)
      ensures r == if Lookup(old(buckets), key).Some? then 0 else 1
    {
      var index := Hash(key);
      var current := slots[index];
      ghost var nodes, i := chains[index], 0;
      while current != null
        invariant 0 <= i <= |nodes| && current == Nth(nodes, i)
        invariant forall j :: 0 <= j < i ==> nodes[j].key != key
        decreases |nodes| - i
      {
        if current.key == key {
          OverwriteAt(buckets[index], key, status, i);
          current.status := status;
          buckets := UpdatePair(buckets, key, status);
          assert WellHashed(buckets) by { ModelAfterUpdate(old(buckets), key, status); }
          return 0;
        }
        current, i := current.next, i + 1;
      }
      FindAbsent(buckets[index], key, status);
      assert UpdatePair(buckets, key, status) == buckets;
      return 1;
    }

    /** The newest status of the key, or -1 when it has none. */
    method KnowStatus(key: int) returns (r: int)
      requires Valid() && 0 <= Hash(key)
      ensures r == match Lookup(buckets, key) case Some(status) => status case None => -1
    {
      var index := Hash(key);
      var current := slots[index];
      ghost var nodes, i := chains[index], 0;
      while current != null
        invariant 0 <= i <= |nodes| && current == Nth(nodes, i)
        invariant forall j :: 0 <= j < i ==> nodes[j].key != key
        decreases |nodes| - i
      {
        if current.key == key {
          OverwriteAt(buckets[index], key, 0, i);
          return current.status;
        }
        current, i := current.next, i + 1;
      }
      FindAbsent(buckets[index], key, 0);
      return -1;
    }
  }
}
