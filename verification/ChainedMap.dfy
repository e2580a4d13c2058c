/**
 The chained hash map from tickets to grading statuses. A chain grows only by prepending,
 bindings are never removed, and inserting does not look for an earlier binding of the key.
 */
module ChainedMap {

  import opened Options

  const SIZE := 10

  /** C's remainder, which truncates toward zero. */
  function Hash(key: int): int {
    if key >= 0 then key % SIZE else -((-key) % SIZE)
  }

  /**
   C's law of the remainder: it differs from the key by a multiple of the size, is smaller
   than the size and has no other sign than the key. No other number meets these four.
   */
  lemma HashExactlyWhen(key: int, r: int)
    ensures r == Hash(key) <==>
            (key - r) % SIZE == 0 && -SIZE < r < SIZE && (key >= 0 ==> r >= 0) && (key <= 0 ==> r <= 0)
  {
  }

  /** The table may be indexed with a key exactly when the remainder is not negative. */
  lemma HashInTableExactlyWhen(key: int)
    ensures 0 <= Hash(key) < SIZE <==> key >= 0 || key % SIZE == 0
  {
  }

  datatype Pair = Pair(key: int, status: int)

  type Chain = seq<Pair>

  /** The newest binding of a key in a chain, which holds its newest binding first. */
  function Find(chain: Chain, key: int): Option<int> {
    if chain == [] then None
    else if chain[0].key == key then Some(chain[0].status)
    else Find(chain[1..], key)
  }

  /** The chain with the newest binding of `key` overwritten, if there is one. */
  function Overwrite(chain: Chain, key: int, status: int): Chain {
    if chain == [] then []
    else if chain[0].key == key then [Pair(key, status)] + chain[1..]
    else [chain[0]] + Overwrite(chain[1..], key, status)
  }

  ghost predicate WellHashed(buckets: seq<Chain>) {
    && |buckets| == SIZE
    && forall b, i :: 0 <= b < SIZE && 0 <= i < |buckets[b]| ==> Hash(buckets[b][i].key) == b
  }

  function InsertPair(buckets: seq<Chain>, key: int, status: int): seq<Chain>
    requires |buckets| == SIZE && 0 <= Hash(key)
  {
    var b := Hash(key);
    buckets[b := [Pair(key, status)] + buckets[b]]
  }

  function UpdatePair(buckets: seq<Chain>, key: int, status: int): seq<Chain>
    requires |buckets| == SIZE && 0 <= Hash(key)
  {
    var b := Hash(key);
    buckets[b := Overwrite(buckets[b], key, status)]
  }

  function Lookup(buckets: seq<Chain>, key: int): Option<int>
    requires |buckets| == SIZE && 0 <= Hash(key)
  {
    Find(buckets[Hash(key)], key)
  }

  // ---------- Newest-first lookup ----------

  lemma {:induction false} FindIffPresent(chain: Chain, key: int)
    ensures Find(chain, key).Some? <==> exists i :: 0 <= i < |chain| && chain[i].key == key
  {
    if chain != [] {
      FindIffPresent(chain[1..], key);
      if chain[0].key != key {
        if i :| 0 <= i < |chain| && chain[i].key == key {
          assert chain[1..][i - 1].key == key;
        }
        if j :| 0 <= j < |chain[1..]| && chain[1..][j].key == key {
          assert chain[j + 1].key == key;
        }
      }
    }
  }

  lemma {:induction false} FindAfterOverwrite(chain: Chain, key: int, status: int, other: int)
    ensures Find(Overwrite(chain, key, status), other) ==
            if other == key && Find(chain, key).Some? then Some(status) else Find(chain, other)
  {
    if chain != [] && chain[0].key != key {
      FindAfterOverwrite(chain[1..], key, status, other);
      assert Overwrite(chain, key, status)[1..] == Overwrite(chain[1..], key, status);
    }
  }

  lemma {:induction false} OverwriteKeepsKeys(chain: Chain, key: int, status: int)
    ensures |Overwrite(chain, key, status)| == |chain|
    ensures forall i :: 0 <= i < |chain| ==> Overwrite(chain, key, status)[i].key == chain[i].key
  {
    if chain != [] && chain[0].key != key {
      OverwriteKeepsKeys(chain[1..], key, status);
      var o := Overwrite(chain, key, status);
      forall i | 0 <= i < |chain| ensures o[i].key == chain[i].key {
        if i > 0 {
          assert o[i] == Overwrite(chain[1..], key, status)[i - 1];
        }
      }
    }
  }

  // ---------- Runs of insertions and updates, against one plain list ----------

  datatype Op = Insertion(key: int, status: int) | StatusUpdate(key: int, status: int)

  ghost predicate InTable(ops: seq<Op>) {
    forall i :: 0 <= i < |ops| ==> 0 <= Hash(ops[i].key)
  }

  function Apply(buckets: seq<Chain>, op: Op): (r: seq<Chain>)
    requires |buckets| == SIZE && 0 <= Hash(op.key)
    ensures |r| == SIZE
  {
    match op
    case Insertion(key, status) => InsertPair(buckets, key, status)
    case StatusUpdate(key, status) => UpdatePair(buckets, key, status)
  }

  /** The table after a run of operations, the last of which came last. */
  ghost function ApplyAll(buckets: seq<Chain>, ops: seq<Op>): (r: seq<Chain>)
    requires |buckets| == SIZE && InTable(ops)
    ensures |r| == SIZE
  {
    if ops == [] then buckets
    else Apply(ApplyAll(buckets, ops[..|ops| - 1]), ops[|ops| - 1])
  }

  /** The same operations on one list that ignores the hash. */
  function PlainList(ops: seq<Op>): Chain {
    if ops == [] then []
    else
      var before, op := PlainList(ops[..|ops| - 1]), ops[|ops| - 1];
      match op
      case Insertion(key, status) => [Pair(key, status)] + before
      case StatusUpdate(key, status) => Overwrite(before, key, status)
  }

  /** The part of a list that belongs in bucket `b`. */
  function InBucket(list: Chain, b: int): Chain {
    if list == [] then []
    else if Hash(list[0].key) == b then [list[0]] + InBucket(list[1..], b)
    else InBucket(list[1..], b)
  }

  lemma {:induction false} FindInBucket(list: Chain, key: int)
    ensures Find(InBucket(list, Hash(key)), key) == Find(list, key)
  {
    if list != [] {
      FindInBucket(list[1..], key);
      if Hash(list[0].key) == Hash(key) {
        assert InBucket(list, Hash(key))[1..] == InBucket(list[1..], Hash(key));
      }
    }
  }

  lemma {:induction false} OverwriteInBucket(list: Chain, key: int, status: int, b: int)
    ensures InBucket(Overwrite(list, key, status), b) ==
            if Hash(key) == b then Overwrite(InBucket(list, b), key, status) else InBucket(list, b)
  {
    if list != [] {
      var o := Overwrite(list, key, status);
      if list[0].key == key {
        assert o[1..] == list[1..];
        if Hash(key) == b {
          assert InBucket(list, b)[1..] == InBucket(list[1..], b);
        }
      } else {
        OverwriteInBucket(list[1..], key, status, b);
        assert o[1..] == Overwrite(list[1..], key, status);
        if Hash(list[0].key) == b {
          assert InBucket(list, b)[1..] == InBucket(list[1..], b);
        }
      }
    }
  }

  /**
   Refinement. Starting empty, after any run of insertions and updates every bucket is
   exactly the part of the plain newest-first list that hashes there.
   */
  lemma {:induction false} BucketsRefinePlainList(empty: seq<Chain>, ops: seq<Op>, b: nat)
    requires |empty| == SIZE && InTable(ops) && b < SIZE
    requires forall i :: 0 <= i < SIZE ==> empty[i] == []
    ensures ApplyAll(empty, ops)[b] == InBucket(PlainList(ops), b)
  {
    if ops != [] {
      var n := |ops| - 1;
      assert InTable(ops[..n]) by {
        forall i | 0 <= i < n ensures 0 <= Hash(ops[..n][i].key) {
          assert ops[..n][i] == ops[i];
        }
      }
      BucketsRefinePlainList(empty, ops[..n], b);
      match ops[n]
      case Insertion(key, status) =>
        assert ([Pair(key, status)] + PlainList(ops[..n]))[1..] == PlainList(ops[..n]);
      case StatusUpdate(key, status) =>
        OverwriteInBucket(PlainList(ops[..n]), key, status, b);
    }
  }

  /** So a lookup in the table is a lookup in the plain list, for every key. */
  lemma LookupRefinesPlainList(empty: seq<Chain>, ops: seq<Op>, key: int)
    requires |empty| == SIZE && InTable(ops) && 0 <= Hash(key)
    requires forall i :: 0 <= i < SIZE ==> empty[i] == []
    ensures Lookup(ApplyAll(empty, ops), key) == Find(PlainList(ops), key)
  {
    BucketsRefinePlainList(empty, ops, Hash(key));
    FindInBucket(PlainList(ops), key);
  }

  // ---------- The table seen as a finite map ----------

  function Keys(buckets: seq<Chain>): set<int> {
    set b, i | 0 <= b < |buckets| && 0 <= i < |buckets[b]| :: buckets[b][i].key
  }

  /** Every key with its newest status. */
  ghost function Model(buckets: seq<Chain>): map<int, int>
    requires WellHashed(buckets)
  {
    map k | k in Keys(buckets) && 0 <= Hash(k) && Lookup(buckets, k).Some? :: Lookup(buckets, k).value
  }

  lemma ModelIsLookup(buckets: seq<Chain>, key: int)
    requires WellHashed(buckets) && 0 <= Hash(key)
    ensures key in Model(buckets) <==> Lookup(buckets, key).Some?
    ensures key in Model(buckets) ==> Model(buckets)[key] == Lookup(buckets, key).value
  {
    var b := Hash(key);
    FindIffPresent(buckets[b], key);
    if Lookup(buckets, key).Some? {
      var i :| 0 <= i < |buckets[b]| && buckets[b][i].key == key;
      assert key in Keys(buckets);
    }
  }

  lemma ModelOfEmpty(buckets: seq<Chain>)
    requires |buckets| == SIZE && forall b :: 0 <= b < SIZE ==> buckets[b] == []
    ensures WellHashed(buckets) && Model(buckets) == map[]
  {
  }

  /** As a map, insertion rebinds the key and touches no other. */
  lemma ModelAfterInsert(buckets: seq<Chain>, key: int, status: int)
    requires WellHashed(buckets) && 0 <= Hash(key)
    ensures WellHashed(InsertPair(buckets, key, status))
    ensures Model(InsertPair(buckets, key, status)) == Model(buckets)[key := status]
  {
    var r: seq<Chain> := InsertPair(buckets, key, status);
    forall b, i | 0 <= b < SIZE && 0 <= i < |r[b]| ensures Hash(r[b][i].key) == b {
      if b == Hash(key) && i > 0 {
        assert r[b][i] == buckets[b][i - 1];
      }
    }
    var m := Model(buckets)[key := status];
    forall k | 0 <= Hash(k)
      ensures k in m <==> Lookup(r, k).Some?
      ensures k in m ==> m[k] == Lookup(r, k).value
    {
      ModelIsLookup(buckets, k);
      if Hash(k) == Hash(key) {
        assert r[Hash(k)][1..] == buckets[Hash(k)];
      }
    }
    SameModel(r, m);
  }

  /** As a map, an update rebinds a key that is there and otherwise does nothing. */
  lemma ModelAfterUpdate(buckets: seq<Chain>, key: int, status: int)
    requires WellHashed(buckets) && 0 <= Hash(key)
    ensures WellHashed(UpdatePair(buckets, key, status))
    ensures Model(UpdatePair(buckets, key, status)) ==
            if key in Model(buckets) then Model(buckets)[key := status] else Model(buckets)
  {
    var r: seq<Chain> := UpdatePair(buckets, key, status);
    OverwriteKeepsKeys(buckets[Hash(key)], key, status);
    ModelIsLookup(buckets, key);
    var m := if key in Model(buckets) then Model(buckets)[key := status] else Model(buckets);
    forall k | 0 <= Hash(k)
      ensures k in m <==> Lookup(r, k).Some?
      ensures k in m ==> m[k] == Lookup(r, k).value
    {
      ModelIsLookup(buckets, k);
      if Hash(k) == Hash(key) {
        FindAfterOverwrite(buckets[Hash(key)], key, status, k);
      }
    }
    SameModel(r, m);
  }

  /** A map that agrees with every lookup is the model. */
  lemma SameModel(buckets: seq<Chain>, m: map<int, int>)
    requires WellHashed(buckets)
    requires forall k :: k in m ==> 0 <= Hash(k)
    requires forall k :: 0 <= Hash(k) ==> (k in m <==> Lookup(buckets, k).Some?)
    requires forall k :: 0 <= Hash(k) && k in m ==> m[k] == Lookup(buckets, k).value
    ensures Model(buckets) == m
  {
    forall k | 0 <= Hash(k)
      ensures k in Model(buckets) <==> k in m
      ensures k in m ==> Model(buckets)[k] == m[k]
    {
      ModelIsLookup(buckets, k);
    }
  }
}
