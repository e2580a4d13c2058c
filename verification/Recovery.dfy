/** What a map loaded from a snapshot, taken while the server was running, knows. */
module Recovery {

  import opened Options
  import opened ChainedMap
  import opened HashTable
  import opened SharedChains
  import opened FuzzySnapshot
  import opened MapFile

  function LineBindings(lines: seq<Line>): (ps: Chain)
    ensures |ps| == |lines|
    ensures forall i :: 0 <= i < |lines| ==> ps[i] == Pair(lines[i].key, lines[i].status)
  {
    seq(|lines|, i requires 0 <= i < |lines| => Pair(lines[i].key, lines[i].status))
  }

  /** The last binding of a list is the last of its rest, or else the first. */
  lemma {:induction false} OldestFromFront(ps: Chain, key: int)
    requires ps != []
    ensures Oldest(ps, key) ==
            if Oldest(ps[1..], key).Some? then Oldest(ps[1..], key)
            else if ps[0].key == key then Some(ps[0].status) else None
  {
    if |ps| > 1 {
      var n := |ps| - 1;
      OldestFromFront(ps[..n], key);
      assert ps[..n][1..] == ps[1..][..n - 1];
    }
  }

  /** After inserting a list, the last binding of a key in the list counts. */
  lemma {:induction false} LookupAfterInsertAll(buckets: seq<Chain>, ps: Chain, key: int)
    requires |buckets| == SIZE && PairsInTable(ps) && 0 <= Hash(key)
    ensures Lookup(InsertAll(buckets, ps), key) ==
            if Oldest(ps, key).Some? then Oldest(ps, key) else Lookup(buckets, key)
    decreases |ps|
  {
    if ps != [] {
      assert forall i :: 0 <= i < |ps[1..]| ==> ps[1..][i] == ps[i + 1];
      var next := InsertPair(buckets, ps[0].key, ps[0].status);
      LookupAfterInsertAll(next, ps[1..], key);
      OldestFromFront(ps, key);
      if Hash(ps[0].key) == Hash(key) {
        assert next[Hash(key)][1..] == buckets[Hash(key)];
      }
    }
  }

  /** The map that a restarted server loads from the snapshot. */
  ghost function Restored(lines: seq<Line>, passes: nat): seq<Chain>
    requires Loadable(PrintPairs(LineBindings(lines)), passes)
  {
    LoadAll(EmptyBuckets(), PrintPairs(LineBindings(lines)), passes)
  }

  /** In the restored map a key has the status of its line, if it has one. */
  lemma RestoredLookup(lines: seq<Line>, passes: nat, key: int)
    requires passes > 0 && 0 <= Hash(key)
    requires forall i :: 0 <= i < |lines| ==> 0 <= Hash(lines[i].key)
    requires forall i, j :: 0 <= i < j < |lines| ==> lines[i].key != lines[j].key
    ensures Loadable(PrintPairs(LineBindings(lines)), passes)
    ensures forall i :: 0 <= i < |lines| && lines[i].key == key ==>
              Lookup(Restored(lines, passes), key) == Some(lines[i].status)
    ensures Lookup(Restored(lines, passes), key).Some? ==> exists i :: 0 <= i < |lines| && lines[i].key == key
  {
    hide LoadPass, PrintPairs;
    var ps := LineBindings(lines);
    FirstPassSuffices(EmptyBuckets(), ps, passes);
    LookupAfterInsertAll(EmptyBuckets(), ps, key);
    if i :| 0 <= i < |lines| && lines[i].key == key {
      OldestIsAt(ps, key, i);
    } else {
      OldestAbsent(ps, key);
    }
  }

  /**
   Recovery. However the server went on while the snapshot was taken, a map loaded from it
   knows every ticket that was bound at the start, knows no ticket that was not bound at the
   end, and gives each a status between those that indivisible queries would have returned at
   the start and at the end.
   */
  lemma SnapshotRecovers(start: Memory, moves: seq<Move>, passes: nat, key: int)
    requires WellFormed(start) && IsSave(Start(start), moves) && passes > 0 && 0 <= Hash(key)
    requires var x := Finish(Start(start), moves); x.s.bucket == SIZE && FuzzySnapshot.UniqueKeys(x.m)
    ensures var x := Finish(Start(start), moves);
            && WellFormed(x.m)
            && Loadable(PrintPairs(LineBindings(x.s.lines)), passes)
            && var known := Lookup(Restored(x.s.lines, passes), key);
            && (Target(start, key).Some? ==> known.Some? && AtomicKnow(start, key) <= known.value)
            && (known.Some? ==> Target(x.m, key).Some? && known.value <= AtomicKnow(x.m, key))
  {
    SnapshotSound(start, moves);
    SnapshotByKey(start, moves, key);
    RestoredLookup(Finish(Start(start), moves).s.lines, passes, key);
  }

  // ---------- A save that nothing interrupts ----------

  /** What is written and what is left of the current chain make up the saved order so far. */
  ghost predicate Halfway(m: Memory, s: Saver)
    requires WellFormed(m)
  {
    && s.bucket <= SIZE && (s.bucket == SIZE ==> !s.inChain) && (!s.inChain ==> s.p.None?)
    && Points(s.p, |m.nodes|)
    && LineBindings(s.lines) + Along(m.nodes, s.p) ==
       SaveOrder(View(m)[..if s.inChain then s.bucket + 1 else s.bucket])
  }

  lemma StepKeepsHalfway(m: Memory, s: Saver)
    requires WellFormed(m) && Halfway(m, s) && s.bucket < SIZE
    ensures Halfway(m, SaveStep(m, s))
  {
    hide SaveOrder;
    var r := SaveStep(m, s);
    if !s.inChain {
      SaveOrderGrows(View(m), s.bucket);
    } else if s.p.Some? {
      var a := m.nodes[s.p.value];
      assert LineBindings(r.lines) == LineBindings(s.lines) + [Pair(a.key, a.status)];
    }
  }

  lemma SaveOrderGrows(buckets: seq<Chain>, n: nat)
    requires n < |buckets|
    ensures SaveOrder(buckets[..n + 1]) == SaveOrder(buckets[..n]) + buckets[n]
  {
    assert buckets[..n + 1][..n] == buckets[..n];
  }

  lemma {:induction false} RunKeepsHalfway(x: Situation, moves: seq<Move>)
    requires WellFormed(x.m) && Halfway(x.m, x.s) && IsSave(x, moves)
    requires forall i :: 0 <= i < |moves| ==> moves[i].Own?
    ensures var y := Finish(x, moves); y.m == x.m && Halfway(x.m, y.s)
    decreases |moves|
  {
    if moves != [] {
      StepKeepsHalfway(x.m, x.s);
      RunKeepsHalfway(MoveOn(x, moves[0]), moves[1..]);
    }
  }

  /** A save during which nothing else happens writes the chains of the memory in the saved order. */
  lemma UninterruptedSave(m: Memory, moves: seq<Move>)
    requires WellFormed(m) && IsSave(Start(m), moves)
    requires forall i :: 0 <= i < |moves| ==> moves[i].Own?
    requires Finish(Start(m), moves).s.bucket == SIZE
    ensures Finish(Start(m), moves).m == m
    ensures LineBindings(Finish(Start(m), moves).s.lines) == SaveOrder(View(m))
  {
    RunKeepsHalfway(Start(m), moves);
    assert View(m)[..SIZE] == View(m);
  }

  // ---------- Every heap table has a memory ----------

  lemma {:induction false} PublishAll(m: Memory, ps: Chain) returns (r: Memory)
    requires WellFormed(m) && PairsInTable(ps)
    ensures WellFormed(r) && View(r) == InsertAll(View(m), ps)
    decreases |ps|
  {
    if ps == [] {
      r := m;
    } else {
      assert forall i :: 0 <= i < |ps[1..]| ==> ps[1..][i] == ps[i + 1];
      PublishIsInsert(m, ps[0].key, ps[0].status);
      r := PublishAll(Do(m, Publish(ps[0].key, ps[0].status)), ps[1..]);
    }
  }

  /** Whatever chains a heap table holds, there is a well-formed memory that stands for them. */
  lemma EveryTableHasMemory(m: HashMap) returns (memory: Memory)
    requires m.Valid()
    ensures WellFormed(memory) && View(memory) == m.buckets
  {
    TwoReloadsRestore(m.buckets);
    var once := Reloaded(m.buckets);
    EmptyIsWellFormed();
    assert View(EmptyMemory()) == EmptyBuckets();
    SaveOrderKeepsChains(once, SIZE, 0);
    assert once[..SIZE] == once;
    memory := PublishAll(EmptyMemory(), SaveOrder(once));
  }
}
