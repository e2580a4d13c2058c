/**
 saveMapToFile step by step, without the lock, against threads that insert bindings and raise
 statuses between any two of its steps.
 */
module FuzzySnapshot {

  import opened Options
  import opened ChainedMap
  import opened SharedChains

  /** One written line, with the node it was read from. */
  datatype Line = Line(address: nat, key: int, status: int)

  /** The saver's place: its bucket, whether it has read that bucket's head, and the next node. */
  datatype Saver = Saver(bucket: nat, inChain: bool, p: Option<nat>, lines: seq<Line>)

  datatype Situation = Situation(m: Memory, s: Saver)

  datatype Move = Other(event: Event) | Own

  ghost predicate CanMove(x: Situation, move: Move) {
    match move
    case Other(e) =>
      // statuses only rise, as they do in the scheduler
      Possible(x.m, e) && (e.Write? ==> x.m.nodes[e.address].status <= e.status)
    case Own => x.s.bucket < SIZE && |x.m.heads| == SIZE && Points(x.s.p, |x.m.nodes|)
  }

  function SaveStep(m: Memory, s: Saver): Saver
    requires s.bucket < SIZE && |m.heads| == SIZE && Points(s.p, |m.nodes|)
  {
    if !s.inChain then s.(inChain := true, p := m.heads[s.bucket])
    else if s.p.None? then s.(bucket := s.bucket + 1, inChain := false)
    else
      var a := s.p.value;
      s.(lines := s.lines + [Line(a, m.nodes[a].key, m.nodes[a].status)], p := m.nodes[a].next)
  }

  ghost function MoveOn(x: Situation, move: Move): Situation
    requires CanMove(x, move)
  {
    match move
    case Other(e) => x.(m := Do(x.m, e))
    case Own => x.(s := SaveStep(x.m, x.s))
  }

  ghost predicate IsSave(x: Situation, moves: seq<Move>)
    decreases |moves|
  {
    moves == [] || (CanMove(x, moves[0]) && IsSave(MoveOn(x, moves[0]), moves[1..]))
  }

  ghost function Finish(x: Situation, moves: seq<Move>): Situation
    requires IsSave(x, moves)
    decreases |moves|
  {
    if moves == [] then x else Finish(MoveOn(x, moves[0]), moves[1..])
  }

  function Start(m: Memory): Situation {
    Situation(m, Saver(0, false, None, []))
  }

  // ---------- The invariant ----------

  /** Memory that the other threads have led from `start` to `m`. */
  ghost predicate Grown(start: Memory, m: Memory) {
    && WellFormed(start) && WellFormed(m)
    && SameLinks(start.nodes, m.nodes)
    && forall a :: 0 <= a < |start.nodes| ==> start.nodes[a].status <= m.nodes[a].status
  }

  /** A written line shows its node's key and a status between those at the start and now. */
  ghost predicate LineOk(start: Memory, m: Memory, l: Line) {
    && l.address < |m.nodes|
    && l.key == m.nodes[l.address].key
    && l.status <= m.nodes[l.address].status
    && (l.address < |start.nodes| ==> start.nodes[l.address].status <= l.status)
  }

  ghost predicate Written(lines: seq<Line>, a: nat) {
    exists i :: 0 <= i < |lines| && lines[i].address == a
  }

  ghost predicate PlaceOk(start: Memory, x: Situation) {
    var s := x.s;
    && Grown(start, x.m) && s.bucket <= SIZE && (s.bucket == SIZE ==> !s.inChain)
    && (!s.inChain ==> s.p.None?)
    && Points(s.p, |x.m.nodes|)
    && (s.p.Some? ==> Hash(x.m.nodes[s.p.value].key) == s.bucket)
  }

  /** Finished buckets come first, then the current one, from its newest node down. */
  ghost predicate LinesOk(start: Memory, x: Situation) {
    var s := x.s;
    && (forall i :: 0 <= i < |s.lines| ==> LineOk(start, x.m, s.lines[i]))
    && (forall i :: 0 <= i < |s.lines| ==>
          Hash(s.lines[i].key) < s.bucket || (Hash(s.lines[i].key) == s.bucket && s.inChain))
    && (forall i :: 0 <= i < |s.lines| && Hash(s.lines[i].key) == s.bucket && s.p.Some? ==>
          s.p.value < s.lines[i].address)
    && (forall i, j :: 0 <= i < j < |s.lines| ==> s.lines[i].address != s.lines[j].address)
  }

  /** Every node of the start that the saver has come past is written or still ahead. */
  ghost predicate Covered(start: Memory, x: Situation)
    requires PlaceOk(start, x)
  {
    var s := x.s;
    && (forall a :: 0 <= a < |start.nodes| && Hash(start.nodes[a].key) < s.bucket ==> Written(s.lines, a))
    && (s.inChain ==> forall a :: 0 <= a < |start.nodes| && Hash(start.nodes[a].key) == s.bucket ==>
          Written(s.lines, a) || a in Addresses(x.m.nodes, s.p))
  }

  ghost predicate SaveInv(start: Memory, x: Situation) {
    PlaceOk(start, x) && LinesOk(start, x) && Covered(start, x)
  }

  lemma OtherKeepsSaveInv(start: Memory, x: Situation, e: Event)
    requires SaveInv(start, x) && CanMove(x, Other(e))
    ensures SaveInv(start, MoveOn(x, Other(e)))
  {
    DoWellFormed(x.m, e);
    DoKeepsLinks(x.m, e);
    AddressesKept(x.m.nodes, Do(x.m, e).nodes, x.s.p);
  }

  lemma EnterKeepsSaveInv(start: Memory, x: Situation)
    requires SaveInv(start, x) && CanMove(x, Own) && !x.s.inChain
    ensures SaveInv(start, MoveOn(x, Own))
  {
    var b, head := x.s.bucket, x.m.heads[x.s.bucket];
    if head.Some? {
      assert head.value in Addresses(x.m.nodes, head);
    }
    forall a | 0 <= a < |start.nodes| && Hash(start.nodes[a].key) == b
      ensures a in Addresses(x.m.nodes, head)
    {
      assert Hash(x.m.nodes[a].key) == b;
    }
  }

  lemma LeaveKeepsSaveInv(start: Memory, x: Situation)
    requires SaveInv(start, x) && CanMove(x, Own) && x.s.inChain && x.s.p.None?
    ensures SaveInv(start, MoveOn(x, Own))
  {
    assert Addresses(x.m.nodes, x.s.p) == [];
  }

  lemma WriteLineKeepsPlace(start: Memory, x: Situation)
    requires PlaceOk(start, x) && CanMove(x, Own) && x.s.inChain && x.s.p.Some?
    ensures PlaceOk(start, MoveOn(x, Own))
  {
    if x.m.nodes[x.s.p.value].next.Some? {
      NextInSameBucket(x.m, x.s.p.value);
    }
  }

  lemma WriteLineKeepsLines(start: Memory, x: Situation)
    requires PlaceOk(start, x) && LinesOk(start, x) && CanMove(x, Own) && x.s.inChain && x.s.p.Some?
    ensures LinesOk(start, MoveOn(x, Own))
  {
  }

  lemma WriteLineKeepsCover(start: Memory, x: Situation)
    requires PlaceOk(start, x) && Covered(start, x) && CanMove(x, Own) && x.s.inChain && x.s.p.Some?
    requires PlaceOk(start, MoveOn(x, Own))
    ensures Covered(start, MoveOn(x, Own))
  {
    var s, a, r := x.s, x.s.p.value, SaveStep(x.m, x.s);
    forall c | Written(s.lines, c) ensures Written(r.lines, c) {
      var i :| 0 <= i < |s.lines| && s.lines[i].address == c;
      assert r.lines[i].address == c;
    }
    assert r.lines[|s.lines|].address == a;
    assert Addresses(x.m.nodes, s.p) == [a] + Addresses(x.m.nodes, r.p);
  }

  lemma WriteLineKeepsSaveInv(start: Memory, x: Situation)
    requires SaveInv(start, x) && CanMove(x, Own) && x.s.inChain && x.s.p.Some?
    ensures SaveInv(start, MoveOn(x, Own))
  {
    WriteLineKeepsPlace(start, x);
    WriteLineKeepsLines(start, x);
    WriteLineKeepsCover(start, x);
  }

  /** A link stays within its bucket. */
  lemma NextInSameBucket(m: Memory, a: nat)
    requires WellFormed(m) && a < |m.nodes| && m.nodes[a].next.Some?
    ensures Hash(m.nodes[m.nodes[a].next.value].key) == Hash(m.nodes[a].key)
  {
    var b := Hash(m.nodes[a].key);
    assert a in Addresses(m.nodes, m.heads[b]);
    SuccessorInChain(m.nodes, m.heads[b], a);
  }

  lemma {:induction false} SuccessorInChain(nodes: seq<Node>, p: Option<nat>, a: nat)
    requires Closed(nodes) && Points(p, |nodes|) && a in Addresses(nodes, p) && nodes[a].next.Some?
    ensures nodes[a].next.value in Addresses(nodes, p)
    decreases if p.Some? then p.value + 1 else 0
  {
    if p.value == a {
      assert nodes[a].next.value in Addresses(nodes, nodes[a].next);
    } else {
      SuccessorInChain(nodes, nodes[p.value].next, a);
    }
  }

  lemma OwnKeepsSaveInv(start: Memory, x: Situation)
    requires SaveInv(start, x) && CanMove(x, Own)
    ensures SaveInv(start, MoveOn(x, Own))
  {
    if !x.s.inChain {
      EnterKeepsSaveInv(start, x);
    } else if x.s.p.None? {
      LeaveKeepsSaveInv(start, x);
    } else {
      WriteLineKeepsSaveInv(start, x);
    }
  }

  lemma {:induction false} RunKeepsSaveInv(start: Memory, x: Situation, moves: seq<Move>)
    requires SaveInv(start, x) && IsSave(x, moves)
    ensures SaveInv(start, Finish(x, moves))
    decreases |moves|
  {
    if moves != [] {
      if moves[0].Other? {
        OtherKeepsSaveInv(start, x, moves[0].event);
      } else {
        OwnKeepsSaveInv(start, x);
      }
      RunKeepsSaveInv(start, MoveOn(x, moves[0]), moves[1..]);
    }
  }

  /**
   A finished save, whatever ran beside it: every node is written at most once, every node of
   the start is written, every written key is in the map at the end, and every written status
   lies between the node's statuses at the start and at the end.
   */
  lemma SnapshotSound(start: Memory, moves: seq<Move>)
    requires WellFormed(start) && IsSave(Start(start), moves)
    requires Finish(Start(start), moves).s.bucket == SIZE
    ensures var x := Finish(Start(start), moves);
            && Grown(start, x.m)
            && (forall i, j :: 0 <= i < j < |x.s.lines| ==> x.s.lines[i].address != x.s.lines[j].address)
            && (forall a :: 0 <= a < |start.nodes| ==> Written(x.s.lines, a))
            && (forall i :: 0 <= i < |x.s.lines| ==> LineOk(start, x.m, x.s.lines[i]))
  {
    RunKeepsSaveInv(start, Start(start), moves);
    assert forall a :: 0 <= a < |start.nodes| ==> 0 <= Hash(start.nodes[a].key) < SIZE;
  }

  function OwnMoves(moves: seq<Move>): nat {
    if moves == [] then 0 else (if moves[0].Own? then 1 else 0) + OwnMoves(moves[1..])
  }

  /** How far the saver is: two steps to enter and leave each bucket, and one for each line. */
  function StepsTaken(s: Saver): nat {
    2 * s.bucket + (if s.inChain then 1 else 0) + |s.lines|
  }

  lemma {:induction false} StepsAreOwnMoves(x: Situation, moves: seq<Move>)
    requires IsSave(x, moves)
    ensures StepsTaken(Finish(x, moves).s) == StepsTaken(x.s) + OwnMoves(moves)
    decreases |moves|
  {
    if moves != [] {
      StepsAreOwnMoves(MoveOn(x, moves[0]), moves[1..]);
    }
  }

  /** Distinct addresses of a memory are no more than it has nodes. */
  lemma {:induction false} AddressesFit(lines: seq<Line>, free: set<nat>)
    requires forall i :: 0 <= i < |lines| ==> lines[i].address in free
    requires forall i, j :: 0 <= i < j < |lines| ==> lines[i].address != lines[j].address
    ensures |lines| <= |free|
  {
    if lines != [] {
      AddressesFit(lines[1..], free - {lines[0].address});
    }
  }

  function Below(n: nat): (r: set<nat>)
    ensures |r| == n && forall a: nat :: a in r <==> a < n
  {
    if n == 0 then {} else Below(n - 1) + {n - 1}
  }

  /**
   A save ends. However many nodes are inserted beside it, it takes no more steps of its own
   than the memory has nodes plus two for each bucket, and until it has finished it can go on.
   */
  lemma SaveEnds(start: Memory, moves: seq<Move>)
    requires WellFormed(start) && IsSave(Start(start), moves)
    ensures var x := Finish(Start(start), moves);
            && OwnMoves(moves) <= |x.m.nodes| + 2 * SIZE
            && (x.s.bucket < SIZE ==> CanMove(x, Own))
  {
    RunKeepsSaveInv(start, Start(start), moves);
    StepsAreOwnMoves(Start(start), moves);
    var x := Finish(Start(start), moves);
    AddressesFit(x.s.lines, Below(|x.m.nodes|));
  }

  /**
   What may happen next at any moment of a save: any insertion, any write that does not lower
   a status, and the saver's own next step unless it has finished.
   */
  lemma SaveGoesOnExactlyWhen(start: Memory, moves: seq<Move>, next: Move)
    requires WellFormed(start) && IsSave(Start(start), moves)
    ensures var x := Finish(Start(start), moves);
            IsSave(Start(start), moves + [next]) <==>
            match next
            case Other(Publish(key, _)) => 0 <= Hash(key)
            case Other(Write(a, status)) => a < |x.m.nodes| && x.m.nodes[a].status <= status
            case Own => x.s.bucket < SIZE
  {
    RunKeepsSaveInv(start, Start(start), moves);
    SaveGrows(Start(start), moves, next);
  }

  lemma {:induction false} SaveGrows(x: Situation, moves: seq<Move>, next: Move)
    requires IsSave(x, moves)
    ensures IsSave(x, moves + [next]) <==> CanMove(Finish(x, moves), next)
    decreases |moves|
  {
    hide CanMove, MoveOn;
    if moves == [] {
      assert (moves + [next])[1..] == [];
    } else {
      assert (moves + [next])[1..] == moves[1..] + [next];
      SaveGrows(MoveOn(x, moves[0]), moves[1..], next);
    }
  }

  ghost predicate UniqueKeys(m: Memory) {
    forall a, c :: 0 <= a < c < |m.nodes| ==> m.nodes[a].key != m.nodes[c].key
  }

  /**
   With unique keys, read by key: the file has exactly one line for each key bound at the
   start, no line for a key not bound at the end, and each status lies between what
   indivisible queries would have said at the start and at the end.
   */
  lemma SnapshotByKey(start: Memory, moves: seq<Move>, key: int)
    requires WellFormed(start) && IsSave(Start(start), moves) && 0 <= Hash(key)
    requires var x := Finish(Start(start), moves); x.s.bucket == SIZE && UniqueKeys(x.m)
    ensures var x := Finish(Start(start), moves);
            && Grown(start, x.m)
            && (forall i, j :: 0 <= i < j < |x.s.lines| ==> x.s.lines[i].key != x.s.lines[j].key)
            && (Target(start, key).Some? ==> exists i :: 0 <= i < |x.s.lines| && x.s.lines[i].key == key)
            && (forall i :: 0 <= i < |x.s.lines| && x.s.lines[i].key == key ==>
                  && Target(x.m, key).Some?
                  && x.s.lines[i].status <= AtomicKnow(x.m, key)
                  && (Target(start, key).Some? ==> AtomicKnow(start, key) <= x.s.lines[i].status))
  {
    SnapshotSound(start, moves);
    var x := Finish(Start(start), moves);
    if Target(start, key).Some? {
      assert Written(x.s.lines, Target(start, key).value);
    }
    forall i | 0 <= i < |x.s.lines| && x.s.lines[i].key == key
      ensures Target(x.m, key) == Some(x.s.lines[i].address)
    {
      var a := x.s.lines[i].address;
      assert a in Addresses(x.m.nodes, x.m.heads[Hash(key)]);
      SearchFindsUnique(x.m.nodes, x.m.heads[Hash(key)], key, a);
    }
  }

  lemma {:induction false} SearchFindsUnique(nodes: seq<Node>, p: Option<nat>, key: int, a: nat)
    requires Closed(nodes) && Points(p, |nodes|) && a in Addresses(nodes, p) && nodes[a].key == key
    requires forall c :: 0 <= c < |nodes| && nodes[c].key == key ==> c == a
    ensures Search(nodes, p, key) == Some(a)
    decreases if p.Some? then p.value + 1 else 0
  {
    if nodes[p.value].key != key {
      SearchFindsUnique(nodes, nodes[p.value].next, key, a);
    }
  }
}
