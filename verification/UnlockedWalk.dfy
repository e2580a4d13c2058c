/**
 update_status and know_status without the lock: they read the head of a chain, compare node
 by node, and in the end access one status, while other threads publish nodes and write
 statuses between any two of these steps.
 */
module UnlockedWalk {

  import opened Options
  import opened ChainedMap
  import opened SharedChains

  /** At(p): about to look at p, which is the end of the chain if None. Found(a): the key matched. */
  datatype Walk = At(p: Option<nat>) | Found(address: nat)

  datatype Move = Other(event: Event) | Own

  ghost predicate CanMove(m: Memory, w: Walk, move: Move) {
    match move
    case Other(e) => Possible(m, e)
    case Own => w.At? && w.p.Some? && w.p.value < |m.nodes|
  }

  /** One look: the key is compared, and unless it matches the link is followed. */
  function Look(m: Memory, w: Walk, key: int): Walk
    requires w.At? && w.p.Some? && w.p.value < |m.nodes|
  {
    if m.nodes[w.p.value].key == key then Found(w.p.value) else At(m.nodes[w.p.value].next)
  }

  datatype Situation = Situation(m: Memory, w: Walk)

  ghost predicate IsWalk(s: Situation, key: int, moves: seq<Move>)
    decreases |moves|
  {
    moves == [] || (CanMove(s.m, s.w, moves[0]) && IsWalk(MoveOn(s, key, moves[0]), key, moves[1..]))
  }

  ghost function MoveOn(s: Situation, key: int, move: Move): Situation
    requires CanMove(s.m, s.w, move)
  {
    match move
    case Other(e) => s.(m := Do(s.m, e))
    case Own => s.(w := Look(s.m, s.w, key))
  }

  ghost function Finish(s: Situation, key: int, moves: seq<Move>): Situation
    requires IsWalk(s, key, moves)
    decreases |moves|
  {
    if moves == [] then s else Finish(MoveOn(s, key, moves[0]), key, moves[1..])
  }

  ghost function OwnMoves(moves: seq<Move>): nat {
    if moves == [] then 0 else (if moves[0].Own? then 1 else 0) + OwnMoves(moves[1..])
  }

  /** No other thread inserts the key while the call is under way. */
  ghost predicate KeyNotInserted(moves: seq<Move>, key: int) {
    forall i :: 0 <= i < |moves| && moves[i].Other? && moves[i].event.Publish? ==> moves[i].event.key != key
  }

  /** The walk right after its read of the chain's head. */
  ghost function HeadRead(m: Memory, key: int): Situation
    requires WellFormed(m) && 0 <= Hash(key)
  {
    Situation(m, At(m.heads[Hash(key)]))
  }

  ghost predicate InMemory(s: Situation) {
    match s.w case At(p) => Points(p, |s.m.nodes|) case Found(a) => a < |s.m.nodes|
  }

  /** What the rest of the walk will find. */
  ghost function Ahead(s: Situation, key: int): Option<nat>
    requires Closed(s.m.nodes) && InMemory(s)
  {
    if s.w.Found? then Some(s.w.address) else Search(s.m.nodes, s.w.p, key)
  }

  /** How many nodes the walk may still look at. */
  ghost function LooksLeft(s: Situation): nat
    requires Closed(s.m.nodes) && InMemory(s)
  {
    if s.w.Found? then 0 else |Addresses(s.m.nodes, s.w.p)|
  }

  lemma {:induction false} WalkKeepsTarget(s: Situation, key: int, moves: seq<Move>)
    requires WellFormed(s.m) && 0 <= Hash(key) && IsWalk(s, key, moves)
    requires InMemory(s)
    ensures var t := Finish(s, key, moves);
            && WellFormed(t.m) && InMemory(t)
            && Ahead(t, key) == Ahead(s, key)
            && LooksLeft(t) + OwnMoves(moves) <= LooksLeft(s)
            && (KeyNotInserted(moves, key) ==> Target(t.m, key) == Target(s.m, key))
    decreases |moves|
  {
    if moves != [] {
      var n := MoveOn(s, key, moves[0]);
      if moves[0].Other? {
        DoWellFormed(s.m, moves[0].event);
        DoKeepsLinks(s.m, moves[0].event);
        if s.w.At? {
          SearchKept(s.m.nodes, n.m.nodes, s.w.p, key);
          AddressesKept(s.m.nodes, n.m.nodes, s.w.p);
        }
        if KeyNotInserted(moves, key) {
          TargetKept(s.m, moves[0].event, key);
        }
      }
      WalkKeepsTarget(n, key, moves[1..]);
      assert KeyNotInserted(moves, key) ==> KeyNotInserted(moves[1..], key) by {
        assert forall i :: 0 <= i < |moves| - 1 ==> moves[1..][i] == moves[i + 1];
      }
    }
  }

  /**
   What may happen next at any moment of a call: any insertion, any status write, and the next
   look of the walk unless it has ended.
   */
  lemma WalkGoesOnExactlyWhen(m: Memory, key: int, moves: seq<Move>, next: Move)
    requires WellFormed(m) && 0 <= Hash(key) && IsWalk(HeadRead(m, key), key, moves)
    ensures var t := Finish(HeadRead(m, key), key, moves);
            IsWalk(HeadRead(m, key), key, moves + [next]) <==>
            match next
            case Other(Publish(k, _)) => 0 <= Hash(k)
            case Other(Write(a, _)) => a < |t.m.nodes|
            case Own => t.w.At? && t.w != At(None)
  {
    WalkKeepsTarget(HeadRead(m, key), key, moves);
    WalkGrows(HeadRead(m, key), key, moves, next);
  }

  lemma {:induction false} WalkGrows(s: Situation, key: int, moves: seq<Move>, next: Move)
    requires IsWalk(s, key, moves)
    ensures IsWalk(s, key, moves + [next]) <==>
            var t := Finish(s, key, moves); CanMove(t.m, t.w, next)
    decreases |moves|
  {
    hide CanMove, MoveOn;
    if moves == [] {
      assert (moves + [next])[1..] == [];
    } else {
      assert (moves + [next])[1..] == moves[1..] + [next];
      WalkGrows(MoveOn(s, key, moves[0]), key, moves[1..], next);
    }
  }

  /**
   An unlocked update is linearizable. It ends with the key found exactly when the key was in
   the chain at the head read, after no more looks than the chain had nodes then, on the node
   an indivisible call at the head read would have written; and unless the key itself was
   inserted meanwhile, the write is an indivisible update_status at the moment it happens.
   */
  lemma UpdateLinearizes(m: Memory, key: int, moves: seq<Move>, status: int)
    requires WellFormed(m) && 0 <= Hash(key) && IsWalk(HeadRead(m, key), key, moves)
    ensures var t := Finish(HeadRead(m, key), key, moves);
            && WellFormed(t.m)
            && OwnMoves(moves) <= |Addresses(m.nodes, m.heads[Hash(key)])|
            && (t.w.Found? ==> Target(m, key) == Some(t.w.address) && t.w.address < |t.m.nodes|)
            && (t.w == At(None) ==> Target(m, key) == None)
            && (t.w.Found? && KeyNotInserted(moves, key) ==>
                  Do(t.m, Write(t.w.address, status)) == AtomicUpdate(t.m, key, status))
            && (t.w == At(None) && KeyNotInserted(moves, key) ==> AtomicUpdate(t.m, key, status) == t.m)
  {
    WalkKeepsTarget(HeadRead(m, key), key, moves);
  }

  /**
   An unlocked query reads the node an indivisible call at the head read would have read, or
   returns -1 if the key was absent then; and unless the key itself was inserted meanwhile it
   returns what an indivisible know_status returns at the moment of its last read.
   */
  lemma QueryLinearizes(m: Memory, key: int, moves: seq<Move>)
    requires WellFormed(m) && 0 <= Hash(key) && IsWalk(HeadRead(m, key), key, moves)
    ensures var t := Finish(HeadRead(m, key), key, moves);
            && WellFormed(t.m)
            && (t.w.Found? ==> Target(m, key) == Some(t.w.address) && t.w.address < |t.m.nodes|)
            && (t.w == At(None) ==> AtomicKnow(m, key) == -1)
            && (KeyNotInserted(moves, key) ==>
                  && (t.w.Found? ==> t.m.nodes[t.w.address].status == AtomicKnow(t.m, key))
                  && (t.w == At(None) ==> AtomicKnow(t.m, key) == -1))
  {
    WalkKeepsTarget(HeadRead(m, key), key, moves);
  }
}
