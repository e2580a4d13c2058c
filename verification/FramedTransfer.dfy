/**
 Version 2's transfers: a four-byte size and then the bytes of a file, sent in pieces of at
 most 256 bytes and reassembled from reads of whatever lengths the network happens to give.
 Writes are taken to be complete and the size to arrive in one piece.
 */
module FramedTransfer {

  import opened Options

  newtype byte = x: int | 0 <= x < 256

  // ---------- The size in front ----------

  const INT_MAX := 0x7fff_ffff

  /** The four bytes of a C int that is not negative, least significant first. */
  function EncodeSize(n: nat): (s: seq<byte>)
    requires n <= INT_MAX
    ensures |s| == 4
  {
    [(n % 256) as byte, (n / 256 % 256) as byte, (n / 0x1_0000 % 256) as byte, (n / 0x100_0000) as byte]
  }

  function DecodeSize(s: seq<byte>): int
    requires |s| == 4
  {
    var v := s[0] as int + 256 * (s[1] as int) + 0x1_0000 * (s[2] as int) + 0x100_0000 * (s[3] as int);
    if v <= INT_MAX then v else v - 0x1_0000_0000
  }

  /** The four bytes as a number, the first one with the least weight. */
  function Weighed(s: seq<byte>): int
    requires |s| == 4
  {
    s[0] as int + 256 * (s[1] as int + 256 * (s[2] as int + 256 * (s[3] as int)))
  }

  /** The decoded size is the one C int that agrees with the bytes' number modulo 2^32. */
  lemma DecodedExactlyWhen(s: seq<byte>, n: int)
    requires |s| == 4
    ensures n == DecodeSize(s) <==> -INT_MAX - 1 <= n <= INT_MAX && (n - Weighed(s)) % 0x1_0000_0000 == 0
  {
  }

  lemma SizeRoundTrip(n: nat)
    requires n <= INT_MAX
    ensures DecodeSize(EncodeSize(n)) == Weighed(EncodeSize(n)) == n
  {
    var q1, q2, q3 := n / 256, n / 0x1_0000, n / 0x100_0000;
    assert n == 256 * q1 + n % 256 && q1 == 256 * q2 + q1 % 256 && q2 == 256 * q3 + q2 % 256;
  }

  // ---------- When the counting loop stops ----------

  function Joined(pieces: seq<seq<byte>>): seq<byte> {
    if pieces == [] then [] else Joined(pieces[..|pieces| - 1]) + pieces[|pieces| - 1]
  }

  ghost predicate Pieces(pieces: seq<seq<byte>>, limit: nat) {
    forall i :: 0 <= i < |pieces| ==> 1 <= |pieces[i]| <= limit
  }

  /**
   The receive loop on the pieces its reads return: after each piece the count is compared
   with the announced size. None means that all pieces are used up and the loop still reads.
   */
  function Received(pieces: seq<seq<byte>>, size: int, got: seq<byte>): Option<seq<byte>>
    decreases |pieces|
  {
    if pieces == [] then None
    else
      var now := got + pieces[0];
      if |now| == size then Some(now) else Received(pieces[1..], size, now)
  }

  lemma {:induction false} JoinedFromFront(pieces: seq<seq<byte>>)
    requires pieces != []
    ensures Joined(pieces) == pieces[0] + Joined(pieces[1..])
  {
    if |pieces| > 1 {
      var n := |pieces| - 1;
      JoinedFromFront(pieces[..n]);
      assert pieces[..n][1..] == pieces[1..][..n - 1];
    }
  }

  lemma {:induction false} ReceivedAll(pieces: seq<seq<byte>>, limit: nat, size: int, got: seq<byte>)
    requires Pieces(pieces, limit) && size == |got| + |Joined(pieces)| && pieces != []
    ensures Received(pieces, size, got) == Some(got + Joined(pieces))
    decreases |pieces|
  {
    JoinedFromFront(pieces);
    if |pieces| > 1 {
      JoinedFromFront(pieces[1..]);
      assert |pieces[1..][0]| >= 1;
      ReceivedAll(pieces[1..], limit, size, got + pieces[0]);
    } else {
      assert Joined(pieces[1..]) == [] && Joined(pieces) == pieces[0];
    }
    assert got + pieces[0] + Joined(pieces[1..]) == got + Joined(pieces);
  }

  lemma {:induction false} ReceivedSize(pieces: seq<seq<byte>>, limit: nat, size: int, got: seq<byte>)
    requires Pieces(pieces, limit)
    ensures var r := Received(pieces, size, got); r.Some? ==> |r.value| == size && |got| < size
    decreases |pieces|
  {
    if pieces != [] {
      assert |pieces[0]| >= 1;
      ReceivedSize(pieces[1..], limit, size, got + pieces[0]);
    }
  }

  function Singles(s: seq<byte>): (p: seq<seq<byte>>)
    ensures Pieces(p, 1)
  {
    seq(|s|, i requires 0 <= i < |s| => [s[i]])
  }

  lemma {:induction false} SinglesJoin(s: seq<byte>)
    ensures Joined(Singles(s)) == s
  {
    if s != [] {
      var n := |s| - 1;
      SinglesJoin(s[..n]);
      assert Singles(s)[..n] == Singles(s[..n]);
    }
  }

  lemma JoinedPrefix(pieces: seq<seq<byte>>, k: nat)
    requires 1 <= k <= |pieces|
    ensures Joined(pieces[..k]) == pieces[0] + Joined(pieces[1..][..k - 1])
  {
    JoinedFromFront(pieces[..k]);
    assert pieces[..k][1..] == pieces[1..][..k - 1];
  }

  /** What has been received after the k-th read. */
  ghost predicate GotAfter(pieces: seq<seq<byte>>, got: seq<byte>, k: nat, result: seq<byte>) {
    1 <= k <= |pieces| && result == got + Joined(pieces[..k])
  }

  lemma GotAfterFromFront(pieces: seq<seq<byte>>, got: seq<byte>, k: nat, result: seq<byte>)
    requires pieces != []
    ensures GotAfter(pieces, got, 1, result) <==> result == got + pieces[0]
    ensures k >= 1 ==> (GotAfter(pieces, got, k + 1, result) <==>
                        GotAfter(pieces[1..], got + pieces[0], k, result))
  {
    JoinedPrefix(pieces, 1);
    assert got + (pieces[0] + Joined(pieces[1..][..0])) == got + pieces[0];
    if 1 <= k < |pieces| {
      JoinedPrefix(pieces, k + 1);
      assert got + (pieces[0] + Joined(pieces[1..][..k])) == got + pieces[0] + Joined(pieces[1..][..k]);
    }
  }

  /**
   The loop ends exactly if the bytes read make up the announced size after some read, and
   then with just the bytes of the reads so far; it does not end by reading too many.
   */
  lemma {:induction false} ReceivedExactlyWhen(
      pieces: seq<seq<byte>>, limit: nat, size: int, got: seq<byte>, result: seq<byte>)
    requires Pieces(pieces, limit)
    ensures Received(pieces, size, got) == Some(result) <==>
            |result| == size && exists k: nat :: GotAfter(pieces, got, k, result)
    decreases |pieces|
  {
    if pieces != [] {
      var now, rest := got + pieces[0], pieces[1..];
      GotAfterFromFront(pieces, got, 0, result);
      ReceivedExactlyWhen(rest, limit, size, now, result);
      if k: nat :| GotAfter(rest, now, k, result) {
        GotAfterFromFront(pieces, got, k, result);
        assert |pieces[1..][0]| >= 1;
        JoinedFromFront(rest[..k]);
      }
      if k: nat :| GotAfter(pieces, got, k, result) && k > 1 {
        GotAfterFromFront(pieces, got, k - 1, result);
        assert GotAfter(rest, now, k - 1, result);
      }
    }
  }

  /** However the content is cut into pieces, the loop ends with exactly the content. */
  ghost predicate AlwaysDelivered(content: seq<byte>, size: int, limit: nat) {
    forall pieces :: Pieces(pieces, limit) && Joined(pieces) == content ==>
                       Received(pieces, size, []) == Some(content)
  }

  /**
   Under every fragmentation into non-empty reads the loop ends with exactly the sent bytes,
   precisely when the announced size is the content's and is not zero.
   */
  lemma DeliveredExactlyWhen(content: seq<byte>, size: int, limit: nat)
    requires limit >= 1
    ensures AlwaysDelivered(content, size, limit) <==> size == |content| && size > 0
  {
    if size == |content| && size > 0 {
      forall pieces | Pieces(pieces, limit) && Joined(pieces) == content
        ensures Received(pieces, size, []) == Some(content)
      {
        ReceivedAll(pieces, limit, size, []);
        assert [] + Joined(pieces) == content;
      }
    }
    SinglesJoin(content);
    assert Pieces(Singles(content), limit);
    ReceivedSize(Singles(content), limit, size, []);
  }

  /**
   The same loop on a stream that its sender closes: behind the last piece every read returns
   nothing, so the comparison made once more there decides. None means that it reads forever.
   */
  function ReceivedThenEof(pieces: seq<seq<byte>>, size: int, got: seq<byte>): Option<seq<byte>> {
    var r := Received(pieces, size, got);
    if r.None? && |got + Joined(pieces)| == size then Some(got + Joined(pieces)) else r
  }

  ghost predicate AlwaysDeliveredThenEof(content: seq<byte>, size: int, limit: nat) {
    forall pieces :: Pieces(pieces, limit) && Joined(pieces) == content ==>
                       ReceivedThenEof(pieces, size, []) == Some(content)
  }

  /** On a closed stream an empty content is delivered too. */
  lemma DeliveredThenEofExactlyWhen(content: seq<byte>, size: int, limit: nat)
    requires limit >= 1
    ensures AlwaysDeliveredThenEof(content, size, limit) <==> size == |content|
  {
    if size == |content| {
      forall pieces | Pieces(pieces, limit) && Joined(pieces) == content
        ensures ReceivedThenEof(pieces, size, []) == Some(content)
      {
        assert [] + Joined(pieces) == content;
        if pieces != [] {
          ReceivedAll(pieces, limit, size, []);
        }
      }
    }
    SinglesJoin(content);
    assert Pieces(Singles(content), limit);
    assert [] + Joined(Singles(content)) == content;
    ReceivedSize(Singles(content), limit, size, []);
  }

  // ---------- The loops ----------

  /** One direction of a connection, or a file that is read. */
  class Stream {
    var inbox: seq<byte>
    var closed: bool

    constructor (content: seq<byte>, closed: bool)
      ensures inbox == content && this.closed == closed
    {
      inbox, this.closed := content, closed;
    }

    /**
     read: some bytes, at least one if there are any, and none at the end of a closed stream.
     On an empty open stream it would block, so it may not be called there.
     */
    method Read(buffer: array<byte>, max: nat) returns (n: nat)
      requires 0 < max <= buffer.Length && (inbox != [] || closed)
      modifies this`inbox, buffer
      ensures n <= max && n <= |old(inbox)| && (n == 0 <==> old(inbox) == [])
      ensures inbox == old(inbox)[n..]
      ensures buffer[..n] == old(inbox)[..n]
    {
      n := 0;
      if inbox != [] {
        n :| 1 <= n <= max && n <= |inbox|;
        forall i | 0 <= i < n {
          buffer[i] := inbox[i];
        }
        inbox := inbox[n..];
      }
    }

    /** read of a whole size header. */
    method ReadSize() returns (size: int)
      requires |inbox| >= 4
      modifies this`inbox
      ensures size == DecodeSize(old(inbox)[..4]) && inbox == old(inbox)[4..]
    {
      size := DecodeSize(inbox[..4]);
      inbox := inbox[4..];
    }

    method Write(s: seq<byte>)
      modifies this`inbox
      ensures inbox == old(inbox) + s
    {
      inbox := inbox + s;
    }
  }

  method Clear(buffer: array<byte>)
    modifies buffer
    ensures forall i :: 0 <= i < buffer.Length ==> buffer[i] == 0
  {
    forall i | 0 <= i < buffer.Length {
      buffer[i] := 0;
    }
  }

  /** Reads a file piece by piece and writes every piece to the connection. */
  method SendAll(file: Stream, connection: Stream, buffer: array<byte>)
    requires file != connection && file.closed && buffer.Length == 256
    modifies file`inbox, connection`inbox, buffer
    ensures file.inbox == [] && connection.inbox == old(connection.inbox) + old(file.inbox)
  {
    while true
      invariant connection.inbox + file.inbox == old(connection.inbox) + old(file.inbox)
      decreases |file.inbox|
    {
      var n := file.Read(buffer, 256);
      if n == 0 {
        break;
      }
      connection.Write(buffer[..n]);
      Clear(buffer);
    }
  }

  /**
   The server's receive loop: bytes until the count reaches the announced size. The stream is
   open, so a missing byte would block it and an empty file never arrives.
   */
  method ReceiveFile(connection: Stream, buffer: array<byte>) returns (file: seq<byte>)
    requires buffer.Length == 256 && |connection.inbox| > 4
    requires DecodeSize(connection.inbox[..4]) == |connection.inbox| - 4
    modifies connection`inbox, buffer
    ensures file == old(connection.inbox)[4..] && connection.inbox == []
  {
    var size := connection.ReadSize();
    var count := 0;
    file := [];
    while true
      invariant connection.inbox != []
      invariant count == |file| && file + connection.inbox == old(connection.inbox)[4..]
      decreases |connection.inbox|
    {
      var n := connection.Read(buffer, 256);
      count := count + n;
      file := file + buffer[..n];
      if count == size {
        break;
      }
      Clear(buffer);
    }
  }

  /**
   The client's receive loop, with reads of at most 255 bytes. The server closes the
   connection behind its response, so even an empty response ends the loop.
   */
  method ReceiveResponse(connection: Stream, buffer: array<byte>) returns (response: seq<byte>)
    requires buffer.Length == 256 && |connection.inbox| >= 4 && connection.closed
    requires DecodeSize(connection.inbox[..4]) == |connection.inbox| - 4
    modifies connection`inbox, buffer
    ensures response == old(connection.inbox)[4..] && connection.inbox == []
  {
    var size := connection.ReadSize();
    var count := 0;
    response := [];
    while true
      invariant connection.closed && count <= size
      invariant connection.inbox == [] ==> size == 0
      invariant count == |response| && response + connection.inbox == old(connection.inbox)[4..]
      decreases |connection.inbox|
    {
      var n := connection.Read(buffer, 255);
      count := count + n;
      response := response + buffer[..n];
      if count == size {
        break;
      }
      Clear(buffer);
    }
  }

  /**
   Request and response over one connection: the server gets the submitted file, the client
   gets the server's answer, and neither frame leaves a byte behind for the other.
   */
  method Exchange(submission: Stream, up: Stream, answer: Stream, down: Stream, buffer: array<byte>)
    returns (received: seq<byte>, response: seq<byte>)
    requires submission != up && answer != down && submission != answer && up != answer
    requires submission != down && up != down && buffer.Length == 256
    requires submission.closed && answer.closed && up.inbox == [] == down.inbox && !down.closed
    requires 0 < |submission.inbox| <= INT_MAX && |answer.inbox| <= INT_MAX
    modifies submission`inbox, up`inbox, answer`inbox, down, buffer
    ensures received == old(submission.inbox) && response == old(answer.inbox)
    ensures up.inbox == [] == down.inbox
  {
    SizeRoundTrip(|submission.inbox|);
    SizeRoundTrip(|answer.inbox|);
    up.Write(EncodeSize(|submission.inbox|));
    SendAll(submission, up, buffer);
    assert up.inbox[..4] == EncodeSize(|old(submission.inbox)|);
    received := ReceiveFile(up, buffer);
    down.Write(EncodeSize(|answer.inbox|));
    SendAll(answer, down, buffer);
    down.closed := true;
    assert down.inbox[..4] == EncodeSize(|old(answer.inbox)|);
    response := ReceiveResponse(down, buffer);
  }
}
