/** Saving the hash map as text and loading it back, one binding to a line. */
module MapFile {

  import opened Options
  import opened DecimalText
  import opened ChainedMap
  import opened HashTable

  // ---------- The text ----------

  function PrintPair(p: Pair): string {
    Print(p.key) + " " + Print(p.status) + "\n"
  }

  function PrintPairs(ps: Chain): string {
    if ps == [] then "" else PrintPair(ps[0]) + PrintPairs(ps[1..])
  }

  lemma {:induction false} PrintPairsConcat(a: Chain, b: Chain)
    ensures PrintPairs(a + b) == PrintPairs(a) + PrintPairs(b)
  {
    if a == [] {
      assert a + b == b;
    } else {
      assert (a + b)[1..] == a[1..] + b;
      PrintPairsConcat(a[1..], b);
    }
  }

  /** The lines of a saved map: each binding's key, one space and its status. */
  lemma {:induction false} SavedMapLines(ps: Chain)
    ensures PrintPairs(ps) == Text(seq(|ps|, i requires 0 <= i < |ps| => Print(ps[i].key) + " " + Print(ps[i].status)))
    ensures forall i :: 0 <= i < |ps| ==> OneLine(Print(ps[i].key) + " " + Print(ps[i].status))
  {
    hide Print, OneLine;
    if ps != [] {
      var lines := seq(|ps|, i requires 0 <= i < |ps| => Print(ps[i].key) + " " + Print(ps[i].status));
      var rest := ps[1..];
      SavedMapLines(rest);
      assert lines[1..] == seq(|rest|, i requires 0 <= i < |rest| => Print(rest[i].key) + " " + Print(rest[i].status));
      forall i | 0 <= i < |ps| ensures OneLine(Print(ps[i].key) + " " + Print(ps[i].status)) {
        NumbersOnOneLine(ps[i].key, ps[i].status);
      }
    }
  }

  /** fscanf with two numeric conversions: how many succeeded, and what is left to read. */
  datatype ScannedPair = ScannedPair(count: nat, pair: Pair, rest: string)

  function ScanPair(s: string): (r: ScannedPair)
    ensures |r.rest| <= |s| && (r.count == 2 ==> |r.rest| < |s|)
  {
    var a := ScanInt(s);
    if !a.ok then ScannedPair(0, Pair(0, 0), a.rest)
    else
      var b := ScanInt(a.rest);
      if !b.ok then ScannedPair(1, Pair(a.value, 0), b.rest)
      else ScannedPair(2, Pair(a.value, b.value), b.rest)
  }

  datatype Loaded = Loaded(pairs: Chain, rest: string)

  /** The inner loop of the loader: bindings until a scan falls short. */
  function LoadPass(s: string): (r: Loaded)
    ensures |r.rest| <= |s|
    decreases |s|
  {
    var r := ScanPair(s);
    if r.count != 2 then Loaded([], r.rest)
    else
      var more := LoadPass(r.rest);
      Loaded([r.pair] + more.pairs, more.rest)
  }

  lemma ScanPrintedPair(p: Pair, tail: string)
    ensures ScanPair(PrintPair(p) + tail) == ScannedPair(2, p, "\n" + tail)
  {
    var second := Print(p.status) + ("\n" + tail);
    assert PrintPair(p) + tail == Print(p.key) + (" " + second);
    ScanPrinted(p.key, " " + second);
    ScanAfterSpace(' ', second);
    ScanPrinted(p.status, "\n" + tail);
  }

  lemma LoadPassAfterNewline(s: string)
    ensures LoadPass("\n" + s) == LoadPass(s)
  {
    ScanAfterSpace('\n', s);
  }

  // ---------- Reading saved files, whole, cut off or damaged ----------

  lemma LoadPassBehindLine(p: Pair, tail: string)
    ensures LoadPass(PrintPair(p) + tail) == Loaded([p] + LoadPass(tail).pairs, LoadPass(tail).rest)
  {
    hide ScanPair, PrintPair;
    ScanPrintedPair(p, tail);
    LoadPassAfterNewline(tail);
  }

  /** Whole lines in front are read whatever follows them. */
  lemma {:induction false} LoadPassBehindLines(ps: Chain, tail: string)
    ensures LoadPass(PrintPairs(ps) + tail) == Loaded(ps + LoadPass(tail).pairs, LoadPass(tail).rest)
  {
    hide LoadPass, PrintPair;
    if ps == [] {
      assert PrintPairs(ps) + tail == tail;
      assert ps + LoadPass(tail).pairs == LoadPass(tail).pairs;
    } else {
      var later := PrintPairs(ps[1..]) + tail;
      assert PrintPairs(ps) + tail == PrintPair(ps[0]) + later;
      LoadPassBehindLine(ps[0], later);
      LoadPassBehindLines(ps[1..], tail);
      assert [ps[0]] + (ps[1..] + LoadPass(tail).pairs) == ps + LoadPass(tail).pairs;
    }
  }

  /**
   Text round trip: one pass of the loader reads back exactly the printed bindings, in order,
   and reaches the end of the file.
   */
  lemma TextRoundTrip(ps: Chain)
    ensures LoadPass(PrintPairs(ps)) == Loaded(ps, "")
  {
    hide PrintPairs;
    ScanOfNothing();
    LoadPassBehindLines(ps, "");
    assert PrintPairs(ps) + "" == PrintPairs(ps) && ps + [] == ps;
  }

  /** A line that ends within its key, or right behind it, is no binding. */
  lemma KeyAlone(k: int, tail: string)
    requires tail == "" || tail == " " || tail == " -"
    ensures LoadPass(Print(k) + tail) == Loaded([], "")
  {
    ScanPrinted(k, tail);
    ScanNumber(if tail == " -" then Minus else Unsigned, "");
    assert "-" + "" == "-" && "" + "" == "";
    if tail == " -" {
      ScanAfterSpace(' ', "-");
      assert [' '] + "-" == tail;
    } else if tail == " " {
      ScanAfterSpace(' ', "");
      assert [' '] + "" == tail;
    }
  }

  lemma SignAlone()
    ensures LoadPass("-") == Loaded([], "")
  {
    ScanSigned('-', "");
    assert ['-'] + "" == "-";
  }

  /** A line that ends within its status is read as a binding to what is left of it. */
  lemma LineWithoutEnd(k: int, v: int)
    ensures LoadPass(Print(k) + " " + Print(v)) == Loaded([Pair(k, v)], "")
  {
    var second := Print(v) + "";
    assert Print(k) + " " + Print(v) == Print(k) + (" " + second);
    ScanPrinted(k, " " + second);
    ScanAfterSpace(' ', second);
    ScanPrinted(v, "");
    ScanOfNothing();
  }

  /**
   What one pass makes of a saved file that was cut off: everything in front of the cut, no
   binding of a line cut within its key or before the first digit of its status, and a
   binding to the digits that are left of a status cut within them.
   */
  lemma CutOffFile(ps: Chain, k: int, v: int, tail: string)
    requires tail == "" || tail == " " || tail == " -"
    ensures LoadPass(PrintPairs(ps) + "-") == Loaded(ps, "")
    ensures LoadPass(PrintPairs(ps) + (Print(k) + tail)) == Loaded(ps, "")
    ensures LoadPass(PrintPairs(ps) + (Print(k) + " " + Print(v))) == Loaded(ps + [Pair(k, v)], "")
  {
    hide LoadPass, PrintPairs, Print;
    LoadPassBehindLines(ps, "-");
    SignAlone();
    LoadPassBehindLines(ps, Print(k) + tail);
    KeyAlone(k, tail);
    assert ps + [] == ps;
    LoadPassBehindLines(ps, Print(k) + " " + Print(v));
    LineWithoutEnd(k, v);
  }

  /** At a character that starts no number every pass stops: nothing behind it is ever loaded. */
  lemma DamagedFile(ps: Chain, damage: string)
    requires damage != [] && !IsDigit(damage[0]) && !IsSpace(damage[0]) && damage[0] != '-' && damage[0] != '+'
    ensures LoadPass(PrintPairs(ps) + damage) == Loaded(ps, damage) && LoadPass(damage) == Loaded([], damage)
  {
    ScanUnsigned(damage);
    LoadPassBehindLines(ps, damage);
    assert ps + [] == ps;
  }

  // ---------- What a reload does to the chains ----------

  /** The bindings in the order in which they are saved. */
  function SaveOrder(buckets: seq<Chain>): Chain {
    if buckets == [] then [] else SaveOrder(buckets[..|buckets| - 1]) + buckets[|buckets| - 1]
  }

  ghost predicate PairsInTable(ps: Chain) {
    forall i :: 0 <= i < |ps| ==> 0 <= Hash(ps[i].key)
  }

  ghost function InsertAll(buckets: seq<Chain>, ps: Chain): (r: seq<Chain>)
    requires |buckets| == SIZE && PairsInTable(ps)
    ensures |r| == SIZE
    decreases |ps|
  {
    if ps == [] then buckets
    else
      assert forall i :: 0 <= i < |ps[1..]| ==> ps[1..][i] == ps[i + 1];
      InsertAll(InsertPair(buckets, ps[0].key, ps[0].status), ps[1..])
  }

  /** n passes, each on what the previous one left unread, meet only keys of the table. */
  ghost predicate Loadable(s: string, n: nat)
    decreases n
  {
    n == 0 || (PairsInTable(LoadPass(s).pairs) && Loadable(LoadPass(s).rest, n - 1))
  }

  /** What n passes of the outer loop make of the chains. */
  ghost function LoadAll(buckets: seq<Chain>, s: string, n: nat): (r: seq<Chain>)
    requires |buckets| == SIZE && Loadable(s, n)
    ensures |r| == SIZE
    decreases n
  {
    hide ScanPair;
    if n == 0 then buckets
    else LoadAll(InsertAll(buckets, LoadPass(s).pairs), LoadPass(s).rest, n - 1)
  }

  lemma {:induction false} NothingLeft(buckets: seq<Chain>, n: nat)
    requires |buckets| == SIZE
    ensures Loadable("", n) && LoadAll(buckets, "", n) == buckets
  {
    ScanOfNothing();
    if n > 0 {
      NothingLeft(buckets, n - 1);
    }
  }

  /** Of the loader's passes over a saved file the first inserts everything, the others nothing. */
  lemma FirstPassSuffices(buckets: seq<Chain>, ps: Chain, passes: nat)
    requires |buckets| == SIZE && PairsInTable(ps) && passes > 0
    ensures Loadable(PrintPairs(ps), passes)
    ensures LoadAll(buckets, PrintPairs(ps), passes) == InsertAll(buckets, ps)
  {
    hide ScanPair;
    TextRoundTrip(ps);
    NothingLeft(InsertAll(buckets, ps), passes - 1);
  }

  /** A saved map in which lone signs stand between some of the lines. */
  function TextWithSigns(parts: seq<Chain>): string {
    if parts == [] then ""
    else if |parts| == 1 then PrintPairs(parts[0])
    else PrintPairs(parts[0]) + ("+\n" + TextWithSigns(parts[1..]))
  }

  function Together(parts: seq<Chain>): Chain {
    if parts == [] then [] else parts[0] + Together(parts[1..])
  }

  lemma PassUpToSign(ps: Chain, tail: string)
    ensures LoadPass(PrintPairs(ps) + ("+\n" + tail)) == Loaded(ps, "\n" + tail)
  {
    hide ScanInt;
    var s := "\n" + tail;
    assert "+\n" + tail == "+" + s;
    ScanLoneSign(s);
    LoadPassBehindLines(ps, "+" + s);
    assert ps + [] == ps;
  }

  /** n passes over the text can be made, and lead from these chains to those. */
  ghost predicate Loads(buckets: seq<Chain>, s: string, n: nat, r: seq<Chain>)
    requires |buckets| == SIZE
  {
    Loadable(s, n) && LoadAll(buckets, s, n) == r
  }

  lemma LoadsAfterNewline(buckets: seq<Chain>, s: string, n: nat, r: seq<Chain>)
    requires |buckets| == SIZE && Loads(buckets, s, n, r)
    ensures Loads(buckets, "\n" + s, n, r)
  {
    hide ScanPair, LoadPass;
    LoadPassAfterNewline(s);
  }

  lemma {:induction false} InsertAllConcat(buckets: seq<Chain>, a: Chain, b: Chain)
    requires |buckets| == SIZE && PairsInTable(a) && PairsInTable(b)
    ensures PairsInTable(a + b) && InsertAll(buckets, a + b) == InsertAll(InsertAll(buckets, a), b)
    decreases |a|
  {
    if a == [] {
      assert a + b == b;
    } else {
      assert forall i :: 0 <= i < |a[1..]| ==> a[1..][i] == a[i + 1];
      assert (a + b)[1..] == a[1..] + b;
      InsertAllConcat(InsertPair(buckets, a[0].key, a[0].status), a[1..], b);
    }
  }

  lemma OnePass(buckets: seq<Chain>, s: string, ps: Chain, rest: string, n: nat, r: seq<Chain>)
    requires |buckets| == SIZE && PairsInTable(ps) && n > 0 && LoadPass(s) == Loaded(ps, rest)
    requires Loads(InsertAll(buckets, ps), rest, n - 1, r)
    ensures Loads(buckets, s, n, r)
  {
    hide ScanPair, LoadPass, InsertAll;
  }

  /**
   What the outer loop is good for: a lone sign ends a pass, and the next pass goes on behind
   it. So n passes load the first n stretches between signs, and no more.
   */
  lemma {:induction false} PassesReadParts(buckets: seq<Chain>, parts: seq<Chain>, n: nat)
    requires |buckets| == SIZE && forall i :: 0 <= i < |parts| ==> PairsInTable(parts[i])
    ensures var first := Together(parts[..if n < |parts| then n else |parts|]);
            PairsInTable(first) && Loads(buckets, TextWithSigns(parts), n, InsertAll(buckets, first))
    decreases n
  {
    hide ScanPair, LoadPass, PrintPairs;
    if n == 0 {
    } else if parts == [] {
      NothingLeft(buckets, n);
    } else if |parts| == 1 {
      assert Together(parts) == parts[0] + [] == parts[0];
      assert parts[..1] == parts;
      FirstPassSuffices(buckets, parts[0], n);
    } else {
      hide LoadAll, InsertAll, Loads;
      var text, m := TextWithSigns(parts[1..]), if n < |parts| then n else |parts|;
      var next, later := InsertAll(buckets, parts[0]), Together(parts[1..][..m - 1]);
      PassesReadParts(next, parts[1..], n - 1);
      PassUpToSign(parts[0], text);
      LoadsAfterNewline(next, text, n - 1, InsertAll(next, later));
      OnePass(buckets, TextWithSigns(parts), parts[0], "\n" + text, n, InsertAll(next, later));
      assert parts[..m][1..] == parts[1..][..m - 1];
      InsertAllConcat(buckets, parts[0], later);
    }
  }

  function Reverse(chain: Chain): (r: Chain)
    ensures |r| == |chain|
  {
    if chain == [] then [] else Reverse(chain[1..]) + [chain[0]]
  }

  lemma {:induction false} ReverseConcat(a: Chain, b: Chain)
    ensures Reverse(a + b) == Reverse(b) + Reverse(a)
  {
    if a == [] {
      assert a + b == b;
    } else {
      assert (a + b)[1..] == a[1..] + b;
      ReverseConcat(a[1..], b);
    }
  }

  lemma {:induction false} ReverseTwice(chain: Chain)
    ensures Reverse(Reverse(chain)) == chain
  {
    if chain != [] {
      ReverseConcat(Reverse(chain[1..]), [chain[0]]);
      ReverseTwice(chain[1..]);
    }
  }

  /** Inserting a list piles each bucket's part up in reverse. */
  lemma {:induction false} InsertAllReverses(buckets: seq<Chain>, ps: Chain, b: nat)
    requires |buckets| == SIZE && PairsInTable(ps) && b < SIZE
    ensures InsertAll(buckets, ps)[b] == Reverse(InBucket(ps, b)) + buckets[b]
    decreases |ps|
  {
    if ps != [] {
      assert forall i :: 0 <= i < |ps[1..]| ==> ps[1..][i] == ps[i + 1];
      var next := InsertPair(buckets, ps[0].key, ps[0].status);
      InsertAllReverses(next, ps[1..], b);
      if Hash(ps[0].key) == b {
        var own := [ps[0]] + InBucket(ps[1..], b);
        assert own[1..] == InBucket(ps[1..], b);
        assert Reverse(own) + buckets[b] == Reverse(InBucket(ps[1..], b)) + next[b];
      }
    }
  }

  lemma {:induction false} InBucketConcat(a: Chain, c: Chain, b: int)
    ensures InBucket(a + c, b) == InBucket(a, b) + InBucket(c, b)
  {
    if a == [] {
      assert a + c == c;
    } else {
      assert (a + c)[1..] == a[1..] + c;
      InBucketConcat(a[1..], c, b);
    }
  }

  lemma {:induction false} InBucketOfOwn(chain: Chain, own: int, b: int)
    requires forall i :: 0 <= i < |chain| ==> Hash(chain[i].key) == own
    ensures InBucket(chain, b) == if b == own then chain else []
  {
    if chain != [] {
      InBucketOfOwn(chain[1..], own, b);
      assert Hash(chain[0].key) == own;
      assert chain == [chain[0]] + chain[1..];
    }
  }

  /** The saved order keeps every chain together. */
  lemma {:induction false} SaveOrderKeepsChains(buckets: seq<Chain>, n: nat, b: nat)
    requires WellHashed(buckets) && n <= SIZE && b < SIZE
    ensures InBucket(SaveOrder(buckets[..n]), b) == if b < n then buckets[b] else []
    ensures PairsInTable(SaveOrder(buckets[..n]))
  {
    if n > 0 {
      var before := SaveOrder(buckets[..n - 1]);
      SaveOrderKeepsChains(buckets, n - 1, b);
      assert buckets[..n][..n - 1] == buckets[..n - 1];
      assert SaveOrder(buckets[..n]) == before + buckets[n - 1];
      InBucketConcat(before, buckets[n - 1], b);
      InBucketOfOwn(buckets[n - 1], n - 1, b);
      var longer := before + buckets[n - 1];
      forall i | 0 <= i < |longer| ensures 0 <= Hash(longer[i].key) {
        if i >= |before| {
          assert Hash(buckets[n - 1][i - |before|].key) == n - 1;
        }
      }
    }
  }

  ghost predicate ByBucket(ps: Chain) {
    forall i, j :: 0 <= i < j < |ps| ==> Hash(ps[i].key) <= Hash(ps[j].key)
  }

  /** The saved order goes through the table bucket by bucket. */
  lemma {:induction false} SavedByBucket(buckets: seq<Chain>, n: nat)
    requires WellHashed(buckets) && n <= SIZE
    ensures ByBucket(SaveOrder(buckets[..n]))
    ensures forall p :: p in SaveOrder(buckets[..n]) ==> 0 <= Hash(p.key) < n
  {
    if n > 0 {
      SavedByBucket(buckets, n - 1);
      assert buckets[..n][..n - 1] == buckets[..n - 1];
      var before, chain := SaveOrder(buckets[..n - 1]), buckets[n - 1];
      assert SaveOrder(buckets[..n]) == before + chain;
      assert forall p :: p in chain ==> Hash(p.key) == n - 1;
      assert forall i :: 0 <= i < |before| ==> before[i] in before;
      assert forall i :: 0 <= i < |chain| ==> chain[i] in chain;
    }
  }

  /**
   The saved order is the one list in which the bindings stand bucket by bucket, and within a
   bucket newest first.
   */
  lemma SaveOrderExactlyWhen(buckets: seq<Chain>, ps: Chain)
    requires WellHashed(buckets)
    ensures ps == SaveOrder(buckets) <==>
            && PairsInTable(ps)
            && ByBucket(ps)
            && (forall b :: 0 <= b < SIZE ==> InBucket(ps, b) == buckets[b])
  {
    hide Hash, InBucket, SaveOrder;
    assert buckets[..SIZE] == buckets;
    var order := SaveOrder(buckets);
    SavedByBucket(buckets, SIZE);
    forall b | 0 <= b < SIZE ensures InBucket(order, b) == buckets[b] {
      SaveOrderKeepsChains(buckets, SIZE, b);
    }
    if PairsInTable(ps) && ByBucket(ps)
      && (forall b :: 0 <= b < SIZE ==> InBucket(ps, b) == buckets[b])
    {
      SortedByParts(ps, order);
    }
  }

  lemma {:induction false} InBucketMember(ps: Chain, i: nat)
    requires i < |ps|
    ensures ps[i] in InBucket(ps, Hash(ps[i].key))
  {
    if i > 0 {
      InBucketMember(ps[1..], i - 1);
    }
  }

  lemma InBucketFromFront(ps: Chain, b: int)
    requires ps != []
    ensures var own := InBucket(ps, b);
            if Hash(ps[0].key) != b then own == InBucket(ps[1..], b)
            else own != [] && own[0] == ps[0] && own[1..] == InBucket(ps[1..], b)
  {
  }

  lemma {:induction false} InBucketHashed(ps: Chain, b: int, p: Pair)
    requires p in InBucket(ps, b)
    ensures p in ps && Hash(p.key) == b
  {
    if !(Hash(ps[0].key) == b && p == ps[0]) {
      InBucketHashed(ps[1..], b, p);
    }
  }

  /** Lists that are sorted by bucket and agree on every bucket are equal. */
  lemma {:induction false} SortedByParts(a: Chain, c: Chain)
    requires PairsInTable(a) && PairsInTable(c)
    requires ByBucket(a) && ByBucket(c)
    requires forall b :: 0 <= b < SIZE ==> InBucket(a, b) == InBucket(c, b)
    ensures a == c
  {
    hide InBucket;
    if a != [] {
      FirstBucketFirst(a, c);
      FirstBucketFirst(c, a);
      var b := Hash(a[0].key);
      InBucketFromFront(a, b);
      InBucketFromFront(c, b);
      forall d | 0 <= d < SIZE ensures InBucket(a[1..], d) == InBucket(c[1..], d) {
        InBucketFromFront(a, d);
        InBucketFromFront(c, d);
      }
      SortedByParts(a[1..], c[1..]);
      assert a == [a[0]] + a[1..] && c == [c[0]] + c[1..];
    } else if c != [] {
      FirstBucketFirst(c, a);
    }
  }

  lemma FirstBucketFirst(a: Chain, c: Chain)
    requires PairsInTable(a) && a != []
    requires ByBucket(c)
    requires forall b :: 0 <= b < SIZE ==> InBucket(a, b) == InBucket(c, b)
    ensures c != [] && Hash(c[0].key) <= Hash(a[0].key)
  {
    InBucketMember(a, 0);
    InBucketHashed(c, Hash(a[0].key), a[0]);
  }

  function EmptyBuckets(): (r: seq<Chain>)
    ensures |r| == SIZE && forall b :: 0 <= b < SIZE ==> r[b] == []
  {
    seq(SIZE, _ => [])
  }

  /** What one save and one load into an empty map make of the chains. */
  ghost function Reloaded(buckets: seq<Chain>): (r: seq<Chain>)
    requires WellHashed(buckets)
    ensures |r| == SIZE
  {
    SaveOrderKeepsChains(buckets, SIZE, 0);
    assert buckets[..SIZE] == buckets;
    InsertAll(EmptyBuckets(), SaveOrder(buckets))
  }

  /** A reload reverses every chain. */
  lemma ReloadReverses(buckets: seq<Chain>)
    requires WellHashed(buckets)
    ensures forall b :: 0 <= b < SIZE ==> Reloaded(buckets)[b] == Reverse(buckets[b])
    ensures WellHashed(Reloaded(buckets))
  {
    assert buckets[..SIZE] == buckets;
    forall b | 0 <= b < SIZE ensures Reloaded(buckets)[b] == Reverse(buckets[b]) {
      SaveOrderKeepsChains(buckets, SIZE, b);
      InsertAllReverses(EmptyBuckets(), SaveOrder(buckets), b);
    }
    forall b, i | 0 <= b < SIZE && 0 <= i < |Reloaded(buckets)[b]|
      ensures Hash(Reloaded(buckets)[b][i].key) == b
    {
      ReverseAt(buckets[b], i);
    }
  }

  lemma {:induction false} ReverseAt(chain: Chain, i: nat)
    requires i < |chain|
    ensures Reverse(chain)[i] == chain[|chain| - 1 - i]
  {
    if i < |chain| - 1 {
      ReverseAt(chain[1..], i);
    }
  }

  /** Two successive reloads restore every chain as it was. */
  lemma TwoReloadsRestore(buckets: seq<Chain>)
    requires WellHashed(buckets)
    ensures WellHashed(Reloaded(buckets)) && Reloaded(Reloaded(buckets)) == buckets
  {
    ReloadReverses(buckets);
    ReloadReverses(Reloaded(buckets));
    forall b | 0 <= b < SIZE ensures Reloaded(Reloaded(buckets))[b] == buckets[b] {
      ReverseTwice(buckets[b]);
    }
  }

  /** The oldest binding of a key in a chain. */
  function Oldest(chain: Chain, key: int): Option<int> {
    if chain == [] then None
    else
      var n := |chain| - 1;
      if chain[n].key == key then Some(chain[n].status) else Oldest(chain[..n], key)
  }

  lemma {:induction false} FindInReverse(chain: Chain, key: int)
    ensures Find(Reverse(chain), key) == Oldest(chain, key)
  {
    if chain != [] {
      var n := |chain| - 1;
      assert chain == chain[..n] + [chain[n]];
      ReverseConcat(chain[..n], [chain[n]]);
      assert Reverse([chain[n]]) == [chain[n]];
      assert Reverse(chain)[1..] == Reverse(chain[..n]);
      FindInReverse(chain[..n], key);
    }
  }

  /**
   A lookup survives a reload exactly when the newest and the oldest status bound to the key
   agree.
   */
  lemma LookupSurvivesExactlyWhen(buckets: seq<Chain>, key: int)
    requires WellHashed(buckets) && 0 <= Hash(key)
    ensures Lookup(Reloaded(buckets), key) == Lookup(buckets, key)
            <==> Oldest(buckets[Hash(key)], key) == Find(buckets[Hash(key)], key)
  {
    ReloadReverses(buckets);
    FindInReverse(buckets[Hash(key)], key);
  }

  ghost predicate UniqueKeys(chain: Chain) {
    forall i, j :: 0 <= i < j < |chain| ==> chain[i].key != chain[j].key
  }

  lemma {:induction false} OldestIsAt(chain: Chain, key: int, i: nat)
    requires UniqueKeys(chain) && i < |chain| && chain[i].key == key
    ensures Oldest(chain, key) == Some(chain[i].status)
  {
    var n := |chain| - 1;
    if i < n {
      OldestIsAt(chain[..n], key, i);
    }
  }

  lemma {:induction false} OldestAbsent(chain: Chain, key: int)
    requires forall i :: 0 <= i < |chain| ==> chain[i].key != key
    ensures Oldest(chain, key) == None
  {
    if chain != [] {
      OldestAbsent(chain[..|chain| - 1], key);
    }
  }

  lemma {:induction false} FindIsAt(chain: Chain, key: int, i: nat)
    requires UniqueKeys(chain) && i < |chain| && chain[i].key == key
    ensures Find(chain, key) == Some(chain[i].status)
  {
    if i > 0 {
      FindIsAt(chain[1..], key, i - 1);
    }
  }

  /** With unique keys a reload changes no lookup at all. */
  lemma UniqueKeysSurvive(buckets: seq<Chain>, key: int)
    requires WellHashed(buckets) && 0 <= Hash(key) && UniqueKeys(buckets[Hash(key)])
    ensures Lookup(Reloaded(buckets), key) == Lookup(buckets, key)
  {
    var chain := buckets[Hash(key)];
    LookupSurvivesExactlyWhen(buckets, key);
    if i :| 0 <= i < |chain| && chain[i].key == key {
      OldestIsAt(chain, key, i);
      FindIsAt(chain, key, i);
    } else {
      OldestAbsent(chain, key);
      FindAbsent(chain, key, 0);
    }
  }

  // ---------- On the heap ----------

  /** The inner loop: writes one chain, newest binding first. */
  method SaveChain(m: HashMap, i: nat) returns (lines: string)
    requires m.Valid() && i < SIZE
    ensures lines == PrintPairs(m.buckets[i])
  {
    hide PrintPair;
    lines := "";
    var current := m.slots[i];
    ghost var nodes, chain, j := m.chains[i], m.buckets[i], 0;
    while current != null
      invariant 0 <= j <= |nodes| && current == Nth(nodes, j)
      invariant lines == PrintPairs(chain[..j])
      decreases |nodes| - j
    {
      lines := lines + PrintPair(Pair(current.key, current.status));
      PrintOneMore(chain[..j], chain[j]);
      assert chain[..j] + [chain[j]] == chain[..j + 1];
      current, j := current.next, j + 1;
    }
    assert chain[..j] == chain;
  }

  /** Writes every chain, bucket by bucket. */
  method SaveMapToFile(m: HashMap) returns (file: string)
    requires m.Valid()
    ensures file == PrintPairs(SaveOrder(m.buckets))
  {
    file := "";
    for i := 0 to SIZE
      invariant file == PrintPairs(SaveOrder(m.buckets[..i]))
    {
      var lines := SaveChain(m, i);
      file := file + lines;
      PrintPairsConcat(SaveOrder(m.buckets[..i]), m.buckets[i]);
      assert m.buckets[..i + 1][..i] == m.buckets[..i];
    }
    assert m.buckets[..SIZE] == m.buckets;
  }

  lemma PrintOneMore(ps: Chain, p: Pair)
    ensures PrintPairs(ps + [p]) == PrintPairs(ps) + PrintPair(p)
  {
    PrintPairsConcat(ps, [p]);
    assert PrintPairs([p]) == PrintPair(p) + PrintPairs([]);
  }

  /** The inner loop: inserts bindings until a scan falls short. */
  method LoadOnePass(file: string, m: HashMap) returns (rest: string)
    requires m.Valid() && PairsInTable(LoadPass(file).pairs)
    modifies m, m.slots
    ensures m.Valid() && fresh(m.Repr - old(m.Repr))
    ensures m.buckets == InsertAll(old(m.buckets), LoadPass(file).pairs)
    ensures rest == LoadPass(file).rest
  {
    ghost var start, unread := m.buckets, file;
    var r := ScanPair(file);
    while r.count == 2
      invariant m.Valid() && fresh(m.Repr - old(m.Repr))
      invariant r == ScanPair(unread) && LoadPass(unread).rest == LoadPass(file).rest
      invariant PairsInTable(LoadPass(unread).pairs)
      invariant InsertAll(m.buckets, LoadPass(unread).pairs) == InsertAll(start, LoadPass(file).pairs)
      decreases |unread|
    {
      ghost var ps, later := LoadPass(unread).pairs, LoadPass(r.rest).pairs;
      assert ps[0] == r.pair && ps[1..] == later;
      assert forall k :: 0 <= k < |later| ==> later[k] == ps[k + 1];
      m.Insert(r.pair.key, r.pair.status);
      unread := r.rest;
      r := ScanPair(r.rest);
    }
    rest := r.rest;
  }

  /** Inserts every binding read from the file, in the order of the file. */
  method LoadMapFromFile(file: string, m: HashMap)
    requires m.Valid() && Loadable(file, m.slots.Length)
    modifies m, m.slots
    ensures m.Valid() && fresh(m.Repr - old(m.Repr))
    ensures m.buckets == LoadAll(old(m.buckets), file, m.slots.Length)
  {
    hide ScanPair;
    var rest := file;
    ghost var left := m.slots.Length;
    for i := 0 to m.slots.Length
      invariant m.Valid() && fresh(m.Repr - old(m.Repr))
      invariant left == m.slots.Length - i && Loadable(rest, left)
      invariant LoadAll(m.buckets, rest, left) == LoadAll(old(m.buckets), file, m.slots.Length)
    {
      rest := LoadOnePass(rest, m);
      left := left - 1;
    }
  }

  /** Save, then load into a new map: every chain is there, reversed. */
  method Reload(m: HashMap) returns (fresher: HashMap)
    requires m.Valid()
    ensures fresher.Valid() && fresh(fresher) && fresher.buckets == Reloaded(m.buckets)
    ensures forall b :: 0 <= b < SIZE ==> fresher.buckets[b] == Reverse(m.buckets[b])
  {
    hide SaveOrder, InsertAll, PrintPairs, Reverse, Hash, InBucket;
    var file := SaveMapToFile(m);
    fresher := new HashMap();
    assert fresher.buckets == EmptyBuckets();
    assert PairsInTable(SaveOrder(m.buckets)) by {
      SaveOrderKeepsChains(m.buckets, SIZE, 0);
      assert m.buckets[..SIZE] == m.buckets;
    }
    FirstPassSuffices(fresher.buckets, SaveOrder(m.buckets), fresher.slots.Length);
    LoadMapFromFile(file, fresher);
    ReloadReverses(m.buckets);
  }
}
