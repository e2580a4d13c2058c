/** The conventional optional value, and searching a sequence for a value. */
module Options {

  datatype Option<+T> = None | Some(value: T)

  /** No value occurs twice. */
  ghost predicate Distinct<T>(s: seq<T>) {
    forall i, j :: 0 <= i < j < |s| ==> s[i] != s[j]
  }

  /** The index of the first occurrence of `x`, if there is one. */
  function IndexOf(s: seq<int>, x: int): (r: Option<nat>)
    ensures r.None? <==> x !in s
    ensures r.Some? ==> r.value < |s| && s[r.value] == x && x !in s[..r.value]
  {
    if s == [] then None
    else if s[0] == x then Some(0)
    else
      var t := IndexOf(s[1..], x);
      assert s == [s[0]] + s[1..];
      if t.None? then None
      else
        assert s[..t.value + 1] == [s[0]] + s[1..][..t.value];
        Some(t.value + 1)
  }

  /** A first occurrence is characterised by its value and by what precedes it. */
  lemma IndexOfUnique(s: seq<int>, x: int, m: nat)
    requires m < |s| && s[m] == x && x !in s[..m]
    ensures IndexOf(s, x) == Some(m)
  {
  }
}
