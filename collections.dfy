/** Small value types shared by the model: an Option, and the key order of
    an insertion-ordered dictionary (the order in which Python iterates a dict). */
module Collections {

  datatype Option<+T> = None | Some(value: T)

  /** No key appears twice in a key order. */
  predicate Distinct<K(==)>(s: seq<K>)
  {
    forall i, j :: 0 <= i < j < |s| ==> s[i] != s[j]
  }

  /** The key order after `del d[k]`: every other key keeps its relative position. */
  function Without<K(==, !new)>(s: seq<K>, k: K): (r: seq<K>)
    ensures forall x :: x in r <==> x in s && x != k
    ensures Distinct(s) ==> Distinct(r)
    ensures k !in s ==> r == s
  {
    if s == [] then []
    else if s[0] == k then Without(s[1..], k)
    else
      var rest := Without(s[1..], k);
      assert Distinct(s) ==> s[0] !in s[1..] && s[0] !in rest && Distinct(s[1..]);
      [s[0]] + rest
  }

  /** Deleting the key at position i of a duplicate-free key order leaves the
      keys before it and the keys after it, each in their old order. */
  lemma {:induction false} WithoutAt<K(!new)>(s: seq<K>, i: int)
    requires Distinct(s) && 0 <= i < |s|
    ensures Without(s, s[i]) == s[..i] + s[i + 1..]
    decreases i
  {
    if i == 0 {
      assert s[0] !in s[1..];
    } else {
      var tail := s[1..];
      assert tail[i - 1] == s[i] && s[0] != s[i];
      assert Distinct(tail);
      WithoutAt(tail, i - 1);
      assert s[..i] == [s[0]] + tail[..i - 1];
      assert s[i + 1..] == tail[i..];
    }
  }
}
