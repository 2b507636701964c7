/**
 * Position-based list edits the engine performs on its route lists
 * (RemoveAt, Insert, Reverse over a range, element swap), written on sequences.
 */
module Lists {
  /** The list without its element at position k. */
  function RemoveAt<T>(s: seq<T>, k: nat): (r: seq<T>)
    requires k < |s|
    ensures |r| == |s| - 1
    ensures forall i :: 0 <= i < k ==> r[i] == s[i]
    ensures forall i :: k <= i < |r| ==> r[i] == s[i + 1]
  {
    s[..k] + s[k + 1..]
  }

  /** The list with x placed at position k, later elements shifted one place right. */
  function Insert<T>(s: seq<T>, k: nat, x: T): (r: seq<T>)
    requires k <= |s|
    ensures |r| == |s| + 1
    ensures r[k] == x
    ensures forall i :: 0 <= i < k ==> r[i] == s[i]
    ensures forall i :: k < i < |r| ==> r[i] == s[i - 1]
  {
    s[..k] + [x] + s[k..]
  }

  /** The list with the elements at positions i and j exchanged. */
  function Swap<T>(s: seq<T>, i: nat, j: nat): (r: seq<T>)
    requires i < |s| && j < |s|
    ensures |r| == |s|
  {
    s[i := s[j]][j := s[i]]
  }

  function Reversed<T>(s: seq<T>): (r: seq<T>)
    ensures |r| == |s|
    ensures forall i :: 0 <= i < |s| ==> r[i] == s[|s| - 1 - i]
  {
    if s == [] then [] else Reversed(s[1..]) + [s[0]]
  }

  /** The list with the count elements starting at index in reverse order. */
  function ReverseRange<T>(s: seq<T>, index: nat, count: nat): (r: seq<T>)
    requires index + count <= |s|
    ensures |r| == |s|
  {
    s[..index] + Reversed(s[index..index + count]) + s[index + count..]
  }

  /** Reversing a range moves the element at k within it to the mirrored position and leaves the rest in place. */
  lemma ReverseRangeAt<T>(s: seq<T>, index: nat, count: nat)
    requires index + count <= |s|
    ensures forall k :: 0 <= k < index ==> ReverseRange(s, index, count)[k] == s[k]
    ensures forall k :: index + count <= k < |s| ==> ReverseRange(s, index, count)[k] == s[k]
    ensures forall k :: index <= k < index + count ==> ReverseRange(s, index, count)[k] == s[2 * index + count - 1 - k]
  {
    var u := s[index..index + count];
    assert forall k :: index <= k < index + count ==> ReverseRange(s, index, count)[k] == Reversed(u)[k - index];
  }

  /** A list is its part before k, its element at k and its part after k. */
  lemma SplitAt<T>(s: seq<T>, k: nat)
    requires k < |s|
    ensures s == s[..k] + [s[k]] + s[k + 1..]
  {
    assert s[..k] + [s[k]] == s[..k + 1];
    assert s[..k + 1] + s[k + 1..] == s;
  }

  lemma RemoveAtMultiset<T>(s: seq<T>, k: nat)
    requires k < |s|
    ensures multiset(RemoveAt(s, k)) == multiset(s) - multiset{s[k]}
  {
    SplitAt(s, k);
    assert multiset(s) == multiset(s[..k]) + multiset{s[k]} + multiset(s[k + 1..]);
  }

  lemma InsertMultiset<T>(s: seq<T>, k: nat, x: T)
    requires k <= |s|
    ensures multiset(Insert(s, k, x)) == multiset(s) + multiset{x}
  {
    assert s == s[..k] + s[k..];
  }

  lemma SwapMultiset<T>(s: seq<T>, i: nat, j: nat)
    requires i < |s| && j < |s|
    ensures multiset(Swap(s, i, j)) == multiset(s)
  {
    var t := s[i := s[j]];
    assert multiset(t) == multiset(s) - multiset{s[i]} + multiset{s[j]};
    assert multiset(t[j := s[i]]) == multiset(t) - multiset{t[j]} + multiset{s[i]};
  }

  lemma ReversedMultiset<T>(s: seq<T>)
    ensures multiset(Reversed(s)) == multiset(s)
  {
    if s != [] {
      ReversedMultiset(s[1..]);
      assert s == [s[0]] + s[1..];
    }
  }

  /** Reversing a range permutes the list. */
  lemma ReverseRangeMultiset<T>(s: seq<T>, index: nat, count: nat)
    requires index + count <= |s|
    ensures multiset(ReverseRange(s, index, count)) == multiset(s)
  {
    var a, u, b := s[..index], s[index..index + count], s[index + count..];
    assert s == a + u + b;
    ReversedMultiset(u);
  }

  /** Every reversal of a range permutes its list. */
  lemma ReverseRangesMultiset<T>()
    ensures forall s: seq<T>, index: nat, count: nat ::
      index + count <= |s| ==> multiset(ReverseRange(s, index, count)) == multiset(s)
  {
    forall s: seq<T>, index: nat, count: nat | index + count <= |s|
      ensures multiset(ReverseRange(s, index, count)) == multiset(s)
    {
      ReverseRangeMultiset(s, index, count);
    }
  }
}
