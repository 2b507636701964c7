/**
 * The randomised neighbour choice of GRASP: the candidates are ordered by distance and one
 * of the first randomWindow of them is drawn.
 */
module GraspSelection {
  import opened Graph
  import opened Randomness
  import opened Lists

  /** A candidate: the node, its distance from the current node, its position in the list. */
  datatype Candidate = Candidate(node: Node, distance: real, index: nat)

  /** The candidates in list order, each with its distance from current. */
  function Candidates(m: Metric, current: Node, neighbours: seq<Node>): (c: seq<Candidate>)
    ensures |c| == |neighbours|
  {
    seq(|neighbours|, i requires 0 <= i < |neighbours| =>
      Candidate(neighbours[i], DistanceBetween(m, current, neighbours[i]), i))
  }

  predicate SortedByDistance(s: seq<Candidate>)
  {
    forall p, q :: 0 <= p < q < |s| ==> s[p].distance <= s[q].distance
  }

  /** How many candidates are strictly closer than d. */
  function CountCloser(s: seq<Candidate>, d: real): nat
    decreases |s|
  {
    if s == [] then 0 else (if s[0].distance < d then 1 else 0) + CountCloser(s[1..], d)
  }

  /** How many candidates are at distance d or closer. */
  function CountWithin(s: seq<Candidate>, d: real): nat
    decreases |s|
  {
    if s == [] then 0 else (if s[0].distance <= d then 1 else 0) + CountWithin(s[1..], d)
  }

  /** Orders the candidates by distance, in place (insertion sort). */
  method SortByDistance(a: array<Candidate>)
    modifies a
    ensures SortedByDistance(a[..])
    ensures multiset(a[..]) == multiset(old(a[..]))
  {
    if a.Length == 0 {
      return;
    }
    var i := 1;
    while i < a.Length
      invariant 1 <= i <= a.Length
      invariant SortedByDistance(a[..i])
      invariant multiset(a[..]) == multiset(old(a[..]))
    {
      InsertIntoSorted(a, i);
      i := i + 1;
    }
    assert a[..i] == a[..];
  }

  /** Moves a[i] left until a[..i + 1] is ordered, by swaps of neighbours. */
  method InsertIntoSorted(a: array<Candidate>, i: nat)
    requires i < a.Length
    requires SortedByDistance(a[..i])
    modifies a
    ensures SortedByDistance(a[..i + 1])
    ensures multiset(a[..]) == multiset(old(a[..]))
  {
    var j := i;
    while j > 0 && a[j - 1].distance > a[j].distance
      invariant 0 <= j <= i
      invariant forall p, q :: 0 <= p < q <= i && p != j && q != j ==> a[p].distance <= a[q].distance
      invariant forall q :: j < q <= i ==> a[j].distance <= a[q].distance
      invariant multiset(a[..]) == multiset(old(a[..]))
    {
      SwapNeighbours(a, j - 1);
      j := j - 1;
    }
  }

  /** Exchanges a[k] and a[k + 1]. */
  method SwapNeighbours(a: array<Candidate>, k: nat)
    requires k + 1 < a.Length
    modifies a
    ensures a[k] == old(a[k + 1]) && a[k + 1] == old(a[k])
    ensures forall p :: 0 <= p < a.Length && p != k && p != k + 1 ==> a[p] == old(a[p])
    ensures multiset(a[..]) == multiset(old(a[..]))
  {
    var x := a[k];
    a[k] := a[k + 1];
    a[k + 1] := x;
  }

  /**
   * The GRASP choice: with the candidates ordered by distance, the one at the position drawn
   * from [0, min(|neighbours|, randomWindow)). Its rank is the draw: exactly the candidates
   * before it in the order can be strictly closer, and it and those before it are no farther.
   */
  method GetClosestNeighbour(m: Metric, current: Node, neighbours: seq<Node>, randomWindow: nat, draw: nat)
      returns (chosen: Candidate)
    requires |neighbours| > 0
    ensures chosen.index < |neighbours| && chosen == Candidates(m, current, neighbours)[chosen.index]
    ensures var rank := NextInRange(draw, Min(|neighbours|, randomWindow));
      CountCloser(Candidates(m, current, neighbours), chosen.distance) <= rank
      < CountWithin(Candidates(m, current, neighbours), chosen.distance)
  {
    var window := Min(|neighbours|, randomWindow);
    var c := Candidates(m, current, neighbours);
    var distances := new Candidate[|neighbours|](i requires 0 <= i < |neighbours| => c[i]);
    assert distances[..] == c;
    SortByDistance(distances);
    var randomIndex := NextInRange(draw, window);
    chosen := distances[randomIndex];
    RankInSorted(distances[..], randomIndex);
    CountCloserPermutation(distances[..], c, chosen.distance);
    CountWithinPermutation(distances[..], c, chosen.distance);
    assert chosen in multiset(c);
  }

  function Min(a: int, b: int): int { if a < b then a else b }

  /** In distance order, the candidate at position r has at most r strictly closer ones, and r + 1 within its distance. */
  lemma RankInSorted(s: seq<Candidate>, r: nat)
    requires SortedByDistance(s) && r < |s|
    ensures CountCloser(s, s[r].distance) <= r < CountWithin(s, s[r].distance)
  {
    var d := s[r].distance;
    CountSplit(s, r + 1, d);
    CountCloserNone(s[r + 1..], d);
    CountCloserBound(s[..r + 1], d);
    CountWithinAll(s[..r + 1], d);
  }

  lemma CountSplit(s: seq<Candidate>, k: nat, d: real)
    requires k <= |s|
    ensures CountCloser(s, d) == CountCloser(s[..k], d) + CountCloser(s[k..], d)
    ensures CountWithin(s, d) == CountWithin(s[..k], d) + CountWithin(s[k..], d)
  {
    assert s == s[..k] + s[k..];
    CountConcat(s[..k], s[k..], d);
  }

  lemma {:induction false} CountConcat(a: seq<Candidate>, b: seq<Candidate>, d: real)
    ensures CountCloser(a + b, d) == CountCloser(a, d) + CountCloser(b, d)
    ensures CountWithin(a + b, d) == CountWithin(a, d) + CountWithin(b, d)
    decreases |a|
  {
    if a == [] {
      assert a + b == b;
    } else {
      assert (a + b)[1..] == a[1..] + b;
      CountConcat(a[1..], b, d);
    }
  }

  lemma {:induction false} CountCloserNone(s: seq<Candidate>, d: real)
    requires forall k :: 0 <= k < |s| ==> s[k].distance >= d
    ensures CountCloser(s, d) == 0
    decreases |s|
  {
    if s != [] {
      CountCloserNone(s[1..], d);
    }
  }

  lemma {:induction false} CountCloserBound(s: seq<Candidate>, d: real)
    requires |s| > 0 && s[|s| - 1].distance == d
    ensures CountCloser(s, d) <= |s| - 1
    decreases |s|
  {
    if |s| > 1 {
      CountCloserBound(s[1..], d);
    }
  }

  lemma {:induction false} CountWithinAll(s: seq<Candidate>, d: real)
    requires forall k :: 0 <= k < |s| ==> s[k].distance <= d
    ensures CountWithin(s, d) == |s|
    decreases |s|
  {
    if s != [] {
      CountWithinAll(s[1..], d);
    }
  }

  lemma CountRemoveAt(s: seq<Candidate>, k: nat, d: real)
    requires k < |s|
    ensures CountCloser(s, d) == CountCloser(s[..k] + s[k + 1..], d) + (if s[k].distance < d then 1 else 0)
    ensures CountWithin(s, d) == CountWithin(s[..k] + s[k + 1..], d) + (if s[k].distance <= d then 1 else 0)
  {
    assert s == s[..k] + ([s[k]] + s[k + 1..]);
    CountConcat(s[..k], [s[k]] + s[k + 1..], d);
    CountConcat([s[k]], s[k + 1..], d);
    CountConcat(s[..k], s[k + 1..], d);
  }

  lemma {:induction false} CountCloserPermutation(s: seq<Candidate>, t: seq<Candidate>, d: real)
    requires multiset(s) == multiset(t)
    ensures CountCloser(s, d) == CountCloser(t, d)
    decreases |s|
  {
    CountPermutation(s, t, d);
  }

  lemma CountWithinPermutation(s: seq<Candidate>, t: seq<Candidate>, d: real)
    requires multiset(s) == multiset(t)
    ensures CountWithin(s, d) == CountWithin(t, d)
  {
    CountPermutation(s, t, d);
  }

  lemma {:induction false} CountPermutation(s: seq<Candidate>, t: seq<Candidate>, d: real)
    requires multiset(s) == multiset(t)
    ensures CountCloser(s, d) == CountCloser(t, d) && CountWithin(s, d) == CountWithin(t, d)
    decreases |s|
  {
    if s != [] {
      assert s[0] in multiset(t);
      var k :| 0 <= k < |t| && t[k] == s[0];
      var t' := RemoveAt(t, k);
      RemoveAtMultiset(t, k);
      assert s == [s[0]] + s[1..];
      assert multiset(s[1..]) == multiset(t');
      CountPermutation(s[1..], t', d);
      CountRemoveAt(t, k, d);
    }
  }
}
