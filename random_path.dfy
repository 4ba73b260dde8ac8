/** The "Initialize Random Path" button's shuffle: a Fisher-Yates pass over a copy of the
    points, walking i down from the last index to 1 and swapping position i with a drawn
    position index, 0 <= index <= i. */
module RandomPath {
  import opened DeliveryPoints

  /** The number of swap steps for a list of n points: indices n-1 down to 1. */
  function StepCount(n: nat): nat
  {
    if n == 0 then 0 else n - 1
  }

  /** draws[k] is the value random.nextInt(i + 1) returned at step k, where i = n - 1 - k. */
  predicate ValidDraws(n: nat, draws: seq<nat>)
  {
    |draws| <= StepCount(n) && forall k :: 0 <= k < |draws| ==> draws[k] <= n - 1 - k
  }

  /** One loop body: temp = path[index]; path[index] = path[i]; path[i] = temp. */
  function Swap(s: seq<DeliveryPoint>, i: nat, index: nat): seq<DeliveryPoint>
    requires i < |s| && index < |s|
  {
    s[index := s[i]][i := s[index]]
  }

  /** The list after the first |draws| steps of the loop. */
  function Shuffled(s: seq<DeliveryPoint>, draws: seq<nat>): (r: seq<DeliveryPoint>)
    requires ValidDraws(|s|, draws)
    ensures |r| == |s|
    decreases |draws|
  {
    if draws == [] then s
    else
      var k := |draws| - 1;
      assert ValidDraws(|s|, draws[..k]);
      Swap(Shuffled(s, draws[..k]), |s| - 1 - k, draws[k])
  }

  lemma SwapPermutes(s: seq<DeliveryPoint>, i: nat, index: nat)
    requires i < |s| && index < |s|
    ensures multiset(Swap(s, i, index)) == multiset(s)
  {
  }

  /** Every prefix of the loop permutes the list. */
  lemma {:induction false} ShuffledPermutes(s: seq<DeliveryPoint>, draws: seq<nat>)
    requires ValidDraws(|s|, draws)
    ensures multiset(Shuffled(s, draws)) == multiset(s)
  {
    if draws != [] {
      var k := |draws| - 1;
      assert ValidDraws(|s|, draws[..k]);
      ShuffledPermutes(s, draws[..k]);
      SwapPermutes(Shuffled(s, draws[..k]), |s| - 1 - k, draws[k]);
    }
  }

  /** Once the step for i has run, position i is never written again: later steps only touch
      positions below it. */
  lemma {:induction false} ShuffledSettles(s: seq<DeliveryPoint>, draws: seq<nat>, more: seq<nat>, j: nat)
    requires ValidDraws(|s|, draws + more)
    requires |s| - |draws| <= j < |s|
    ensures ValidDraws(|s|, draws)
    ensures Shuffled(s, draws + more)[j] == Shuffled(s, draws)[j]
    decreases |more|
  {
    assert (draws + more)[..|draws|] == draws;
    assert ValidDraws(|s|, draws);
    if more != [] {
      var m := |more| - 1;
      var all := draws + more;
      assert all[..|all| - 1] == draws + more[..m];
      assert ValidDraws(|s|, draws + more[..m]);
      ShuffledSettles(s, draws, more[..m], j);
      var before := Shuffled(s, draws + more[..m]);
      var p, index := |s| - 1 - (|all| - 1), all[|all| - 1];
      assert index <= p < j;
      assert Shuffled(s, all) == Swap(before, p, index);
      assert Swap(before, p, index)[j] == before[j];
      assert before[j] == Shuffled(s, draws)[j];
    } else {
      assert draws + more == draws;
    }
  }

  /** generateRandomPath: the result is the input permuted by some sequence of legal draws;
      the input itself is a value and so is left as it was. */
  method GenerateRandomPath(deliveryPoints: seq<DeliveryPoint>) returns (randomPath: seq<DeliveryPoint>)
    ensures |randomPath| == |deliveryPoints|
    ensures multiset(randomPath) == multiset(deliveryPoints)
    ensures exists draws :: |draws| == StepCount(|deliveryPoints|) && ValidDraws(|deliveryPoints|, draws) &&
                            randomPath == Shuffled(deliveryPoints, draws)
    ensures |deliveryPoints| <= 1 ==> randomPath == deliveryPoints
  {
    var path := new DeliveryPoint[|deliveryPoints|](k requires 0 <= k < |deliveryPoints| => deliveryPoints[k]);
    ghost var draws: seq<nat> := [];
    var i := path.Length - 1;
    while i > 0
      invariant -1 <= i < path.Length && (path.Length > 0 ==> 0 <= i)
      invariant |draws| == path.Length - 1 - i
      invariant ValidDraws(path.Length, draws)
      invariant path[..] == Shuffled(deliveryPoints, draws)
    {
      var index :| 0 <= index <= i;
      var temp := path[index];
      path[index] := path[i];
      path[i] := temp;
      draws := draws + [index];
      i := i - 1;
    }
    randomPath := path[..];
    ShuffledPermutes(deliveryPoints, draws);
    assert |draws| == StepCount(|deliveryPoints|);
  }
}
