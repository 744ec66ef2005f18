/** The smooth weighted round-robin load balancer. */
module Balancer {
  import opened Wrappers
  import opened SmoothSchedule

  datatype Node<T> = Node(value: T, current: int, weight: int)

  type Uint32 = w: int | 0 <= w < 0x1_0000_0000

  /** The source's cast of an unsigned weight to a signed 32-bit integer. */
  function AsInt32(w: Uint32): int {
    if w < 0x8000_0000 then w else w - 0x1_0000_0000
  }

  /** The node has the weight it was given, or 2^32 less if that is 2^31 or more. */
  ghost predicate GivenWeight<T>(node: Node<T>, w: Uint32) {
    && (w < 0x8000_0000 ==> node.weight == w)
    && (w >= 0x8000_0000 ==> node.weight == w - 0x1_0000_0000)
  }

  function Currents<T>(nodes: seq<Node<T>>): (s: seq<int>)
    ensures |s| == |nodes|
    ensures forall i :: 0 <= i < |s| ==> s[i] == nodes[i].current
  {
    seq(|nodes|, i requires 0 <= i < |nodes| => nodes[i].current)
  }

  function Weights<T>(nodes: seq<Node<T>>): (s: seq<int>)
    ensures |s| == |nodes|
    ensures forall i :: 0 <= i < |s| ==> s[i] == nodes[i].weight
  {
    seq(|nodes|, i requires 0 <= i < |nodes| => nodes[i].weight)
  }

  /** The largest current weight among the first `n` nodes after the raise, first position wins. */
  ghost predicate Leads<T>(nodes: seq<Node<T>>, n: nat, p: nat) {
    && p < n <= |nodes|
    && (forall j :: 0 <= j < n ==> nodes[j].current <= nodes[p].current)
    && (forall j :: 0 <= j < p ==> nodes[j].current < nodes[p].current)
  }

  /** The state of the schedule after the selections `picks` from the start. */
  ghost predicate Follows(current: seq<int>, weights: seq<int>, picks: seq<nat>) {
    && (weights == [] ==> picks == [])
    && (weights != [] ==>
          && current == After(weights, |picks|)
          && forall t :: 0 <= t < |picks| ==> picks[t] == Picked(weights, t))
  }

  lemma FollowsOneMore(current: seq<int>, weights: seq<int>, picks: seq<nat>)
    requires |current| == |weights| > 0 && Follows(current, weights, picks)
    ensures Follows(Step(current, weights, Sum(weights)), weights, picks + [Pick(Raise(current, weights))])
  {
    hide Sum, Step, Pick, Raise;
    assert picks + [Pick(Raise(current, weights))] == picks + [Picked(weights, |picks|)];
  }

  lemma PayCompletesStep<T>(nodes: seq<Node<T>>, current: seq<int>, total: int, p: nat)
    requires |current| == |nodes| > 0 && Currents(nodes) == Raise(current, Weights(nodes))
    requires p == Pick(Currents(nodes))
    ensures var paid := nodes[p := nodes[p].(current := nodes[p].current - total)];
            Weights(paid) == Weights(nodes) && Currents(paid) == Step(current, Weights(nodes), total)
  {
    hide Pick;
  }

  class WeightRoundRobin<T(==)> {
    var nodes: seq<Node<T>>
    var totalWeight: int

    // What was picked since construction, as long as no node was appended.
    ghost var picks: seq<nat>

    ghost predicate Valid()
      reads this
    {
      && totalWeight == Sum(Weights(nodes))
      && Sum(Currents(nodes)) == 0
    }

    ghost predicate OnSchedule()
      reads this
    {
      Follows(Currents(nodes), Weights(nodes), picks)
    }

    constructor (values: seq<T>, weights: seq<Uint32>)
      ensures Valid() && OnSchedule() && picks == []
      ensures |nodes| == |values|
      ensures forall i :: 0 <= i < |nodes| ==>
                && nodes[i].value == values[i]
                && nodes[i].weight == (if |weights| == |values| then AsInt32(weights[i]) else 1)
      ensures |weights| == |values| ==> forall i :: 0 <= i < |nodes| ==> GivenWeight(nodes[i], weights[i])
    {
      nodes, totalWeight, picks := [], 0, [];
      new;
      for i := 0 to |values|
        invariant |nodes| == i && picks == []
        invariant totalWeight == Sum(Weights(nodes))
        invariant forall j :: 0 <= j < i ==>
                    nodes[j] == Node(values[j], 0, if |weights| == |values| then AsInt32(weights[j]) else 1)
      {
        var weight := if |weights| == |values| then AsInt32(weights[i]) else 1;
        ghost var before := nodes;
        nodes := nodes + [Node(values[i], 0, weight)];
        assert Weights(nodes)[..i] == Weights(before);
        totalWeight := totalWeight + weight;
      }
      assert Currents(nodes) == Zeros(|nodes|);
      SumOfZeros(|nodes|);
    }

    method Append(value: T, weight: Uint32)
      requires Valid()
      modifies this
      ensures Valid() && nodes == old(nodes) + [Node(value, 0, AsInt32(weight))]
      ensures GivenWeight(nodes[|old(nodes)|], weight)
    {
      ghost var before := nodes;
      nodes := nodes + [Node(value, 0, AsInt32(weight))];
      assert Weights(nodes)[..|before|] == Weights(before);
      assert Currents(nodes)[..|before|] == Currents(before);
      totalWeight := totalWeight + AsInt32(weight);
    }

    /** Add every node's weight to its current weight, and find the first of the largest. */
    method RaiseAll() returns (p: nat)
      requires nodes != []
      modifies this`nodes
      ensures |nodes| == |old(nodes)| && Weights(nodes) == old(Weights(nodes))
      ensures forall j :: 0 <= j < |nodes| ==> nodes[j].value == old(nodes)[j].value
      ensures Currents(nodes) == Raise(old(Currents(nodes)), Weights(nodes))
      ensures p == Pick(Currents(nodes))
    {
      p := 0;
      var i := 0;
      while i < |nodes|
        invariant 0 <= i <= |nodes| == |old(nodes)|
        invariant forall j :: 0 <= j < i ==>
                    nodes[j] == old(nodes)[j].(current := old(nodes)[j].current + old(nodes)[j].weight)
        invariant forall j :: i <= j < |nodes| ==> nodes[j] == old(nodes)[j]
        invariant i > 0 ==> Leads(nodes, i, p)
      {
        nodes := nodes[i := nodes[i].(current := nodes[i].current + nodes[i].weight)];
        if i == 0 || nodes[i].current > nodes[p].current {
          p := i;
        }
        i := i + 1;
      }
    }

    method Select() returns (chosen: Option<T>)
      requires Valid()
      modifies this
      ensures Valid() && (old(OnSchedule()) ==> OnSchedule())
      ensures totalWeight == old(totalWeight) && Weights(nodes) == old(Weights(nodes))
      ensures |nodes| == |old(nodes)| && forall j :: 0 <= j < |nodes| ==> nodes[j].value == old(nodes)[j].value
      ensures old(nodes) == [] ==> nodes == [] && chosen == None && picks == old(picks)
      ensures old(nodes) != [] ==>
                var p := Pick(Raise(old(Currents(nodes)), Weights(nodes)));
                && picks == old(picks) + [p] && chosen == Some(old(nodes)[p].value)
                && Currents(nodes) == Step(old(Currents(nodes)), Weights(nodes), totalWeight)
    {
      hide Pick, Sum, Step, Raise, Currents, Weights, Follows, After;
      if nodes == [] {
        return None;
      }
      ghost var before := Currents(nodes);
      var p := RaiseAll();
      PayCompletesStep(nodes, before, totalWeight, p);
      StepSum(before, Weights(nodes), totalWeight);
      if old(OnSchedule()) { FollowsOneMore(before, Weights(nodes), picks); }
      chosen := Some(nodes[p].value);
      nodes := nodes[p := nodes[p].(current := nodes[p].current - totalWeight)];
      picks := picks + [p];
    }
  }

  lemma {:induction false} PicksCounted(weights: seq<int>, picks: seq<nat>, i: nat)
    requires weights != [] && forall t :: 0 <= t < |picks| ==> picks[t] == Picked(weights, t)
    ensures multiset(picks)[i] == Count(weights, i, |picks|)
  {
    hide Picked;
    if picks != [] {
      var last := |picks| - 1;
      PicksCounted(weights, picks[..last], i);
      assert picks == picks[..last] + [picks[last]];
    }
  }

  /** After as many selections as the weights sum to, every node was picked as often as it weighs. */
  lemma RoundCounted(weights: seq<int>, picks: seq<nat>, i: nat)
    requires weights != [] && (forall j :: 0 <= j < |weights| ==> weights[j] >= 0) && i < |weights|
    requires |picks| == Sum(weights) && forall t :: 0 <= t < |picks| ==> picks[t] == Picked(weights, t)
    ensures multiset(picks)[i] == weights[i]
  {
    hide Sum, Picked, Count;
    PicksCounted(weights, picks, i);
    if Sum(weights) > 0 {
      OneRound(weights);
      assert Counts(weights, Sum(weights))[i] == Count(weights, i, Sum(weights));
    } else {
      SumAtLeast(weights, i, 0);
      assert picks == [];
    }
  }

  lemma {:induction false} SumOfOnes(s: seq<int>)
    requires forall i :: 0 <= i < |s| ==> s[i] == 1
    ensures Sum(s) == |s|
  {
    if s != [] { SumOfOnes(s[..|s| - 1]); }
  }

  lemma NoWeight(s: seq<int>)
    requires s == []
    ensures Sum(s) == 0
  {
  }

  /**
   A whole round of a new balancer: `picks` are the positions of what it selected.  Every node is
   selected as often as its weight says, and once if the weights do not match the nodes.
   */
  method FullRound<T(==)>(values: seq<T>, weights: seq<Uint32>) returns (chosen: seq<T>, ghost picks: seq<nat>)
    requires |weights| == |values| ==> forall i :: 0 <= i < |weights| ==> weights[i] < 0x8000_0000
    ensures |chosen| == |picks| == if |weights| == |values| then Sum(weights) else |values|
    ensures forall t :: 0 <= t < |chosen| ==> picks[t] < |values| && chosen[t] == values[picks[t]]
    ensures forall i :: 0 <= i < |values| ==> multiset(picks)[i] == if |weights| == |values| then weights[i] else 1
  {
    hide Sum, Picked, Pick, Raise, Step, After;
    var b := new WeightRoundRobin(values, weights);
    ghost var given := Weights(b.nodes);
    if |weights| == |values| { assert given == weights; } else { SumOfOnes(given); }
    SumBounded(given, 0);
    if values == [] { NoWeight(given); }
    chosen, picks := [], [];
    while |chosen| < b.totalWeight
      invariant b.Valid() && b.OnSchedule() && b.totalWeight == Sum(given) && Weights(b.nodes) == given
      invariant forall j :: 0 <= j < |b.nodes| ==> b.nodes[j].value == values[j]
      invariant |chosen| == |picks| && picks == b.picks && |picks| <= b.totalWeight
      invariant forall t :: 0 <= t < |chosen| ==> picks[t] < |values| && chosen[t] == values[picks[t]]
      decreases b.totalWeight - |chosen|
    {
      var next := b.Select();
      chosen, picks := chosen + [next.value], b.picks;
    }
    forall i | 0 <= i < |values| ensures multiset(picks)[i] == given[i] { RoundCounted(given, picks, i); }
  }
}
