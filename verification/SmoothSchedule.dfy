/** The arithmetic of smooth weighted round robin, started from all-zero current weights. */
module SmoothSchedule {

  function Sum(s: seq<int>): int {
    if s == [] then 0 else Sum(s[..|s| - 1]) + s[|s| - 1]
  }

  /** The first position of a largest value. */
  function Pick(s: seq<int>): (p: nat)
    requires s != []
    ensures p < |s|
    ensures forall j :: 0 <= j < |s| ==> s[j] <= s[p]
    ensures forall j :: 0 <= j < p ==> s[j] < s[p]
  {
    if |s| == 1 then 0 else
    var p := Pick(s[..|s| - 1]);
    if s[|s| - 1] > s[p] then |s| - 1 else p
  }

  function Raise(current: seq<int>, weights: seq<int>): (raised: seq<int>)
    requires |current| == |weights|
    ensures |raised| == |current|
    ensures forall i :: 0 <= i < |raised| ==> raised[i] == current[i] + weights[i]
  {
    seq(|current|, i requires 0 <= i < |current| => current[i] + weights[i])
  }

  /** One selection: every current weight grows by its weight, then the winner pays the total. */
  function Step(current: seq<int>, weights: seq<int>, total: int): (after: seq<int>)
    requires |current| == |weights| > 0
    ensures |after| == |current|
  {
    var raised := Raise(current, weights);
    raised[Pick(raised) := raised[Pick(raised)] - total]
  }

  function Zeros(n: nat): seq<int> { seq(n, _ => 0) }

  /** The current weights after `t` selections. */
  function After(weights: seq<int>, t: nat): (current: seq<int>)
    requires weights != []
    ensures |current| == |weights|
  {
    if t == 0 then Zeros(|weights|) else Step(After(weights, t - 1), weights, Sum(weights))
  }

  /** The node that selection number `t` (from 0) picks. */
  function Picked(weights: seq<int>, t: nat): (p: nat)
    requires weights != []
    ensures p < |weights|
  {
    Pick(Raise(After(weights, t), weights))
  }

  /** How often node `i` is picked in the first `t` selections. */
  function Count(weights: seq<int>, i: nat, t: nat): nat
    requires weights != []
  {
    if t == 0 then 0 else Count(weights, i, t - 1) + (if Picked(weights, t - 1) == i then 1 else 0)
  }

  function Counts(weights: seq<int>, t: nat): (counts: seq<int>)
    requires weights != []
    ensures |counts| == |weights|
    ensures forall i :: 0 <= i < |counts| ==> counts[i] == Count(weights, i, t)
  {
    seq(|weights|, i requires 0 <= i < |weights| => Count(weights, i, t))
  }

  ghost predicate Proper(weights: seq<int>) {
    weights != [] && (forall i :: 0 <= i < |weights| ==> weights[i] >= 0) && Sum(weights) > 0
  }

  // ---- sums ------------------------------------------------------------------------------------

  lemma {:induction false} SumUpdate(s: seq<int>, i: nat, x: int)
    requires i < |s|
    ensures Sum(s[i := x]) == Sum(s) - s[i] + x
  {
    var last := |s| - 1;
    if i < last {
      SumUpdate(s[..last], i, x);
      assert s[i := x][..last] == s[..last][i := x];
    } else {
      assert s[i := x][..last] == s[..last];
    }
  }

  lemma {:induction false} SumRaise(a: seq<int>, b: seq<int>)
    requires |a| == |b|
    ensures Sum(Raise(a, b)) == Sum(a) + Sum(b)
  {
    if a != [] {
      var last := |a| - 1;
      SumRaise(a[..last], b[..last]);
      assert Raise(a, b)[..last] == Raise(a[..last], b[..last]);
    }
  }

  lemma {:induction false} SumOfZeros(n: nat)
    ensures Sum(Zeros(n)) == 0
  {
    if n > 0 {
      SumOfZeros(n - 1);
      assert Zeros(n)[..n - 1] == Zeros(n - 1);
    }
  }

  /** A sum is at least one of its terms plus the lower bound for each of the others. */
  lemma {:induction false} SumAtLeast(s: seq<int>, i: nat, low: int)
    requires i < |s| && forall j :: 0 <= j < |s| ==> low <= s[j]
    ensures s[i] + (|s| - 1) * low <= Sum(s)
  {
    var last := |s| - 1;
    if i < last {
      SumAtLeast(s[..last], i, low);
    } else {
      SumBounded(s[..last], low);
    }
  }

  lemma {:induction false} SumBounded(s: seq<int>, low: int)
    requires forall j :: 0 <= j < |s| ==> low <= s[j]
    ensures |s| * low <= Sum(s)
  {
    if s != [] { SumBounded(s[..|s| - 1], low); }
  }

  lemma {:induction false} SumNotPositive(s: seq<int>)
    requires forall j :: 0 <= j < |s| ==> s[j] <= 0
    ensures Sum(s) <= 0
  {
    if s != [] { SumNotPositive(s[..|s| - 1]); }
  }

  lemma {:induction false} SumOrder(a: seq<int>, b: seq<int>)
    requires |a| == |b| && forall j :: 0 <= j < |a| ==> a[j] <= b[j]
    ensures Sum(a) <= Sum(b)
    ensures Sum(a) == Sum(b) ==> a == b
  {
    if a != [] { SumOrder(a[..|a| - 1], b[..|b| - 1]); }
  }

  // ---- products --------------------------------------------------------------------------------

  lemma Distribute(a: int, b: int, c: int)
    ensures (a + b) * c == a * c + b * c && c * (a + b) == c * a + c * b
  {
  }

  lemma SameFactor(total: int, a: int, b: int)
    requires total > 0 && total * a <= total * b
    ensures a <= b
  {
    if b < a {
      Distribute(a - b - 1, 1 + b, total);
      Distribute(b, 1, total);
      NotNegative(a - b - 1, total);
    }
  }

  lemma NotNegative(a: int, b: int)
    requires a >= 0 && b >= 0
    ensures a * b >= 0
  {
  }

  // ---- the invariant of every run --------------------------------------------------------------

  lemma StepAt(current: seq<int>, weights: seq<int>, total: int, i: nat)
    requires |current| == |weights| && i < |weights|
    ensures Step(current, weights, total)[i]
            == current[i] + weights[i] - (if Pick(Raise(current, weights)) == i then total else 0)
  {
  }

  lemma StepSum(current: seq<int>, weights: seq<int>, total: int)
    requires |current| == |weights| > 0
    ensures Sum(Step(current, weights, total)) == Sum(current) + Sum(weights) - total
  {
    hide Sum, Pick, Raise;
    var raised := Raise(current, weights);
    SumRaise(current, weights);
    SumUpdate(raised, Pick(raised), raised[Pick(raised)] - total);
  }

  /** The current weights sum to zero after every selection. */
  lemma {:induction false} SumStaysZero(weights: seq<int>, t: nat)
    requires weights != []
    ensures Sum(After(weights, t)) == 0
  {
    hide Sum, Step;
    if t == 0 {
      SumOfZeros(|weights|);
    } else {
      SumStaysZero(weights, t - 1);
      StepSum(After(weights, t - 1), weights, Sum(weights));
    }
  }

  lemma WinnerIsPositive(current: seq<int>, weights: seq<int>)
    requires |current| == |weights| > 0 && Sum(current) == 0 && Sum(weights) > 0
    ensures var raised := Raise(current, weights); raised[Pick(raised)] > 0
  {
    hide Sum;
    var raised := Raise(current, weights);
    SumRaise(current, weights);
    if raised[Pick(raised)] <= 0 { SumNotPositive(raised); }
  }

  /** No current weight ever falls to minus the total. */
  lemma {:induction false} StaysAboveMinusTotal(weights: seq<int>, t: nat, i: nat)
    requires Proper(weights) && i < |weights|
    ensures -Sum(weights) < After(weights, t)[i]
  {
    hide Sum, Step;
    if t > 0 {
      var before := After(weights, t - 1);
      StaysAboveMinusTotal(weights, t - 1, i);
      SumStaysZero(weights, t - 1);
      WinnerIsPositive(before, weights);
      StepAt(before, weights, Sum(weights), i);
    }
  }

  /** The current weight of a node is what it has earned minus what its selections have cost. */
  lemma {:induction false} EarnedMinusPaid(weights: seq<int>, t: nat, i: nat)
    requires weights != [] && i < |weights|
    ensures After(weights, t)[i] == t * weights[i] - Sum(weights) * Count(weights, i, t)
  {
    hide Sum, Step, Pick, Raise;
    if t > 0 {
      EarnedMinusPaid(weights, t - 1, i);
      StepAt(After(weights, t - 1), weights, Sum(weights), i);
      Distribute(t - 1, 1, weights[i]);
      Distribute(Count(weights, i, t - 1), 1, Sum(weights));
    }
  }

  /** While a selection runs every value lies strictly above -W and at most at kW - (k - 1). */
  lemma ValuesStayBounded(weights: seq<int>, t: nat, i: nat)
    requires Proper(weights) && i < |weights|
    ensures var raised := Raise(After(weights, t), weights)[i];
            -Sum(weights) < raised <= |weights| * Sum(weights) - (|weights| - 1)
  {
    hide Sum, After;
    var raised, total := Raise(After(weights, t), weights), Sum(weights);
    forall j | 0 <= j < |weights| ensures 1 - total <= raised[j] { StaysAboveMinusTotal(weights, t, j); }
    SumStaysZero(weights, t);
    SumRaise(After(weights, t), weights);
    SumAtLeast(raised, i, 1 - total);
    Distribute(1, -total, |weights| - 1);
    Distribute(|weights|, -1, -total);
  }

  /** Strictly below kW throughout is exactly a matter of having more than one node: a single node reaches W. */
  lemma BelowKWIffSeveral(weights: seq<int>, i: nat)
    requires Proper(weights) && i < |weights|
    ensures (forall t: nat :: Raise(After(weights, t), weights)[i] < |weights| * Sum(weights)) <==> |weights| >= 2
  {
    if |weights| >= 2 {
      forall t: nat ensures Raise(After(weights, t), weights)[i] < |weights| * Sum(weights) {
        ValuesStayBounded(weights, t, i);
      }
    } else {
      SumStaysZero(weights, 0);
      assert After(weights, 0) == Zeros(1) && weights == [weights[0]];
      assert Sum(weights) == weights[0] == Raise(After(weights, 0), weights)[i];
    }
  }

  /** ... so 32-bit arithmetic is exact whenever kW fits. */
  lemma FitsInt32(weights: seq<int>, t: nat, i: nat)
    requires Proper(weights) && i < |weights| && |weights| * Sum(weights) < 0x8000_0000
    ensures -0x8000_0000 <= After(weights, t)[i] < 0x8000_0000
    ensures -0x8000_0000 <= Raise(After(weights, t), weights)[i] < 0x8000_0000
  {
    hide Sum, After;
    ValuesStayBounded(weights, t, i);
    StaysAboveMinusTotal(weights, t, i);
    Distribute(|weights| - 1, 1, Sum(weights));
    NotNegative(|weights| - 1, Sum(weights));
  }

  // ---- fairness --------------------------------------------------------------------------------

  lemma {:induction false} CountsSum(weights: seq<int>, t: nat)
    requires weights != []
    ensures Sum(Counts(weights, t)) == t
  {
    hide Sum, Picked;
    if t == 0 {
      SumOfZeros(|weights|);
      assert Counts(weights, 0) == Zeros(|weights|);
    } else {
      CountsSum(weights, t - 1);
      var p := Picked(weights, t - 1);
      var before := Counts(weights, t - 1);
      assert Counts(weights, t) == before[p := before[p] + 1];
      SumUpdate(before, p, before[p] + 1);
    }
  }

  lemma PaidNoMoreThanEarned(weights: seq<int>, i: nat)
    requires Proper(weights) && i < |weights|
    ensures Count(weights, i, Sum(weights)) <= weights[i]
  {
    hide Sum, After, Count;
    var total, count := Sum(weights), Count(weights, i, Sum(weights));
    EarnedMinusPaid(weights, total, i);
    StaysAboveMinusTotal(weights, total, i);
    if count >= weights[i] + 1 {
      Distribute(weights[i], 1, total);
      Distribute(count - weights[i] - 1, weights[i] + 1, total);
      NotNegative(count - weights[i] - 1, total);
    }
  }

  /** W selections from the start pick every node exactly as often as its weight, and end at zero. */
  lemma OneRound(weights: seq<int>)
    requires Proper(weights)
    ensures Counts(weights, Sum(weights)) == weights
    ensures After(weights, Sum(weights)) == Zeros(|weights|)
  {
    hide Sum, After, Count;
    var total := Sum(weights);
    forall i | 0 <= i < |weights| ensures Counts(weights, total)[i] <= weights[i] {
      PaidNoMoreThanEarned(weights, i);
    }
    CountsSum(weights, total);
    SumOrder(Counts(weights, total), weights);
    forall i | 0 <= i < |weights| ensures After(weights, total)[i] == 0 {
      EarnedMinusPaid(weights, total, i);
      assert Count(weights, i, total) == Counts(weights, total)[i];
    }
  }

  /** The schedule repeats every W selections. */
  lemma {:induction false} Periodic(weights: seq<int>, t: nat)
    requires Proper(weights)
    ensures After(weights, t + Sum(weights)) == After(weights, t)
  {
    hide Sum, Step;
    if t == 0 { OneRound(weights); } else { Periodic(weights, t - 1); }
  }

  /** Any W consecutive selections, aligned or not, pick node `i` exactly weights[i] times. */
  lemma EveryWindowIsFair(weights: seq<int>, t: nat, i: nat)
    requires Proper(weights) && i < |weights|
    ensures Count(weights, i, t + Sum(weights)) - Count(weights, i, t) == weights[i]
  {
    hide Sum, After, Count;
    var total := Sum(weights);
    Periodic(weights, t);
    EarnedMinusPaid(weights, t, i);
    EarnedMinusPaid(weights, t + total, i);
    var more := Count(weights, i, t + total) - Count(weights, i, t);
    Distribute(t, total, weights[i]);
    Distribute(Count(weights, i, t), more, total);
    SameFactor(total, more, weights[i]);
    SameFactor(total, weights[i], more);
  }

  /** At every moment a node has been picked less than once more than its share so far. */
  lemma NeverAheadOfShare(weights: seq<int>, t: nat, i: nat)
    requires Proper(weights) && i < |weights|
    ensures Sum(weights) * Count(weights, i, t) < t * weights[i] + Sum(weights)
  {
    hide Sum, After, Count;
    EarnedMinusPaid(weights, t, i);
    StaysAboveMinusTotal(weights, t, i);
  }

  /** ... and is never behind its share by more than (k - 1)(W - 1) / W selections. */
  lemma NeverFarBehindShare(weights: seq<int>, t: nat, i: nat)
    requires Proper(weights) && i < |weights|
    ensures t * weights[i] - Sum(weights) * Count(weights, i, t) <= (|weights| - 1) * (Sum(weights) - 1)
  {
    hide Sum, After, Count;
    EarnedMinusPaid(weights, t, i);
    forall j | 0 <= j < |weights| ensures 1 - Sum(weights) <= After(weights, t)[j] {
      StaysAboveMinusTotal(weights, t, j);
    }
    SumStaysZero(weights, t);
    SumAtLeast(After(weights, t), i, 1 - Sum(weights));
    Distribute(1 - Sum(weights), Sum(weights) - 1, |weights| - 1);
  }
}
