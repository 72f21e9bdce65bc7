/**
The lottery scheduler.  The generator is a source of numbers in [0, RAND_MAX]; which of them lead
to which process is counted exactly.
*/
module Lottery {
  import opened Prelude

  const RAND_MAX := 0x7fff_ffff
  const NUM_RAND := 0x8000_0000

  /* ---- random_at_most ---- */

  function BinSize(max: nat): (r: nat)
    requires max <= RAND_MAX
    ensures r > 0 && r * (max + 1) == NUM_RAND - NUM_RAND % (max + 1)
  {
    var b := NUM_RAND / (max + 1);
    assert NUM_RAND == b * (max + 1) + NUM_RAND % (max + 1);
    assert NUM_RAND % (max + 1) < max + 1 <= NUM_RAND;
    b
  }

  /** The outputs that are not rejected. */
  predicate Accepted(max: nat, x: nat)
    requires max <= RAND_MAX
  {
    x < NUM_RAND - NUM_RAND % (max + 1)
  }

  /** Over the given outputs of the generator: the value of the first that is accepted. */
  method RandomAtMost(max: nat, draws: seq<nat>) returns (r: Option<nat>, ghost k: nat)
    requires max <= RAND_MAX && forall i :: 0 <= i < |draws| ==> draws[i] <= RAND_MAX
    ensures r.None? <==> forall i :: 0 <= i < |draws| ==> !Accepted(max, draws[i])
    ensures r.Some? ==> k < |draws| && Accepted(max, draws[k]) && forall i :: 0 <= i < k ==> !Accepted(max, draws[i])
    ensures r.Some? ==>
              && r.value == Value(max, draws[k]) <= max
              && r.value * BinSize(max) <= draws[k] < (r.value + 1) * BinSize(max)
  {
    var bins := max + 1;
    var binSize := BinSize(max);
    var defect := NUM_RAND % bins;
    k := 0;
    var i := 0;
    while i < |draws|
      invariant 0 <= i <= |draws|
      invariant forall j :: 0 <= j < i ==> !Accepted(max, draws[j])
    {
      if !(NUM_RAND - defect <= draws[i]) {
        ValueInRange(max, draws[i]);
        return Some(draws[i] / binSize), i;
      }
      i := i + 1;
    }
    return None, 0;
  }

  lemma ValueInRange(max: nat, x: nat)
    requires max <= RAND_MAX && Accepted(max, x)
    ensures Value(max, x) <= max && Value(max, x) * BinSize(max) <= x < (Value(max, x) + 1) * BinSize(max)
  {
    var b := BinSize(max);
    var v := x / b;
    Quotient(x, b);
    QuotientBounds(x, b, max + 1);
  }

  lemma Quotient(x: nat, b: nat)
    requires b > 0
    ensures x / b * b <= x < (x / b + 1) * b
  {
    assert x == x / b * b + x % b;
  }

  predicate Between(a: nat, x: nat, b: nat) {
    a <= x < b
  }

  ghost function Range(a: nat, b: nat): (r: set<nat>) {
    set x: nat | x < b && Between(a, x, b)
  }

  lemma {:induction false} RangeSize(a: nat, b: nat)
    requires a <= b
    ensures |Range(a, b)| == b - a
    decreases b - a
  {
    if a < b {
      RangeSize(a, b - 1);
      assert Range(a, b) == Range(a, b - 1) + {b - 1};
    } else {
      assert Range(a, b) == {};
    }
  }

  /** The accepted outputs whose value lies in [lo, hi). */
  ghost function Outputs(max: nat, lo: nat, hi: nat): (r: set<nat>)
    requires max <= RAND_MAX
  {
    set x: nat | x <= RAND_MAX && Accepted(max, x) && Between(lo, Value(max, x), hi)
  }

  /** The value that random_at_most makes of an accepted output. */
  function Value(max: nat, x: nat): (r: nat)
    requires max <= RAND_MAX
  {
    x / BinSize(max)
  }

  /** They are one stretch of the generator's range. */
  lemma OutputsRange(max: nat, lo: nat, hi: nat)
    requires lo <= hi <= max + 1 <= NUM_RAND
    ensures Outputs(max, lo, hi) == Range(lo * BinSize(max), hi * BinSize(max))
  {
    hide Accepted, BinSize, Value;
    var b := BinSize(max);
    forall x: nat
      ensures x in Outputs(max, lo, hi) <==> x in Range(lo * b, hi * b)
    {
      OutputsAt(max, lo, hi, x);
    }
  }

  lemma OutputsAt(max: nat, lo: nat, hi: nat, x: nat)
    requires lo <= hi <= max + 1 <= NUM_RAND
    ensures var b := BinSize(max);
            x <= RAND_MAX && Accepted(max, x) && Between(lo, Value(max, x), hi) <==> Between(lo * b, x, hi * b)
  {
    hide BinSize;
    var b := BinSize(max);
    QuotientBounds(x, b, lo);
    QuotientBounds(x, b, hi);
    TimesMonotone(hi, max + 1, b);
  }

  lemma TimesMonotone(a: nat, c: nat, b: nat)
    requires a <= c
    ensures a * b <= c * b
  {
  }

  lemma QuotientBounds(x: nat, b: nat, v: nat)
    requires b > 0
    ensures v <= x / b <==> v * b <= x
  {
    Quotient(x, b);
    if v <= x / b {
      assert v * b <= x / b * b;
    } else {
      assert v * b >= (x / b + 1) * b;
    }
  }

  /** Every m neighbouring values come from exactly m * bin_size outputs of the generator. */
  lemma FairBins(max: nat, lo: nat, hi: nat)
    requires lo <= hi <= max + 1 <= NUM_RAND
    ensures |Outputs(max, lo, hi)| == (hi - lo) * BinSize(max)
  {
    OutputsRange(max, lo, hi);
    var b := BinSize(max);
    assert lo * b <= hi * b;
    RangeSize(lo * b, hi * b);
  }

  /** Each single value comes from exactly bin_size outputs. */
  lemma FairValue(max: nat, v: nat)
    requires v <= max <= RAND_MAX
    ensures |set x: nat | x <= RAND_MAX && Accepted(max, x) && Value(max, x) == v| == BinSize(max)
  {
    FairBins(max, v, v + 1);
    assert Outputs(max, v, v + 1) == set x: nat | x <= RAND_MAX && Accepted(max, x) && Value(max, x) == v;
  }

  /* ---- sched_lottery ---- */

  datatype Proc = Proc(runnable: bool, pl1: bool, tickets: nat)

  predicate Eligible(p: Proc) {
    p.runnable && p.pl1
  }

  /** The tickets of the eligible processes before place k. */
  function Prefix(procs: seq<Proc>, k: nat): (r: nat)
    requires k <= |procs|
  {
    if k == 0 then 0 else Prefix(procs, k - 1) + if Eligible(procs[k - 1]) then procs[k - 1].tickets else 0
  }

  lemma {:induction false} PrefixMonotone(procs: seq<Proc>, j: nat, k: nat)
    requires j <= k <= |procs|
    ensures Prefix(procs, j) <= Prefix(procs, k)
    decreases k
  {
    if j < k {
      PrefixMonotone(procs, j, k - 1);
    }
  }

  ghost predicate First(procs: seq<Proc>, j: nat) {
    j < |procs| && Eligible(procs[j]) && forall i :: 0 <= i < j ==> !Eligible(procs[i])
  }

  /** The loop stops at the first eligible process with whose tickets the sum reaches the winner. */
  ghost predicate Chosen(procs: seq<Proc>, w: nat, j: nat) {
    && j < |procs| && Eligible(procs[j]) && Prefix(procs, j + 1) >= w
    && forall i: nat :: i < j && Eligible(procs[i]) ==> Prefix(procs, i + 1) < w
  }

  method SchedLottery(procs: seq<Proc>, draws: seq<nat>)
    returns (drawn: bool, found: Option<nat>, ghost w: nat, ghost k: nat)
    requires Prefix(procs, |procs|) <= RAND_MAX && forall i :: 0 <= i < |draws| ==> draws[i] <= RAND_MAX
    ensures drawn <==> exists i :: 0 <= i < |draws| && Accepted(Prefix(procs, |procs|), draws[i])
    ensures drawn ==> k < |draws| && w == Value(Prefix(procs, |procs|), draws[k]) <= Prefix(procs, |procs|)
    ensures drawn ==> forall i :: 0 <= i < k ==> !Accepted(Prefix(procs, |procs|), draws[i])
    ensures drawn && found.Some? ==> Chosen(procs, w, found.value)
    ensures drawn && found.None? ==> forall j :: 0 <= j < |procs| ==> !Eligible(procs[j])
  {
    w, k := 0, 0;
    var sum := 0;
    var p := 0;
    while p < |procs|
      invariant 0 <= p <= |procs| && sum == Prefix(procs, p)
    {
      if procs[p].pl1 {
        if procs[p].runnable {
          sum := sum + procs[p].tickets;
        }
      }
      p := p + 1;
    }
    var winner;
    winner, k := RandomAtMost(sum, draws);
    if winner.None? {
      return false, None, 0, 0;
    }
    w := winner.value;
    drawn := true;
    sum, p := 0, 0;
    while p < |procs|
      invariant 0 <= p <= |procs| && sum == Prefix(procs, p)
      invariant forall i: nat :: i < p && Eligible(procs[i]) ==> Prefix(procs, i + 1) < w
    {
      if procs[p].runnable && procs[p].pl1 {
        sum := sum + procs[p].tickets;
        if !(sum < winner.value) {
          return true, Some(p), w, k;
        }
      }
      p := p + 1;
    }
    NoneEligible(procs, w);
    found := None;
  }

  /** The last eligible process reaches the whole sum, so a loop without a hit has met none. */
  lemma NoneEligible(procs: seq<Proc>, w: nat)
    requires w <= Prefix(procs, |procs|)
    requires forall i: nat :: i < |procs| && Eligible(procs[i]) ==> Prefix(procs, i + 1) < w
    ensures forall j :: 0 <= j < |procs| ==> !Eligible(procs[j])
  {
    if j :| 0 <= j < |procs| && Eligible(procs[j]) {
      var l := LastEligible(procs, |procs|, j);
      assert false;
    }
  }

  lemma {:induction false} LastEligible(procs: seq<Proc>, n: nat, j: nat) returns (l: nat)
    requires j < n <= |procs| && Eligible(procs[j])
    ensures l < n && Eligible(procs[l]) && Prefix(procs, l + 1) == Prefix(procs, n)
  {
    if Eligible(procs[n - 1]) {
      l := n - 1;
    } else {
      l := LastEligible(procs, n - 1, j);
    }
  }

  /** A process is chosen by the draws that fall among its own tickets; the first also by zero. */
  lemma ChosenRange(procs: seq<Proc>, j: nat, w: nat)
    requires j < |procs| && Eligible(procs[j]) && w <= Prefix(procs, |procs|)
    ensures Chosen(procs, w, j) <==>
              (if First(procs, j) then 0 else Prefix(procs, j) + 1) <= w < Prefix(procs, j + 1) + 1
  {
    if First(procs, j) {
    } else {
      var i :| 0 <= i < j && Eligible(procs[i]);
      var l := LastEligible(procs, j, i);
      forall m: nat | m < j && Eligible(procs[m])
        ensures Prefix(procs, m + 1) <= Prefix(procs, j)
      {
        PrefixMonotone(procs, m + 1, j);
      }
    }
  }

  lemma {:induction false} FirstPrefix(procs: seq<Proc>, j: nat)
    requires j <= |procs| && forall i :: 0 <= i < j ==> !Eligible(procs[i])
    ensures Prefix(procs, j) == 0
  {
    if j > 0 {
      FirstPrefix(procs, j - 1);
    }
  }

  /** The number of draws in [0, sum] that choose a process: its tickets, and one more for the first. */
  function Share(procs: seq<Proc>, j: nat): (r: nat)
    requires j < |procs|
  {
    procs[j].tickets + if forall i :: 0 <= i < j ==> !Eligible(procs[i]) then 1 else 0
  }

  /** Of the sum + 1 draws exactly that many choose process j. */
  lemma FairShares(procs: seq<Proc>, j: nat)
    requires j < |procs| && Eligible(procs[j])
    ensures |set w: nat | w <= Prefix(procs, |procs|) && Chosen(procs, w, j)| == Share(procs, j)
  {
    var lo := if First(procs, j) then 0 else Prefix(procs, j) + 1;
    PrefixMonotone(procs, j + 1, |procs|);
    forall w: nat | w <= Prefix(procs, |procs|)
      ensures Chosen(procs, w, j) <==> w in Range(lo, Prefix(procs, j + 1) + 1)
    {
      ChosenRange(procs, j, w);
    }
    assert (set w: nat | w <= Prefix(procs, |procs|) && Chosen(procs, w, j)) == Range(lo, Prefix(procs, j + 1) + 1);
    if First(procs, j) {
      FirstPrefix(procs, j);
    }
    RangeSize(lo, Prefix(procs, j + 1) + 1);
  }

  /** Of the generator's accepted outputs, exactly bin_size times its share lead to process j. */
  lemma FairOutputs(procs: seq<Proc>, j: nat)
    requires j < |procs| && Eligible(procs[j]) && Prefix(procs, |procs|) <= RAND_MAX
    ensures var max := Prefix(procs, |procs|);
            |set x: nat | x <= RAND_MAX && Accepted(max, x) && Chosen(procs, Value(max, x), j)| ==
            Share(procs, j) * BinSize(max)
  {
    hide Accepted, BinSize, Value, Chosen;
    var max := Prefix(procs, |procs|);
    var lo := if First(procs, j) then 0 else Prefix(procs, j) + 1;
    var hi := Prefix(procs, j + 1) + 1;
    PrefixMonotone(procs, j + 1, |procs|);
    forall x: nat | x <= RAND_MAX && Accepted(max, x)
      ensures Chosen(procs, Value(max, x), j) <==> Between(lo, Value(max, x), hi)
    {
      ValueInRange(max, x);
      ChosenRange(procs, j, Value(max, x));
    }
    assert (set x: nat | x <= RAND_MAX && Accepted(max, x) && Chosen(procs, Value(max, x), j)) == Outputs(max, lo, hi);
    if First(procs, j) {
      FirstPrefix(procs, j);
    }
    FairBins(max, lo, hi);
  }
}
