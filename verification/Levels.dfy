/** Arithmetic of the levels of a forest: a strictly descending sequence of
    levels is the binary representation of the number of leaves. */
module Levels {
  import opened Powers
  import opened Seqs

  ghost predicate Descending(ls: seq<nat>) {
    forall i, j :: 0 <= i < j < |ls| ==> ls[i] > ls[j]
  }

  /** The number of leaves of perfect trees of the given levels. */
  ghost function Total(ls: seq<nat>): nat {
    if ls == [] then 0 else Total(Init(ls)) + Pow2(Last(ls))
  }

  /** The potential that pays for the backward scans. */
  ghost function Potential(ls: seq<nat>): nat {
    if ls == [] then 0 else Potential(Init(ls)) + PotentialAt(Last(ls))
  }

  /** The number of queue elements: one for the first tree, all nodes of the others. */
  ghost function QueueSize(ls: seq<nat>): nat {
    if ls == [] then 0
    else if |ls| == 1 then 1
    else QueueSize(Init(ls)) + 2 * Pow2(Last(ls)) - 1
  }

  lemma {:induction false} TotalBounds(ls: seq<nat>)
    requires ls != [] && Descending(ls)
    ensures Pow2(ls[0]) <= Total(ls)
    ensures |ls| > 1 ==> Pow2(ls[0]) < Total(ls)
    ensures Total(ls) + Pow2(Last(ls)) <= 2 * Pow2(ls[0])
  {
    if |ls| > 1 {
      TotalBounds(Init(ls));
      Pow2Monotone(Last(ls), Last(Init(ls)));
    }
  }

  /** The size of the queue from the number of leaves, the largest power of two in it and the number of trees. */
  lemma {:induction false} QueueSizeFormula(ls: seq<nat>)
    requires ls != []
    ensures QueueSize(ls) == 1 + 2 * (Total(ls) - Pow2(ls[0])) - (|ls| - 1)
  {
    if |ls| > 1 {
      QueueSizeFormula(Init(ls));
    }
  }

  ghost function PotentialAt(l: nat): nat { l * Pow2(l) }

  /** Merging two trees of level l raises the potential by the cost of scanning one of them. */
  lemma MergePays(ls: seq<nat>)
    requires ls != []
    ensures var l := Last(ls);
      Potential(ls) + PotentialAt(l) + 2 * Pow2(l) == Potential(Init(ls)) + PotentialAt(l + 1)
  {
    var l := Last(ls);
    Distribute(l, Pow2(l));
  }

  lemma Distribute(l: nat, p: nat)
    ensures (l + 1) * (2 * p) == 2 * (l * p) + 2 * p
  {
  }

  // ----- Binary digits -----

  /** Binary digit b of m is one. */
  ghost predicate BitSet(m: nat, b: nat)
    decreases b
  {
    if b == 0 then m % 2 == 1 else BitSet(m / 2, b - 1)
  }

  /** The positions of the set bits of m, highest first. */
  ghost function Bits(m: nat): seq<nat> {
    if m == 0 then []
    else
      var high := Raise(Bits(m / 2));
      if m % 2 == 1 then high + [0] else high
  }

  ghost function Raise(ls: seq<nat>): (r: seq<nat>)
    ensures |r| == |ls| && forall i :: 0 <= i < |ls| ==> r[i] == ls[i] + 1
  {
    if ls == [] then [] else Raise(Init(ls)) + [Last(ls) + 1]
  }

  lemma {:induction false} RaiseTotal(ls: seq<nat>)
    ensures Total(Raise(ls)) == 2 * Total(ls)
  {
    if ls != [] {
      RaiseTotal(Init(ls));
      assert Init(Raise(ls)) == Raise(Init(ls));
    }
  }

  lemma {:induction false} Lower(ls: seq<nat>) returns (low: seq<nat>)
    requires Descending(ls) && (ls != [] ==> Last(ls) > 0)
    ensures ls == Raise(low) && Descending(low)
  {
    low := seq(|ls|, i requires 0 <= i < |ls| => if ls[i] > 0 then ls[i] - 1 else 0);
    assert forall i :: 0 <= i < |ls| ==> ls[i] >= Last(ls);
  }

  lemma BitsOfDouble(m: nat)
    ensures m > 0 ==> Bits(2 * m) == Raise(Bits(m))
    ensures Bits(2 * m + 1) == Raise(Bits(m)) + [0]
  {
    assert 2 * m / 2 == m && (2 * m + 1) / 2 == m;
  }

  lemma TotalIsPositive(ls: seq<nat>)
    requires ls != []
    ensures Total(ls) > 0
  {
  }

  /** A strictly descending sequence of levels is the sequence of the set bits of its total. */
  lemma {:induction false} DescendingIsBits(ls: seq<nat>)
    requires Descending(ls)
    ensures ls == Bits(Total(ls))
    decreases Total(ls)
  {
    if ls != [] {
      TotalIsPositive(ls);
      var high := if Last(ls) == 0 then Init(ls) else ls;
      var low := Lower(high);
      RaiseTotal(low);
      var m := Total(low);
      assert Total(ls) == if Last(ls) == 0 then 2 * m + 1 else 2 * m;
      hide Total, Bits;
      DescendingIsBits(low);
      BitsOfDouble(m);
    }
  }

  lemma BitsUnfold(m: nat)
    ensures Bits(m) == if m == 0 then [] else if m % 2 == 1 then Raise(Bits(m / 2)) + [0] else Raise(Bits(m / 2))
  {
  }

  lemma {:induction false} ZeroHasNoBits(b: nat)
    ensures !BitSet(0, b)
  {
    if b > 0 {
      ZeroHasNoBits(b - 1);
    }
  }

  /** Bits lists exactly the positions whose binary digit is one. */
  lemma {:induction false} BitsAreSetBits(m: nat, b: nat)
    ensures b in Bits(m) <==> BitSet(m, b)
    decreases b
  {
    BitsUnfold(m);
    if m == 0 {
      ZeroHasNoBits(b);
    } else {
      hide Bits;
      RaiseMembers(Bits(m / 2), if b > 0 then b - 1 else 0);
      if b > 0 {
        BitsAreSetBits(m / 2, b - 1);
      }
    }
  }

  lemma RaiseMembers(ls: seq<nat>, b: nat)
    ensures b + 1 in Raise(ls) <==> b in ls
    ensures 0 !in Raise(ls)
  {
    if b in ls {
      var i :| 0 <= i < |ls| && ls[i] == b;
      assert Raise(ls)[i] == b + 1;
    }
  }
}
