/** The generation-stamped visited set shared by searches through a pool. */
module Visited {

  const GENERATIONS: nat := 0x1_0000_0000

  class VisitedTracker {
    var generations: seq<nat>
    var currentGen: nat

    /** No stamp is ahead of the current generation. */
    ghost predicate Valid()
      reads this
    {
      && currentGen < GENERATIONS
      && forall i :: 0 <= i < |generations| ==> generations[i] <= currentGen
    }

    /** Whether a search would take node i for visited; slots not yet allocated read as zero. */
    ghost predicate Marked(i: nat)
      reads this
    {
      (if i < |generations| then generations[i] else 0) == currentGen
    }

    ghost function MarkedSet(): iset<nat>
      reads this
    {
      iset i: nat | Marked(i)
    }

    /** A brand-new pooled tracker: 1024 zero stamps under generation zero. */
    constructor Pooled()
      ensures Valid()
      ensures forall i: nat :: Marked(i)
    {
      generations := seq(1024, _ => 0);
      currentGen := 0;
    }

    /** Starts a new generation; on 32-bit wraparound the stamps are wiped. */
    method NextGen()
      requires Valid()
      modifies this
      ensures Valid()
      ensures forall i: nat :: !Marked(i)
      ensures |generations| == old(|generations|)
    {
      currentGen := (currentGen + 1) % GENERATIONS;
      if currentGen == 0 {
        for i := 0 to |generations|
          invariant currentGen == 0 && |generations| == old(|generations|)
          invariant forall j :: 0 <= j < i ==> generations[j] == 0
        {
          generations := generations[i := 0];
        }
        currentGen := 1;
      }
    }

    /** Marks node i, growing the stamps when needed; reports whether it was unmarked. */
    method Visit(i: nat) returns (first: bool)
      requires Valid()
      modifies this
      ensures Valid() && currentGen == old(currentGen)
      ensures first <==> !old(Marked(i))
      ensures forall j: nat :: Marked(j) <==> old(Marked(j)) || j == i
    {
      if i >= |generations| {
        generations := generations + seq(i + 1024 - |generations|, _ => 0);
      }
      first := generations[i] != currentGen;
      if first {
        generations := generations[i := currentGen];
      }
    }
  }
}
