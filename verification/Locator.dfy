/** The block locator: which trunk entries, counted back from the tip, a getheaders message names. */
module Locator {
  import opened Powers

  /** Distance from the tip of the i-th locator entry: ten consecutive blocks, then 9 plus powers of two. */
  function Offset(i: nat): (d: nat)
  {
    if i <= 9 then i else 9 + Pow2(i - 10)
  }

  lemma OffsetStep(i: nat)
    ensures Offset(i + 1) - Offset(i) == if i <= 10 then 1 else Pow2(i - 10)
    ensures i >= 11 ==> Pow2(i - 10) == 2 * Pow2(i - 11)
  {
  }

  lemma {:induction false} OffsetMono(i: nat, j: nat)
    requires i <= j
    ensures i + Offset(i) <= i + Offset(j) && (i < j ==> Offset(i) < Offset(j))
    decreases j
  {
    if i < j {
      OffsetMono(i, j - 1);
      OffsetStep(j - 1);
    }
  }

  /** Any distance up to the last one named has a named distance between itself and its double. */
  lemma {:induction false} LocatorDense(d: nat, k: nat) returns (i: nat)
    requires k > 0 && d <= Offset(k - 1)
    ensures i < k && d <= Offset(i) <= 2 * d
    decreases k
  {
    if d <= 9 && d < k {
      i := d;
    } else if k >= 2 && d <= Offset(k - 2) {
      i := LocatorDense(d, k - 1);
    } else {
      i := k - 1;
      if k >= 2 {
        OffsetStep(k - 2);
      }
    }
  }

  /** The locator names exactly the trunk entries at the distances `Offset(0), Offset(1), ...`, as far as the trunk goes. */
  ghost predicate Names<T>(trunk: seq<T>, locator: seq<T>) {
    && |trunk| <= Offset(|locator|)
    && forall i :: 0 <= i < |locator| ==> Offset(i) < |trunk| && locator[i] == trunk[|trunk| - 1 - Offset(i)]
  }

  /** The trunk entries at the i-th and later distances. */
  function Entries<T>(trunk: seq<T>, i: nat): (entries: seq<T>)
    decreases |trunk| - Offset(i)
  {
    if Offset(i) >= |trunk| then []
    else
      OffsetMono(i, i + 1);
      [trunk[|trunk| - 1 - Offset(i)]] + Entries(trunk, i + 1)
  }

  lemma {:induction false} EntriesNamed<T>(trunk: seq<T>, i: nat)
    ensures var r := Entries(trunk, i);
            && |trunk| <= Offset(i + |r|)
            && forall k :: i <= k < i + |r| ==> Offset(k) < |trunk| && r[k - i] == trunk[|trunk| - 1 - Offset(k)]
    decreases |trunk| - Offset(i)
  {
    hide Offset;
    if Offset(i) < |trunk| {
      OffsetMono(i, i + 1);
      EntriesNamed(trunk, i + 1);
      assert Entries(trunk, i) == [trunk[|trunk| - 1 - Offset(i)]] + Entries(trunk, i + 1);
      hide Entries;
    }
  }

  /** A trunk has one locator. */
  lemma NamesIff<T>(trunk: seq<T>, locator: seq<T>)
    ensures Names(trunk, locator) <==> locator == Entries(trunk, 0)
  {
    EntriesNamed(trunk, 0);
    hide Offset, Entries;
  }
}
