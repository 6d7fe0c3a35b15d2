/** Service words: the mask test of the handshake, and what it means bit by bit. */
module Services {
  /** The mask test: what is needed is left unchanged by what is offered. */
  predicate Serves(offered: bv64, needed: bv64) {
    (needed & offered) == needed
  }

  /** The word with only bit i set. */
  function One(i: nat): (b: bv64)
  {
    if i == 0 then 1 else One(i - 1) << 1
  }

  predicate Meet(a: bv64, b: bv64) {
    a & b != 0
  }

  /** Bit i of a service word. */
  predicate HasService(services: bv64, i: nat) {
    Meet(services, One(i))
  }

  /** Every service one word needs, of the 64 there are, is offered by the other. */
  ghost predicate EveryService(offered: bv64, needed: bv64) {
    forall i: nat :: i < 64 && HasService(needed, i) ==> HasService(offered, i)
  }

  lemma OneNext(i: nat)
    ensures One(i + 1) == One(i) << 1
  {
  }

  lemma OneByte(i: nat)
    ensures One(i + 8) == One(i) << 8
  {
    OneTwo(i);
    OneTwo(i + 2);
    OneTwo(i + 4);
    OneTwo(i + 6);
    hide One;
    Twice(One(i));
    Twice(One(i + 4));
  }

  lemma OneTwo(i: nat)
    ensures One(i + 2) == One(i) << 2
  {
    OneNext(i);
    OneNext(i + 1);
    hide One;
    Twice(One(i));
  }

  lemma Twice(b: bv64)
    ensures (b << 1) << 1 == b << 2 && (b << 2) << 2 == b << 4 && (b << 4) << 4 == b << 8
  {
  }

  /** There is no bit 64. */
  lemma OneEnds()
    ensures One(64) == 0
  {
    assert One(0) == 1;
    hide One;
    OneByte(0);
    assert One(8) == 0x100;
    OneByte(8);
    assert One(16) == 0x1_0000;
    OneByte(16);
    assert One(24) == 0x100_0000;
    OneByte(24);
    assert One(32) == 0x1_0000_0000;
    OneByte(32);
    OneByte(40);
    OneByte(48);
    OneByte(56);
  }

  /** A word without any of the first k bits has nothing below bit k. */
  lemma {:induction false} NothingBelow(d: bv64, k: nat)
    requires forall i: nat :: i < k ==> !HasService(d, i)
    ensures One(k) & (One(k) - 1) == 0 && d & (One(k) - 1) == 0
    decreases k
  {
    if k == 0 {
      assert One(0) == 1;
    } else {
      NothingBelow(d, k - 1);
      assert !HasService(d, k - 1);
      OneNext(k - 1);
      hide One;
      NextBit(d, One(k - 1));
    }
  }

  lemma NextBit(d: bv64, b: bv64)
    requires b & (b - 1) == 0 && d & (b - 1) == 0 && d & b == 0
    ensures (b << 1) & ((b << 1) - 1) == 0 && d & ((b << 1) - 1) == 0
  {
  }

  /** A word without any of the 64 bits is zero. */
  lemma NoBits(d: bv64)
    requires forall i: nat :: i < 64 ==> !HasService(d, i)
    ensures d == 0
  {
    NothingBelow(d, 64);
    OneEnds();
    hide One, HasService;
    AllOnes(d);
  }

  lemma AllOnes(d: bv64)
    requires d & (0 - 1) == 0
    ensures d == 0
  {
  }

  lemma MaskKeepsBit(offered: bv64, needed: bv64, b: bv64)
    requires needed & offered == needed && Meet(needed, b)
    ensures Meet(offered, b)
  {
  }

  /** At most one bit. */
  predicate Single(b: bv64) {
    b & (b - 1) == 0
  }

  /** One bit of a word is there or not. */
  lemma SingleAnd(x: bv64, b: bv64)
    requires Single(b)
    ensures x & b == 0 || x & b == b
  {
  }

  lemma MissingBit(offered: bv64, needed: bv64, b: bv64)
    requires Single(b) && (Meet(needed, b) ==> Meet(offered, b))
    ensures !Meet(needed & !offered, b)
  {
    SingleAnd(offered, b);
  }

  lemma ServiceKept(offered: bv64, needed: bv64, i: nat)
    requires Serves(offered, needed) && HasService(needed, i)
    ensures HasService(offered, i)
  {
    hide One, Meet;
    MaskKeepsBit(offered, needed, One(i));
  }

  lemma ServiceNotMissing(offered: bv64, needed: bv64, i: nat)
    requires HasService(needed, i) ==> HasService(offered, i)
    ensures !HasService(needed & !offered, i)
  {
    hide One, Meet, Single;
    SingleBit(i);
    MissingBit(offered, needed, One(i));
  }

  /** The mask test asks for exactly the services needed, each one of them. */
  lemma ServesIff(offered: bv64, needed: bv64)
    ensures Serves(offered, needed) <==> EveryService(offered, needed)
  {
    hide One, HasService, Serves;
    if Serves(offered, needed) {
      forall i: nat | i < 64 && HasService(needed, i)
        ensures HasService(offered, i)
      {
        ServiceKept(offered, needed, i);
      }
    }
    if EveryService(offered, needed) {
      var missing := needed & !offered;
      forall i: nat | i < 64
        ensures !HasService(missing, i)
      {
        ServiceNotMissing(offered, needed, i);
      }
      NoBits(missing);
      ServesAll(offered, needed);
    }
  }

  lemma ServesAll(offered: bv64, needed: bv64)
    requires needed & !offered == 0
    ensures Serves(offered, needed)
  {
  }

  lemma {:induction false} SingleBit(i: nat)
    ensures Single(One(i))
    decreases i
  {
    if i == 0 {
      assert One(0) == 1;
    } else {
      SingleBit(i - 1);
      OneNext(i - 1);
      hide One;
      NextBit(0, One(i - 1));
    }
  }
}
