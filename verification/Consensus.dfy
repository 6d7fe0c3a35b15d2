/**
 * The target a new header must meet: as the source computes it by walking the header map
 * (`RequiredTarget`), and as a function of the ancestor chain alone (`ConsensusTarget`).
 */
module Consensus {
  import opened Wrappers
  import opened Powers
  import opened Compact
  import opened HeaderTree

  datatype Network = Bitcoin | Testnet | Regtest

  /**
   * The errors `add_header` can return. `Aborted` stands for a failed assertion, an index out of
   * range or an unsigned underflow, where the source stops the thread before changing anything.
   */
  datatype Error = UnconnectedHeader | SpvBadProofOfWork | NoTip | Aborted

  const DIFFCHANGE_INTERVAL: nat := 2016
  const DIFFCHANGE_TIMESPAN: nat := 14 * 24 * 3600
  const TARGET_BLOCK_SPACING: nat := 600

  function Distance(a: int, b: int): (d: nat)
  {
    if a < b then b - a else a - b
  }

  /** Time between two blocks in wrapping 32-bit arithmetic, or the nearest value within a factor of four of two weeks. */
  function Timespan(last: Word, first: Word): (n: nat)
    ensures 302_400 <= n <= 4_838_400
    ensures var elapsed := if last >= first then last - first else last - first + TWO_32;
            forall m :: 302_400 <= m <= 4_838_400 ==> Distance(n, elapsed) <= Distance(m, elapsed)
  {
    var n := (last - first) % TWO_32;
    if n < DIFFCHANGE_TIMESPAN / 4 then DIFFCHANGE_TIMESPAN / 4
    else if n > DIFFCHANGE_TIMESPAN * 4 then DIFFCHANGE_TIMESPAN * 4
    else n
  }

  /** The new target before compaction: scaled by the timespan in 256 bits and capped. */
  function ScaledTarget(target: nat, timespan: nat): (t: nat)
    ensures t <= MAX_TARGET
  {
    var scaled := Wrap(Times(target, timespan)) / DIFFCHANGE_TIMESPAN;
    if scaled > MAX_TARGET then MAX_TARGET else scaled
  }

  function Retarget(target: nat, timespan: nat): (r: Result<nat, Error>)
  {
    var scaled := ScaledTarget(target, timespan);
    if ByteLength(scaled) < 3 then Err(Aborted) else Ok(Precision(scaled))
  }

  /** More than twenty minutes after its parent, on wrapping 32-bit clocks. */
  predicate LongGap(prev: Word, next: Word) {
    next > (prev + 2 * TARGET_BLOCK_SPACING) % TWO_32
  }

  // ----- as the source computes it

  /** Follows `n` parent links through the map. */
  function ScanBack(headers: HeaderMap, scan: CachedHeader, n: nat): (r: Option<CachedHeader>)
    decreases n
  {
    if n == 0 then Some(scan)
    else if scan.header.prev in headers then ScanBack(headers, headers[scan.header.prev], n - 1)
    else None
  }

  predicate KeepsScanning(scan: CachedHeader) {
    scan.height % DIFFCHANGE_INTERVAL != 0 && scan.header.prev != NO_HASH && Target(scan.header.bits) == MAX_TARGET
  }

  /** The Testnet scan for the last block mined at a real difficulty. */
  function TestnetScan(headers: HeaderMap, scan: CachedHeader): (r: Option<CachedHeader>)
    requires Tree(headers) && Holds(headers, scan)
    decreases scan.height
  {
    assert Node(headers, scan.header.hash);
    if KeepsScanning(scan) then
      if scan.header.prev in headers then
        assert Node(headers, scan.header.prev);
        TestnetScan(headers, headers[scan.header.prev])
      else None
    else Some(scan)
  }

  /** The first block of the period that `prev` closes, found by shortcut or by walking back. */
  function PeriodStart(headers: HeaderMap, trunk: seq<Hash>, prev: CachedHeader): (r: Result<CachedHeader, Error>)
  {
    if trunk != [] && trunk[|trunk| - 1] == prev.header.prev then
      if |trunk| < DIFFCHANGE_INTERVAL + 2 || trunk[|trunk| - DIFFCHANGE_INTERVAL - 2] !in headers then Err(Aborted)
      else Ok(headers[trunk[|trunk| - DIFFCHANGE_INTERVAL - 2]])
    else
      match ScanBack(headers, prev, DIFFCHANGE_INTERVAL - 1)
      case Some(first) => Ok(first)
      case None => Err(UnconnectedHeader)
  }

  function RequiredTarget(network: Network, headers: HeaderMap, trunk: seq<Hash>,
                          prev: CachedHeader, next: BlockHeader): (r: Result<nat, Error>)
    requires Tree(headers) && Holds(headers, prev)
  {
    if (prev.height + 1) % DIFFCHANGE_INTERVAL == 0 then
      match PeriodStart(headers, trunk, prev)
      case Ok(first) => Retarget(Target(prev.header.bits), Timespan(prev.header.time, first.header.time))
      case Err(e) => Err(e)
    else if network == Testnet && LongGap(prev.header.time, next.time) then
      Ok(MAX_TARGET)
    else if network == Testnet then
      match TestnetScan(headers, prev)
      case Some(scan) => Ok(Target(scan.header.bits))
      case None => Err(UnconnectedHeader)
    else
      Ok(Target(prev.header.bits))
  }

  // ----- as a function of the ancestor chain

  /** Block i of the chain opens a period or was mined at a target other than the easiest. */
  ghost predicate RealDifficulty(chain: seq<BlockHeader>, i: nat)
    requires i < |chain|
  {
    i % DIFFCHANGE_INTERVAL == 0 || Target(chain[i].bits) != MAX_TARGET
  }

  /** The last block of the chain with a real difficulty. */
  ghost function LastReal(chain: seq<BlockHeader>, from: nat): (i: nat)
    requires from < |chain|
    ensures i <= from && RealDifficulty(chain, i)
    ensures forall j :: i < j <= from ==> !RealDifficulty(chain, j)
  {
    if RealDifficulty(chain, from) then from else LastReal(chain, from - 1)
  }

  /** The target required of a block on top of `chain` with timestamp `time`. */
  ghost function ConsensusTarget(network: Network, chain: seq<BlockHeader>, time: Word): (r: Result<nat, Error>)
    requires chain != []
  {
    var last := chain[|chain| - 1];
    if |chain| % DIFFCHANGE_INTERVAL == 0 then
      Retarget(Target(last.bits), Timespan(last.time, chain[|chain| - DIFFCHANGE_INTERVAL].time))
    else if network == Testnet && LongGap(last.time, time) then
      Ok(MAX_TARGET)
    else if network == Testnet then
      Ok(Target(chain[LastReal(chain, |chain| - 1)].bits))
    else
      Ok(Target(last.bits))
  }

  /** Walking n links back from a header lands on the entry n places up its lineage. */
  lemma {:induction false} ScanBackLands(headers: HeaderMap, scan: CachedHeader, n: nat)
    requires Tree(headers) && Holds(headers, scan) && n <= scan.height
    ensures var chain := Lineage(headers, scan.header.hash);
            var r := ScanBack(headers, scan, n);
            r.Some? && r.value.header == chain[|chain| - 1 - n] && r.value.height == scan.height - n
    decreases n
  {
    assert Node(headers, scan.header.hash);
    if n > 0 {
      assert Node(headers, scan.header.prev);
      ScanBackLands(headers, headers[scan.header.prev], n - 1);
    }
  }

  lemma LineageFront(headers: HeaderMap, id: Hash)
    requires Tree(headers) && id in headers && headers[id].header.prev != NO_HASH
    ensures headers[id].header.prev in headers && headers[id].height > 0
    ensures Lineage(headers, id)[..headers[id].height] == Lineage(headers, headers[id].header.prev)
  {
    assert Node(headers, id);
  }

  /** The Testnet scan never runs off the tree and stops at the nearest ancestor with a real difficulty. */
  lemma {:induction false} TestnetScanLands(headers: HeaderMap, scan: CachedHeader, chain: seq<BlockHeader>)
    requires Tree(headers) && Holds(headers, scan)
    requires scan.height < |chain| && chain[..scan.height + 1] == Lineage(headers, scan.header.hash)
    ensures var r := TestnetScan(headers, scan);
            r.Some? && r.value.header == chain[LastReal(chain, scan.height)]
    decreases scan.height
  {
    hide Target, Lineage;
    assert Node(headers, scan.header.hash);
    assert chain[scan.height] == chain[..scan.height + 1][scan.height] == scan.header;
    if KeepsScanning(scan) {
      assert Node(headers, scan.header.prev);
      var parent := headers[scan.header.prev];
      LineageFront(headers, scan.header.hash);
      assert chain[..parent.height + 1] == chain[..scan.height + 1][..parent.height + 1];
      TestnetScanLands(headers, parent, chain);
      assert !RealDifficulty(chain, scan.height);
    }
  }

  /** Unless the shortcut guard holds, the start of the period is found 2015 blocks up the lineage. */
  lemma PeriodStartLands(headers: HeaderMap, trunk: seq<Hash>, prev: CachedHeader)
    requires Tree(headers) && Holds(headers, prev) && prev.height + 1 >= DIFFCHANGE_INTERVAL
    requires trunk != [] ==> trunk[|trunk| - 1] != prev.header.prev
    ensures var chain := Lineage(headers, prev.header.hash);
            var r := PeriodStart(headers, trunk, prev);
            r.Ok? && r.value.header == chain[|chain| - DIFFCHANGE_INTERVAL]
  {
    hide Lineage, ScanBack;
    ScanBackLands(headers, prev, DIFFCHANGE_INTERVAL - 1);
  }

  /**
   * Unless the shortcut guard holds, walking the map computes the consensus rule on the ancestor
   * chain: no scan fails, and nothing depends on the trunk or on other branches.
   */
  lemma RequiredTargetIsConsensus(network: Network, headers: HeaderMap, trunk: seq<Hash>,
                                  prev: CachedHeader, next: BlockHeader)
    requires Tree(headers) && Holds(headers, prev)
    requires trunk != [] ==> trunk[|trunk| - 1] != prev.header.prev
    ensures RequiredTarget(network, headers, trunk, prev, next)
         == ConsensusTarget(network, Lineage(headers, prev.header.hash), next.time)
  {
    hide Retarget, Timespan, LongGap, Target, Lineage, PeriodStart, TestnetScan, LastReal;
    var chain := Lineage(headers, prev.header.hash);
    assert |chain| == prev.height + 1;
    if |chain| % DIFFCHANGE_INTERVAL == 0 {
      PeriodStartLands(headers, trunk, prev);
    } else if network == Testnet {
      assert chain[..prev.height + 1] == chain;
      TestnetScanLands(headers, prev, chain);
    }
  }

  // ----- between difficulty changes, in seconds

  /** Block i opens a period or was not mined at the maximum target, and no later block of the chain is such a block. */
  ghost predicate NearestReal(chain: seq<BlockHeader>, i: nat) {
    && i < |chain| && (i % 2016 == 0 || Target(chain[i].bits) != MAX_TARGET)
    && forall j :: i < j < |chain| ==> j % 2016 != 0 && Target(chain[j].bits) == MAX_TARGET
  }

  /**
   * Testnet away from a difficulty change: a block more than twenty minutes after its parent may
   * have the maximum target; any other has the target of the last block mined at a real difficulty.
   * If the parent's clock is within twenty minutes of its end, the limit wraps with it.
   */
  lemma TestnetTarget(chain: seq<BlockHeader>, time: Word) returns (i: nat)
    requires chain != [] && |chain| % 2016 != 0
    ensures NearestReal(chain, i)
    ensures var r := ConsensusTarget(Testnet, chain, time);
            var parent := chain[|chain| - 1].time;
            && (parent + 1200 < 0x1_0000_0000 ==>
                  r == Ok(if time - parent > 1200 then MAX_TARGET else Target(chain[i].bits)))
            && (parent + 1200 >= 0x1_0000_0000 ==>
                  r == Ok(if time > parent + 1200 - 0x1_0000_0000 then MAX_TARGET else Target(chain[i].bits)))
  {
    hide Target;
    i := LastReal(chain, |chain| - 1);
    forall j | i < j < |chain|
      ensures j % 2016 != 0 && Target(chain[j].bits) == MAX_TARGET
    {
      assert !RealDifficulty(chain, j);
    }
  }

  /** On the other networks a block away from a difficulty change has its parent's target, whatever its time. */
  lemma ParentTarget(network: Network, chain: seq<BlockHeader>, time: Word)
    requires network != Testnet && chain != [] && |chain| % 2016 != 0
    ensures ConsensusTarget(network, chain, time) == Ok(Target(chain[|chain| - 1].bits))
  {
  }

  // ----- the arithmetic stays in range

  /** Regtest's genesis target, the only one above the difficulty-1 target. */
  const REGTEST_TARGET: nat := 0x7FFF_FF00_00000000_00000000_00000000_00000000_00000000_00000000_00000000

  /** The targets that occur on some network. */
  predicate Admissible(target: nat) {
    0 < target && (target <= MAX_TARGET || target == REGTEST_TARGET)
  }

  /** The constants are what the source and the genesis blocks' nBits words denote. */
  lemma TargetConstants()
    ensures MAX_TARGET == ShiftBytes(0xFFFF, 26)
    ensures Target(0x1D00_FFFF) == MAX_TARGET
    ensures Target(0x207F_FFFF) == REGTEST_TARGET
  {
    assert Pow256(5) == 0x100_0000_0000;
    assert Pow256(8) == 0x1_0000_0000_0000_0000;
    Pow256Values();
    hide Pow256, ShiftLeft;
    Pow256Sum(8, 8);
    Pow256Sum(16, 8);
    Pow256Sum(24, 2);
    Pow256Sum(24, 5);
    ShiftLeftIs(0xFFFF, 26);
    ShiftLeftIs(0x7F_FFFF, 29);
  }

  /** The product of a target and a timespan never loses bits, except for Regtest's target. */
  lemma ProductFits(target: nat, timespan: nat)
    requires target <= MAX_TARGET && timespan <= DIFFCHANGE_TIMESPAN * 4
    ensures target * timespan < TWO_256
  {
    MulMono(target, MAX_TARGET, timespan);
  }

  /** Regtest's product does lose its high bits, but never all of them. */
  lemma RegtestProduct(timespan: nat)
    requires 0 < timespan <= DIFFCHANGE_TIMESPAN * 4
    ensures Wrap(REGTEST_TARGET * timespan) >= 0x100_0000 * TWO_128
  {
    var unit: nat := 0x100_00000000_00000000_00000000_00000000_00000000_00000000_00000000;
    var mantissa: nat := 0x7F_FFFF * timespan;
    assert REGTEST_TARGET * timespan == mantissa * unit;
    ModMultiple(mantissa, unit, 0x100_0000);
    RegtestMantissa(timespan);
    MulMono(1, mantissa % 0x100_0000, unit);
  }

  lemma RegtestMantissa(timespan: nat)
    requires 0 < timespan <= DIFFCHANGE_TIMESPAN * 4
    ensures 0x7F_FFFF * timespan % 0x100_0000 >= 1
  {
    var q := 0x7F_FFFF * timespan / 0x100_0000;
    // an exact quotient would make the timespan a positive multiple of 2^23
    assert 0x7F_FFFF * timespan != 0x100_0000 * q;
  }

  /**
   * What retargeting computes: the greatest target that nBits can express, not above the
   * difficulty-1 target and not above the old target scaled by the timespan.
   */
  lemma RetargetIsGreatest(target: nat, timespan: nat)
    requires TWO_128 <= target <= MAX_TARGET
    requires DIFFCHANGE_TIMESPAN / 4 <= timespan <= DIFFCHANGE_TIMESPAN * 4
    ensures Retarget(target, timespan).Ok?
    ensures var r := Retarget(target, timespan).value;
            && Expressible(r) && r <= MAX_TARGET && r * DIFFCHANGE_TIMESPAN <= target * timespan
            && forall v: nat :: Expressible(v) && v <= MAX_TARGET && v * DIFFCHANGE_TIMESPAN <= target * timespan ==> v <= r
  {
    hide ScaledTarget, Precision, Expressible, ByteLength;
    RetargetSafe(target, timespan);
    var product: nat := target * timespan;
    var scaled := ScaledTarget(target, timespan);
    ScaledBounds(target, timespan, product);
    PrecisionExpressible(scaled);
    forall v: nat | Expressible(v) && v <= MAX_TARGET && v * DIFFCHANGE_TIMESPAN <= product
      ensures v <= Precision(scaled)
    {
      ScaledAbove(target, timespan, product, v);
      PrecisionGreatest(scaled, v);
    }
  }

  lemma ScaledIs(target: nat, timespan: nat, product: nat)
    requires TWO_128 <= target <= MAX_TARGET && product == target * timespan
    requires DIFFCHANGE_TIMESPAN / 4 <= timespan <= DIFFCHANGE_TIMESPAN * 4
    ensures product >= TWO_128 * (DIFFCHANGE_TIMESPAN / 4)
    ensures ScaledTarget(target, timespan)
         == if product / DIFFCHANGE_TIMESPAN > MAX_TARGET then MAX_TARGET else product / DIFFCHANGE_TIMESPAN
  {
    hide Times;
    ProductFits(target, timespan);
    TimesIs(target, timespan);
    MulMono(TWO_128, target, timespan);
  }

  lemma ScaledBounds(target: nat, timespan: nat, product: nat)
    requires TWO_128 <= target <= MAX_TARGET && product == target * timespan
    requires DIFFCHANGE_TIMESPAN / 4 <= timespan <= DIFFCHANGE_TIMESPAN * 4
    ensures 0x1_0000 <= ScaledTarget(target, timespan) && ScaledTarget(target, timespan) * DIFFCHANGE_TIMESPAN <= product
  {
    hide ScaledTarget;
    ScaledIs(target, timespan, product);
  }

  lemma ScaledAbove(target: nat, timespan: nat, product: nat, v: nat)
    requires TWO_128 <= target <= MAX_TARGET && product == target * timespan
    requires DIFFCHANGE_TIMESPAN / 4 <= timespan <= DIFFCHANGE_TIMESPAN * 4
    requires v <= MAX_TARGET && v * DIFFCHANGE_TIMESPAN <= product
    ensures v <= ScaledTarget(target, timespan)
  {
    hide ScaledTarget;
    ScaledIs(target, timespan, product);
  }

  /** Work below 2^128 keeps retargeting in range: it does not abort, and gives a difficulty of at least one. */
  lemma RetargetSafe(target: nat, timespan: nat)
    requires Admissible(target) && target >= TWO_128
    requires DIFFCHANGE_TIMESPAN / 4 <= timespan <= DIFFCHANGE_TIMESPAN * 4
    ensures Retarget(target, timespan).Ok?
    ensures 0 < Retarget(target, timespan).value <= MAX_TARGET
    ensures target <= MAX_TARGET ==> target * timespan < TWO_256
  {
    hide Times;
    TimesIs(target, timespan);
    if target <= MAX_TARGET {
      ProductFits(target, timespan);
      MulMono(TWO_128, target, timespan);
    } else {
      RegtestProduct(timespan);
    }
    hide ByteLength, Precision;
    var scaled := ScaledTarget(target, timespan);
    assert scaled >= 0x1_0000;
    PrecisionDefined(scaled);
    PrecisionLower(scaled);
    PrecisionExpressible(scaled);
  }

  /** The old target times the timespan, of which 256 bits are kept, over two weeks, and at most the maximum target. */
  function Limit(target: nat, timespan: nat): (n: nat)
  {
    var scaled := target * timespan % TWO_256 / 1_209_600;
    if scaled > MAX_TARGET then MAX_TARGET else scaled
  }

  /** What retargeting computes for any target in range, Regtest's too: the greatest expressible value within the limit. */
  lemma RetargetIsGreatestWithin(target: nat, timespan: nat)
    requires Admissible(target) && target >= TWO_128
    requires DIFFCHANGE_TIMESPAN / 4 <= timespan <= DIFFCHANGE_TIMESPAN * 4
    ensures Retarget(target, timespan).Ok?
    ensures var r := Retarget(target, timespan).value;
            && Expressible(r) && r <= Limit(target, timespan)
            && forall v: nat :: Expressible(v) && v <= Limit(target, timespan) ==> v <= r
  {
    hide Times, Precision, Expressible, ByteLength;
    RetargetSafe(target, timespan);
    TimesIs(target, timespan);
    var scaled := ScaledTarget(target, timespan);
    assert scaled == Limit(target, timespan);
    hide ScaledTarget, Limit;
    PrecisionDefined(scaled);
    PrecisionIsGreatestExpressible(scaled, Precision(scaled));
  }
}
