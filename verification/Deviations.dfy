/**
 * Inputs on which the code as written does not keep what its comments promise, each beside the
 * exact condition under which it does. All examples are on Regtest, where one block is worth two
 * units of work.
 */
module Deviations {
  import opened Wrappers
  import opened Powers
  import opened Compact
  import opened HeaderTree
  import opened Consensus
  import opened Trunk
  import opened Linkage
  import opened Soundness
  import opened Runs
  import opened ChainStore
  import opened Intake

  const EASY: Word := 0x207F_FFFF

  function Block(hash: BlockId, prev: Hash): (h: BlockHeader)
  {
    BlockHeader(hash, prev, 0, EASY)
  }

  lemma EasyWork()
    ensures Target(EASY) == REGTEST_TARGET && BlockWork(EASY) == 2
  {
    TargetConstants();
    NetworkGenesis(1, 0);
  }

  /** A Regtest block on a known parent, away from a difficulty change, is stored with two more units of work. */
  lemma EasyStep(c: Cache, h: BlockHeader)
    requires WellFormed(c) && c.network == Regtest
    requires h.hash !in c.headers && h.prev in c.headers && h.hash <= REGTEST_TARGET
    requires h.bits == EASY && c.headers[h.prev].header.bits == EASY
    requires c.headers[h.prev].height < 2000 && c.headers[h.prev].work < 10000
    ensures var stored := CachedHeader(h, c.headers[h.prev].height + 1, c.headers[h.prev].work + 2);
            && Accepts(c, h)
            && Tree(c.headers[h.hash := stored])
            && AddHeader(AsWritten, c, h) == Attach(AsWritten, c, stored)
  {
    hide Target, BlockWork, Attach, AddHeader, RequiredTarget;
    EasyWork();
    assert Node(c.headers, h.prev);
    EasyRequired(c, h);
    AddUnfolds(AsWritten, c, h);
  }

  lemma EasyRequired(c: Cache, h: BlockHeader)
    requires WellFormed(c) && c.network == Regtest && h.prev in c.headers && c.headers[h.prev].height < 2000
    requires Holds(c.headers, c.headers[h.prev])
    ensures RequiredTarget(c.network, c.headers, c.trunk, c.headers[h.prev], h) == Ok(Target(c.headers[h.prev].header.bits))
  {
    hide Target, Retarget, PeriodStart;
  }

  function Entry(hash: BlockId, prev: Hash, height: nat): (e: CachedHeader)
  {
    CachedHeader(Block(hash, prev), height, 2 * height + 2)
  }

  /** Genesis 1, a block 2 on it, and a side block 3 on genesis that ties with 2. */
  function Forked(): (c: Cache)
  {
    Cache(Regtest, map[1 := Entry(1, 0, 0), 2 := Entry(2, 1, 1), 3 := Entry(3, 1, 1)], [1, 2])
  }

  lemma ForkedReached()
    ensures GenesisHeader(Block(1, 0))
    ensures Sound(Start(Regtest, Block(1, 0)))
    ensures Run(AsWritten, Start(Regtest, Block(1, 0)), [Block(2, 1), Block(3, 1)]) == Forked()
  {
    hide Target, BlockWork, AddHeader;
    EasyWork();
    var c0 := Start(Regtest, Block(1, 0));
    StartSound(AsWritten, Regtest, Block(1, 0));
    EasyStep(c0, Block(2, 1));
    var c1 := AddHeader(AsWritten, c0, Block(2, 1)).cache;
    AddHeaderWellFormed(AsWritten, c0, Block(2, 1));
    assert c1 == Cache(Regtest, map[1 := Entry(1, 0, 0), 2 := Entry(2, 1, 1)], [1, 2]) by {
      MoveAsWritten(c0.headers[2 := Entry(2, 1, 1)], [1], Entry(2, 1, 1));
      assert [1] + [2] == [1, 2];
    }
    EasyStep(c1, Block(3, 1));
    assert AddHeader(AsWritten, c1, Block(3, 1)).cache == Forked();
    assert [Block(2, 1), Block(3, 1)][1..] == [Block(3, 1)] && [Block(3, 1)][1..] == [];
    AddHeaderWellFormed(AsWritten, c1, Block(3, 1));
    assert Run(AsWritten, Forked(), []) == Forked();
    assert Run(AsWritten, c1, [Block(3, 1)]) == Forked();
  }

  /**
   * A re-organisation of the code as written: block 4 on side block 3 gives the trunk 1, 1, 4. The
   * fork point is there twice, and the new tip's parent 3, which is on the path 1, 3, 4, is missing.
   */
  lemma ReorganisationLosesParent()
    ensures WellFormed(Forked()) && Sound(Start(Regtest, Block(1, 0)))
    ensures Run(AsWritten, Start(Regtest, Block(1, 0)), [Block(2, 1), Block(3, 1)]) == Forked()
    ensures Breaks(Forked(), Block(4, 3))
    ensures var o := AddHeader(AsWritten, Forked(), Block(4, 3));
            && o.cache.trunk == [1, 1, 4]
            && o.result == Ok(Some(Added(Entry(4, 3, 2), Some([2]), Some([1, 4]))))
            && WellFormed(o.cache) && PathTo(o.cache.headers, 4) == [1, 3, 4]
  {
    hide Target, BlockWork, AddHeader, Accepts, MoveTrunk, PathTo, Run;
    ForkedReached();
    EasyWork();
    EasyStep(Forked(), Block(4, 3));
    AddHeaderWellFormed(AsWritten, Forked(), Block(4, 3));
    ForkedMove(Forked().headers[4 := Entry(4, 3, 2)]);
    ForkedPath(Forked().headers[4 := Entry(4, 3, 2)]);
  }

  lemma ForkedWalk(headers: HeaderMap)
    requires Tree(headers) && headers == Forked().headers[4 := Entry(4, 3, 2)]
    ensures ForkWalk(headers, [1, 2], 3) == Some([3, 1])
  {
    hide Target, BlockWork;
    var trunk: seq<Hash> := [1, 2];
    assert ForkWalk(headers, trunk, 1) == Some([1]);
    assert ForkWalk(headers, trunk, 3) == Some([3] + [1]);
    assert [3] + [1] == [3, 1];
  }

  lemma ForkedMove(headers: HeaderMap)
    requires Tree(headers) && headers == Forked().headers[4 := Entry(4, 3, 2)]
    ensures MoveTrunk(AsWritten, headers, [1, 2], Entry(4, 3, 2))
         == Ok(([1, 1, 4], Added(Entry(4, 3, 2), Some([2]), Some([1, 4]))))
  {
    hide Target, BlockWork, ForkWalk, PosOnTrunk, Reverse, MoveTrunk;
    ForkedWalk(headers);
    ForkedPieces();
    MoveKnown(headers, [1, 2], Entry(4, 3, 2), [3, 1], 0);
  }

  /** A re-organisation whose walk and fork position are known. */
  lemma MoveKnown(headers: HeaderMap, trunk: seq<Hash>, tip: CachedHeader, visited: seq<Hash>, pos: nat)
    requires Tree(headers) && ForkWalk(headers, trunk, tip.header.prev) == Some(visited)
    requires visited != [] && Last(visited) != tip.header.prev && PosOnTrunk(trunk, Last(visited)) == Some(pos)
    ensures pos < |trunk|
    ensures var path := Reverse(visited[1..]) + [tip.header.hash];
            MoveTrunk(AsWritten, headers, trunk, tip)
            == Ok((trunk[..pos + 1] + path, Added(tip, Some(Reverse(trunk[pos + 1..])), Some(path))))
  {
    hide ForkWalk, Reverse, PosOnTrunk;
  }

  lemma ForkedPieces()
    ensures PosOnTrunk([1, 2], 1) == Some(0)
    ensures Reverse([3, 1][1..]) + [4] == [1, 4]
    ensures Reverse([1, 2][1..]) == [2]
    ensures [1, 2][..1] + [1, 4] == [1, 1, 4]
  {
    ForkedPosition();
    hide PosOnTrunk;
    ReverseOne(1);
    ReverseOne(2);
    hide Reverse;
    var trunk: seq<Hash> := [1, 2];
    var visited: seq<Hash> := [3, 1];
    assert visited[1..] == [1] && trunk[1..] == [2];
    assert trunk[..1] == [1];
  }

  lemma ForkedPosition()
    ensures PosOnTrunk([1, 2], 1) == Some(0)
  {
    var trunk: seq<Hash> := [1, 2];
    assert trunk[..1] == [1];
  }

  lemma ReverseOne(id: Hash)
    ensures Reverse([id]) == [id]
  {
  }

  lemma ForkedPath(headers: HeaderMap)
    requires Tree(headers) && headers == Forked().headers[4 := Entry(4, 3, 2)]
    ensures PathTo(headers, 4) == [1, 3, 4]
  {
    PathExtends(headers, 4);
    PathExtends(headers, 3);
    assert Lineage(headers, 1) == [Block(1, 0)];
  }

  // ----- a second header without parent

  /** A sound cache stays sound exactly when the header is not a new root. */
  lemma SoundIffNotSecondRoot(rule: Rule, c: Cache, h: BlockHeader)
    requires Sound(c)
    ensures Sound(AddHeader(rule, c, h).cache)
            <==> !(h.hash !in c.headers && h.prev == NO_HASH && BlockWork(h.bits) < TWO_128)
  {
    if h.prev != NO_HASH || h.hash in c.headers {
      hide AddHeader, Accepts, BlockWork;
      SoundStep(rule, c, h);
    } else {
      hide BlockWork, Weighed, InRange;
      var c' := AddHeader(rule, c, h).cache;
      assert BlockWork(h.bits) < TWO_128 ==> c'.trunk[0] == c.trunk[0] && h.hash in c'.headers;
    }
  }

  /** A new root becomes the tip whatever its work: the tip then has most work exactly when the root has at least the old tip's. */
  lemma SecondRootTip(rule: Rule, c: Cache, h: BlockHeader)
    requires Sound(c) && h.hash !in c.headers && h.prev == NO_HASH && BlockWork(h.bits) < TWO_128
    ensures var c' := AddHeader(rule, c, h).cache;
            && WellFormed(c') && c'.trunk == c.trunk + [h.hash]
            && (TipHeaviest(c') <==> BlockWork(h.bits) >= c.headers[Last(c.trunk)].work)
  {
    hide BlockWork, Weighed, InRange;
    AddHeaderWellFormed(rule, c, h);
    var c' := AddHeader(rule, c, h).cache;
    assert Last(c.trunk) in c'.headers;
  }

  /** A root offered after the chain has grown becomes a tip with less work than the block before it. */
  lemma SecondRootExample()
    ensures WellFormed(Forked()) && Sound(Forked())
    ensures var c := AddHeader(AsWritten, Forked(), Block(9, 0)).cache;
            && WellFormed(c) && c.trunk == [1, 2, 9] && !TipHeaviest(c)
  {
    hide Target, BlockWork, AddHeader, Run, TipHeaviest;
    ForkedReached();
    EasyWork();
    var g := Block(1, 0);
    SoundRun(AsWritten, Start(Regtest, g), [Block(2, 1), Block(3, 1)]);
    SecondRootTip(AsWritten, Forked(), Block(9, 0));
    assert [1, 2] + [9] == [1, 2, 9];
  }

  /**
   * A late failure: the header is stored and the call still returns an error. In a well-formed
   * cache this happens exactly to a header that passes every check, is heavier than the tip, and
   * has no ancestor on the trunk.
   */
  lemma LateFailureIff(c: Cache, h: BlockHeader)
    requires WellFormed(c) && c.trunk != []
    ensures var o := AddHeader(AsWritten, c, h);
            o.result.Err? && o.cache != c
            <==> && Accepts(c, h)
                 && c.headers[Last(c.trunk)].work < StoredAs(c.headers, h).work
                 && forall i :: 0 <= i < |PathTo(c.headers, h.prev)| ==> PathTo(c.headers, h.prev)[i] !in c.trunk
  {
    hide Accepts, BlockWork, PathTo;
    if h.prev != NO_HASH || h.hash in c.headers {
      hide AddHeader;
      AddUnfolds(AsWritten, c, h);
      if Accepts(c, h) {
        var stored := StoredAs(c.headers, h);
        var headers := c.headers[h.hash := stored];
        PathStable(c.headers, headers, h.prev);
        ForkWalkFailsIff(headers, c.trunk, h.prev);
        assert h.hash in headers;
      }
    } else {
      NotAccepted(c, h);
    }
  }

  lemma NotAccepted(c: Cache, h: BlockHeader)
    requires WellFormed(c) && h.prev == NO_HASH
    ensures !Accepts(c, h)
  {
  }

  /** From `Forked`: a root 5, the re-organisation to 4 that cuts 5 off the trunk again, and blocks 6 and 7 on 5. */
  function StrandedBlocks(): (hs: seq<BlockHeader>)
  {
    [Block(5, 0), Block(4, 3), Block(6, 5), Block(7, 6)]
  }

  function WithRoot(): (c: Cache)
  {
    Cache(Regtest, Forked().headers[5 := Entry(5, 0, 0)], [1, 2, 5])
  }

  function Cut(): (c: Cache)
  {
    Cache(Regtest, WithRoot().headers[4 := Entry(4, 3, 2)], [1, 1, 4])
  }

  function Stranded(): (c: Cache)
  {
    Cache(Regtest, Cut().headers[6 := Entry(6, 5, 1)][7 := Entry(7, 6, 2)], [1, 1, 4])
  }

  lemma RootStep()
    ensures WellFormed(Forked()) && AddHeader(AsWritten, Forked(), Block(5, 0)).cache == WithRoot()
  {
    hide Target, BlockWork, Run;
    ForkedReached();
    EasyWork();
    assert [1, 2] + [5] == [1, 2, 5];
  }

  lemma CutStep()
    requires WellFormed(WithRoot())
    ensures AddHeader(AsWritten, WithRoot(), Block(4, 3)).cache == Cut()
  {
    hide Target, BlockWork, AddHeader, MoveTrunk;
    EasyStep(WithRoot(), Block(4, 3));
    CutMove(Cut().headers);
  }

  lemma CutMove(headers: HeaderMap)
    requires Tree(headers) && headers == Cut().headers
    ensures MoveTrunk(AsWritten, headers, [1, 2, 5], Entry(4, 3, 2)).Ok?
    ensures MoveTrunk(AsWritten, headers, [1, 2, 5], Entry(4, 3, 2)).value.0 == [1, 1, 4]
  {
    hide PosOnTrunk, Reverse, Target, BlockWork;
    var trunk: seq<Hash> := [1, 2, 5];
    assert ForkWalk(headers, trunk, 1) == Some([1]);
    assert ForkWalk(headers, trunk, 3) == Some([3] + [1]);
    hide ForkWalk;
    var visited: seq<Hash> := [3, 1];
    assert [3] + [1] == visited && visited[1..] == [1];
    ReverseOne(1);
    assert trunk[0] == 1 && 1 in trunk;
    assert PosOnTrunk(trunk, 1) == Some(0);
    assert trunk[..1] + ([1] + [4]) == [1, 1, 4];
  }

  lemma StrandedReached()
    ensures WellFormed(Forked()) && Run(AsWritten, Forked(), StrandedBlocks()) == Stranded()
  {
    hide Target, BlockWork, AddHeader, MoveTrunk, Run;
    RootStep();
    AddHeaderWellFormed(AsWritten, Forked(), Block(5, 0));
    CutStep();
    AddHeaderWellFormed(AsWritten, WithRoot(), Block(4, 3));
    EasyStep(Cut(), Block(6, 5));
    var c := AddHeader(AsWritten, Cut(), Block(6, 5)).cache;
    AddHeaderWellFormed(AsWritten, Cut(), Block(6, 5));
    EasyStep(c, Block(7, 6));
    assert AddHeader(AsWritten, c, Block(7, 6)).cache == Stranded();
    FourSteps(Forked(), StrandedBlocks(), WithRoot(), Cut(), c, Stranded());
  }

  lemma FourSteps(c: Cache, hs: seq<BlockHeader>, c1: Cache, c2: Cache, c3: Cache, c4: Cache)
    requires |hs| == 4 && WellFormed(c) && WellFormed(c1) && WellFormed(c2) && WellFormed(c3)
    requires AddHeader(AsWritten, c, hs[0]).cache == c1 && AddHeader(AsWritten, c1, hs[1]).cache == c2
    requires AddHeader(AsWritten, c2, hs[2]).cache == c3 && AddHeader(AsWritten, c3, hs[3]).cache == c4
    ensures Run(AsWritten, c, hs) == c4
  {
    hide AddHeader;
    AddHeaderWellFormed(AsWritten, c3, hs[3]);
    assert hs[1..][1..] == hs[2..] && hs[2..][1..] == hs[3..] && hs[3..][1..] == [];
    assert Run(AsWritten, c4, []) == c4;
    assert Run(AsWritten, c3, hs[3..]) == c4;
    assert Run(AsWritten, c2, hs[2..]) == c4;
    assert Run(AsWritten, c1, hs[1..]) == c4;
  }

  /** A late failure in a reachable cache: block 8 on 7 is stored, and the call returns an error. */
  lemma LateFailureExample()
    ensures Sound(Start(Regtest, Block(1, 0))) && WellFormed(Forked()) && WellFormed(Stranded())
    ensures Run(AsWritten, Start(Regtest, Block(1, 0)), [Block(2, 1), Block(3, 1)]) == Forked()
    ensures Run(AsWritten, Forked(), StrandedBlocks()) == Stranded()
    ensures var o := AddHeader(AsWritten, Stranded(), Block(8, 7));
            o.result.Err? && o.cache != Stranded()
  {
    hide Target, BlockWork, AddHeader, Accepts, Run, PathTo;
    ForkedReached();
    StrandedReached();
    EasyWork();
    EasyStep(Stranded(), Block(8, 7));
    StrandedPath(Stranded().headers);
    LateFailureIff(Stranded(), Block(8, 7));
  }

  lemma StrandedPath(headers: HeaderMap)
    requires Tree(headers) && headers == Stranded().headers
    ensures PathTo(headers, 7) == [5, 6, 7]
  {
    PathExtends(headers, 7);
    PathExtends(headers, 6);
    assert Lineage(headers, 5) == [Block(5, 0)];
    assert [5] + [6] + [7] == [5, 6, 7];
  }

  // ----- announcements

  function Grown(): (c: Cache)
  {
    Cache(Regtest, map[1 := Entry(1, 0, 0), 2 := Entry(2, 1, 1)], [1, 2])
  }

  /** Block 2 on genesis moves the tip. */
  lemma FirstBlock()
    ensures Sound(Start(Regtest, Block(1, 0)))
    ensures AddHeader(AsWritten, Start(Regtest, Block(1, 0)), Block(2, 1))
         == Outcome(Grown(), Ok(Some(Added(Entry(2, 1, 1), None, Some([2])))))
  {
    hide Target, BlockWork, AddHeader, MoveTrunk;
    EasyWork();
    var c := Start(Regtest, Block(1, 0));
    StartSound(AsWritten, Regtest, Block(1, 0));
    EasyStep(c, Block(2, 1));
    MoveAsWritten(c.headers[2 := Entry(2, 1, 1)], [1], Entry(2, 1, 1));
    assert [1] + [2] == [1, 2];
  }

  /** Block 3 beside block 2 is announced as connected although it never joins the trunk. */
  lemma SideBlockAnnounced()
    ensures WellFormed(FirstStart(Regtest, Block(1, 0)).cache)
    ensures var r := Fold(FirstStart(Regtest, Block(1, 0)), [Block(2, 1), Block(3, 1)]);
            && r.failure == None && r.store.cache == Forked() && 3 !in r.store.cache.trunk
            && r.stored == [Added(Entry(2, 1, 1), None, Some([2])), Added(Entry(3, 1, 1), None, None)]
            && Notices([], r.stored, true) == [Connected(2, 1), Connected(3, 1)]
  {
    hide Target, BlockWork, AddHeader, MoveTrunk;
    FirstBlock();
    EasyWork();
    var s := FirstStart(Regtest, Block(1, 0));
    AddHeaderWellFormed(AsWritten, s.cache, Block(2, 1));
    var s1 := AddStored(s, Block(2, 1)).store;
    EasyStep(s1.cache, Block(3, 1));
    AddHeaderWellFormed(AsWritten, s1.cache, Block(3, 1));
    var s2 := AddStored(s1, Block(3, 1)).store;
    var a, b := Added(Entry(2, 1, 1), None, Some([2])), Added(Entry(3, 1, 1), None, None);
    assert AddHeader(AsWritten, s1.cache, Block(3, 1)).result == Ok(Some(b));
    assert [Block(2, 1), Block(3, 1)][1..] == [Block(3, 1)] && [Block(3, 1)][1..] == [];
    FoldNone(s2);
    assert Fold(s1, [Block(3, 1)]) == Prepend([b], Fold(s2, []));
    assert [b] + [] == [b] && [a] + [b] == [a, b];
    assert Fold(s, [Block(2, 1), Block(3, 1)]).stored == [a, b];
    TwoQuiet(a, b);
  }

  lemma TwoQuiet(a: Added, b: Added)
    requires a.unwinds.None? && b.unwinds.None?
    ensures Notices([], [a, b], true)
         == [Connected(a.stored.header.hash, a.stored.height), Connected(b.stored.header.hash, b.stored.height)]
    ensures Notices([], [a], false) == []
  {
    NoticesLast([a, b], true);
    NoticesLast([a], false);
    assert [a, b][..1] == [a] && [a][..0] == [];
    assert Disconnects([]) == [] && Connects([]) == [];
    assert Disconnects([a]) == [];
    assert Disconnects([a, b]) == [];
    assert Connects([a]) == [Connected(a.stored.header.hash, a.stored.height)];
  }

  /** Block 2 joins the trunk in a batch that an unconnected header ends, and is never announced. */
  lemma StoredButUnannounced()
    ensures WellFormed(FirstStart(Regtest, Block(1, 0)).cache)
    ensures var r := Fold(FirstStart(Regtest, Block(1, 0)), [Block(2, 1), Block(9, 8)]);
            && r.failure == Some(UnconnectedHeader) && r.store.cache == Grown()
            && r.stored == [Added(Entry(2, 1, 1), None, Some([2]))]
            && Notices([], r.stored, false) == []
  {
    hide Target, BlockWork, MoveTrunk;
    FirstBlock();
    var s := FirstStart(Regtest, Block(1, 0));
    AddHeaderWellFormed(AsWritten, s.cache, Block(2, 1));
    var s1 := AddStored(s, Block(2, 1)).store;
    var a := Added(Entry(2, 1, 1), None, Some([2]));
    assert AddHeader(AsWritten, s1.cache, Block(9, 8)) == Outcome(s1.cache, Err(UnconnectedHeader));
    hide AddHeader;
    assert [Block(2, 1), Block(9, 8)][1..] == [Block(9, 8)];
    assert Fold(s1, [Block(9, 8)]) == Intake(s1, [], Some(UnconnectedHeader));
    assert [a] + [] == [a];
    TwoQuiet(a, a);
  }

  // ----- side branches in a batch

  /** Blocks 2 and 3 on genesis. */
  function Tall(): (c: Cache)
  {
    Cache(Regtest, Grown().headers[3 := Entry(3, 2, 2)], [1, 2, 3])
  }

  /** And block 4 beside block 2. */
  function Sided(): (c: Cache)
  {
    Cache(Regtest, Tall().headers[4 := Entry(4, 1, 1)], [1, 2, 3])
  }

  /** And block 5 on block 4, which ties with block 3. */
  function Rival(): (c: Cache)
  {
    Cache(Regtest, Sided().headers[5 := Entry(5, 4, 2)], [1, 2, 3])
  }

  lemma TallStep()
    ensures WellFormed(Grown())
    ensures AddHeader(AsWritten, Grown(), Block(3, 2)) == Outcome(Tall(), Ok(Some(Added(Entry(3, 2, 2), None, Some([3])))))
  {
    hide Target, BlockWork, AddHeader, MoveTrunk;
    EasyWork();
    FirstBlock();
    AddHeaderWellFormed(AsWritten, Start(Regtest, Block(1, 0)), Block(2, 1));
    EasyStep(Grown(), Block(3, 2));
    MoveAsWritten(Tall().headers, [1, 2], Entry(3, 2, 2));
    assert [1, 2] + [3] == [1, 2, 3];
  }

  lemma SideSteps()
    ensures WellFormed(Tall()) && WellFormed(Sided()) && WellFormed(Rival())
    ensures AddHeader(AsWritten, Tall(), Block(4, 1)) == Outcome(Sided(), Ok(Some(Added(Entry(4, 1, 1), None, None))))
    ensures AddHeader(AsWritten, Sided(), Block(5, 4)) == Outcome(Rival(), Ok(Some(Added(Entry(5, 4, 2), None, None))))
  {
    hide Target, BlockWork, AddHeader, MoveTrunk;
    TallStep();
    AddHeaderWellFormed(AsWritten, Grown(), Block(3, 2));
    EasyStep(Tall(), Block(4, 1));
    AddHeaderWellFormed(AsWritten, Tall(), Block(4, 1));
    EasyStep(Sided(), Block(5, 4));
    AddHeaderWellFormed(AsWritten, Sided(), Block(5, 4));
  }

  /** One header of a batch that is stored. */
  lemma FoldStored(s: Store, h: BlockHeader, rest: seq<BlockHeader>, c: Cache, a: Added)
    requires WellFormed(s.cache) && WellFormed(c) && AddHeader(AsWritten, s.cache, h) == Outcome(c, Ok(Some(a)))
    ensures var s' := AddStored(s, h).store;
            s'.cache == c && Fold(s, [h] + rest) == Prepend([a], Fold(s', rest))
  {
    hide AddHeader;
    assert ([h] + rest)[1..] == rest;
  }

  /** A batch that makes block 3, at height 2, the tip and ends with side block 4 publishes height 1. */
  lemma SideHeightPublished()
    ensures WellFormed(FirstStart(Regtest, Block(1, 0)).cache)
    ensures var r := Fold(FirstStart(Regtest, Block(1, 0)), [Block(2, 1), Block(3, 2), Block(4, 1)]);
            && r.failure.None? && MovesTip(r.stored) && LastHeight(0, r.stored) == 1
            && r.store.cache == Sided() && r.store.cache.headers[Last(r.store.cache.trunk)].height == 2
  {
    hide Target, BlockWork, AddHeader, AddStored, Fold;
    FirstBlock();
    TallStep();
    SideSteps();
    var s := FirstStart(Regtest, Block(1, 0));
    var a, b, d := Added(Entry(2, 1, 1), None, Some([2])), Added(Entry(3, 2, 2), None, Some([3])), Added(Entry(4, 1, 1), None, None);
    FoldStored(s, Block(2, 1), [Block(3, 2), Block(4, 1)], Grown(), a);
    var s1 := AddStored(s, Block(2, 1)).store;
    FoldStored(s1, Block(3, 2), [Block(4, 1)], Tall(), b);
    var s2 := AddStored(s1, Block(3, 2)).store;
    FoldStored(s2, Block(4, 1), [], Sided(), d);
    FoldNone(AddStored(s2, Block(4, 1)).store);
    assert [Block(2, 1)] + [Block(3, 2), Block(4, 1)] == [Block(2, 1), Block(3, 2), Block(4, 1)];
    assert [Block(3, 2)] + [Block(4, 1)] == [Block(3, 2), Block(4, 1)] && [Block(4, 1)] + [] == [Block(4, 1)];
    var stored := [a] + ([b] + ([d] + []));
    assert Fold(s, [Block(2, 1), Block(3, 2), Block(4, 1)]).stored == stored;
    assert stored[0] == a && stored[2] == d && |stored| == 3;
  }

  /** Block 4 joins the trunk when block 6 on block 5 re-organises it, and is not announced; the fork point joins it again. */
  lemma JoinedUnannounced()
    ensures WellFormed(FirstStart(Regtest, Block(1, 0)).cache) && WellFormed(Rival())
    ensures Run(AsWritten, FirstStart(Regtest, Block(1, 0)).cache, [Block(2, 1), Block(3, 2), Block(4, 1), Block(5, 4)]) == Rival()
    ensures forall s: Store :: s.cache == Rival() ==>
              var r := Fold(s, [Block(6, 5)]);
              && r.failure.None? && r.store.cache.trunk == [1, 1, 4, 6]
              && r.stored == [Added(Entry(6, 5, 3), Some([3, 2]), Some([1, 4, 6]))]
              && Only(Notices([], r.stored, true), false) == [Connected(6, 3)]
  {
    hide Target, BlockWork, AddHeader, AddStored, Fold, Run;
    FirstBlock();
    TallStep();
    SideSteps();
    FourSteps(FirstStart(Regtest, Block(1, 0)).cache, [Block(2, 1), Block(3, 2), Block(4, 1), Block(5, 4)], Grown(), Tall(), Sided(), Rival());
    var a := Added(Entry(6, 5, 3), Some([3, 2]), Some([1, 4, 6]));
    var c := Cache(Regtest, Rival().headers[6 := Entry(6, 5, 3)], [1, 1, 4, 6]);
    RivalStep();
    AddHeaderWellFormed(AsWritten, Rival(), Block(6, 5));
    forall s: Store | s.cache == Rival()
      ensures Fold(s, [Block(6, 5)]).failure.None? && Fold(s, [Block(6, 5)]).store.cache == c && Fold(s, [Block(6, 5)]).stored == [a]
    {
      FoldStored(s, Block(6, 5), [], c, a);
      FoldNone(AddStored(s, Block(6, 5)).store);
      assert [Block(6, 5)] + [] == [Block(6, 5)] && [a] + [] == [a];
    }
    OneConnect(a);
  }

  lemma OneConnect(a: Added)
    ensures Only(Notices([], [a], true), false) == [Connected(a.stored.header.hash, a.stored.height)]
  {
    CompleteNotices([], [a]);
    assert [] + [a] == [a] && [a][..0] == [];
    assert Connects([]) == [];
  }

  lemma RivalStep()
    ensures WellFormed(Rival())
    ensures AddHeader(AsWritten, Rival(), Block(6, 5))
         == Outcome(Cache(Regtest, Rival().headers[6 := Entry(6, 5, 3)], [1, 1, 4, 6]),
                    Ok(Some(Added(Entry(6, 5, 3), Some([3, 2]), Some([1, 4, 6])))))
  {
    hide Target, BlockWork, AddHeader, MoveTrunk;
    SideSteps();
    EasyStep(Rival(), Block(6, 5));
    RivalMove(Rival().headers[6 := Entry(6, 5, 3)]);
  }

  lemma RivalMove(headers: HeaderMap)
    requires Tree(headers) && headers == Rival().headers[6 := Entry(6, 5, 3)]
    ensures MoveTrunk(AsWritten, headers, [1, 2, 3], Entry(6, 5, 3))
         == Ok(([1, 1, 4, 6], Added(Entry(6, 5, 3), Some([3, 2]), Some([1, 4, 6]))))
  {
    hide Target, BlockWork, ForkWalk, PosOnTrunk, Reverse, MoveTrunk;
    RivalWalk(headers);
    RivalPieces();
    MoveKnown(headers, [1, 2, 3], Entry(6, 5, 3), [5, 4, 1], 0);
  }

  lemma RivalWalk(headers: HeaderMap)
    requires Tree(headers) && headers == Rival().headers[6 := Entry(6, 5, 3)]
    ensures ForkWalk(headers, [1, 2, 3], 5) == Some([5, 4, 1])
  {
    hide Target, BlockWork;
    var trunk: seq<Hash> := [1, 2, 3];
    assert ForkWalk(headers, trunk, 1) == Some([1]);
    assert ForkWalk(headers, trunk, 4) == Some([4] + [1]);
    assert ForkWalk(headers, trunk, 5) == Some([5] + ([4] + [1]));
    assert [5] + ([4] + [1]) == [5, 4, 1];
  }

  lemma RivalPieces()
    ensures PosOnTrunk([1, 2, 3], 1) == Some(0)
    ensures Reverse([5, 4, 1][1..]) + [6] == [1, 4, 6]
    ensures Reverse([1, 2, 3][1..]) == [3, 2]
    ensures [1, 2, 3][..1] + [1, 4, 6] == [1, 1, 4, 6]
  {
    var trunk: seq<Hash> := [1, 2, 3];
    assert trunk[..1] == [1];
    assert PosOnTrunk(trunk, 1) == Some(0) by {
      assert trunk[0] == 1 && 1 in trunk;
    }
    hide PosOnTrunk, Reverse;
    var visited: seq<Hash> := [5, 4, 1];
    assert visited[1..] == [4, 1] && trunk[1..] == [2, 3];
    ReverseTwo(4, 1);
    ReverseTwo(2, 3);
  }

  lemma ReverseTwo(a: Hash, b: Hash)
    ensures Reverse([a, b]) == [b, a]
  {
    assert [a, b][1..] == [b] && [b][1..] == [];
  }
}
