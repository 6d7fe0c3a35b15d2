/**
 * The invariant of every cache that grew from one genesis header, and what follows from it for one
 * step: the tip carries most work, targets stay in range, the retarget shortcut is never taken,
 * errors change nothing, and acceptance is a function of the ancestor chain.
 */
module Soundness {
  import opened Wrappers
  import opened Powers
  import opened Compact
  import opened HeaderTree
  import opened Consensus
  import opened Trunk
  import opened Linkage

  /** No header has more total work than the tip. */
  ghost predicate TipHeaviest(c: Cache)
    requires WellFormed(c) && c.trunk != []
  {
    forall id :: id in c.headers ==> c.headers[id].work <= c.headers[Last(c.trunk)].work
  }

  /** Every stored target occurs on some network, and every total work is below 2^128. */
  ghost predicate InRange(headers: HeaderMap) {
    forall id {:trigger Fits(headers, id)} :: id in headers ==> Fits(headers, id)
  }

  ghost predicate Fits(headers: HeaderMap, id: Hash)
    requires id in headers
  {
    Admissible(Target(headers[id].header.bits)) && headers[id].work < TWO_128
  }

  ghost predicate Sound(c: Cache) {
    && WellFormed(c)
    && Rooted(c)
    && Weighed(c.headers)
    && InRange(c.headers)
    && TipHeaviest(c)
  }

  /** A header that can start a chain: no parent, a target that some network uses, work below 2^128. */
  predicate GenesisHeader(g: BlockHeader) {
    g.prev == NO_HASH && Admissible(Target(g.bits)) && BlockWork(g.bits) < TWO_128
  }

  /** The genesis headers of the networks can start a chain: the Bitcoin and Testnet word, and the Regtest word. */
  lemma NetworkGenesis(hash: BlockId, time: Word)
    ensures GenesisHeader(BlockHeader(hash, NO_HASH, time, 0x1D00_FFFF)) && BlockWork(0x1D00_FFFF) == 0x1_0001_0001
    ensures GenesisHeader(BlockHeader(hash, NO_HASH, time, 0x207F_FFFF)) && BlockWork(0x207F_FFFF) == 2
  {
    TargetConstants();
    hide Target, Work;
    WorkIsQuotient(MAX_TARGET);
    DivUnique(TWO_256, MAX_TARGET + 1, 0x1_0001_0001);
    WorkIsQuotient(REGTEST_TARGET);
    DivUnique(TWO_256, REGTEST_TARGET + 1, 2);
  }

  /** The cache after the genesis insertion. */
  function Start(network: Network, g: BlockHeader): (c: Cache)
  {
    Cache(network, map[g.hash := CachedHeader(g, 0, BlockWork(g.bits))], [g.hash])
  }

  lemma StartSound(rule: Rule, network: Network, g: BlockHeader)
    requires GenesisHeader(g)
    ensures Sound(Start(network, g))
    ensures AddHeader(rule, Cache(network, map[], []), g)
         == Outcome(Start(network, g), Ok(Some(Added(CachedHeader(g, 0, BlockWork(g.bits)), None, Some([g.hash])))))
    ensures Linked(Start(network, g).headers, Start(network, g).trunk)
  {
    hide Target, BlockWork;
    var c := Start(network, g);
    assert g.hash in c.headers && Node(c.headers, g.hash);
    assert [] + [g.hash] == [g.hash];
  }

  lemma PositiveWork(bits: Word)
    requires Target(bits) > 0
    ensures BlockWork(bits) > 0
  {
    TargetBound(bits);
    WorkIsQuotient(Target(bits));
  }

  /** Work strictly grows from parent to child. */
  lemma ChildHeavier(headers: HeaderMap, id: Hash)
    requires Tree(headers) && Weighed(headers) && InRange(headers)
    requires id in headers && headers[id].header.prev != NO_HASH
    ensures headers[id].header.prev in headers
    ensures headers[headers[id].header.prev].work < headers[id].work
  {
    assert Node(headers, id) && Weighs(headers, id) && Fits(headers, id);
    PositiveWork(headers[id].header.bits);
  }

  /** The tip never has a child, so the guard of the retarget shortcut never holds. */
  lemma ShortcutNeverTaken(c: Cache, prev: Hash)
    requires Sound(c) && prev in c.headers
    ensures c.headers[prev].header.prev != Last(c.trunk)
  {
    if c.headers[prev].header.prev == Last(c.trunk) {
      ChildHeavier(c.headers, prev);
    }
  }

  /** The block's own work is part of its total, so a total below 2^128 means a target of at least 2^128. */
  lemma TargetLarge(headers: HeaderMap, id: Hash)
    requires Tree(headers) && Weighed(headers) && InRange(headers) && id in headers
    ensures Target(headers[id].header.bits) >= TWO_128
  {
    assert Weighs(headers, id) && Fits(headers, id);
    var bits := headers[id].header.bits;
    TargetBound(bits);
    SmallWorkLargeTarget(Target(bits));
  }

  /** The consensus rule on a chain of targets in range gives a target in range. */
  lemma ConsensusTargetInRange(network: Network, chain: seq<BlockHeader>, time: Word)
    requires chain != [] && Target(chain[|chain| - 1].bits) >= TWO_128
    requires forall i :: 0 <= i < |chain| ==> Admissible(Target(chain[i].bits))
    ensures var r := ConsensusTarget(network, chain, time);
            r.Ok? && Admissible(r.value)
  {
    hide Target;
    if |chain| % DIFFCHANGE_INTERVAL == 0 {
      var last := chain[|chain| - 1];
      RetargetSafe(Target(last.bits), Timespan(last.time, chain[|chain| - DIFFCHANGE_INTERVAL].time));
    }
  }

  /** In a sound cache the required target always exists, is the consensus target of the chain, and is in range. */
  lemma RequiredTargetSound(c: Cache, next: BlockHeader)
    requires Sound(c) && next.prev in c.headers
    ensures Holds(c.headers, c.headers[next.prev])
    ensures var r := RequiredTarget(c.network, c.headers, c.trunk, c.headers[next.prev], next);
            && r == ConsensusTarget(c.network, Lineage(c.headers, next.prev), next.time)
            && r.Ok? && Admissible(r.value)
  {
    hide RequiredTarget, ConsensusTarget, Target;
    assert Node(c.headers, next.prev);
    ShortcutNeverTaken(c, next.prev);
    RequiredTargetIsConsensus(c.network, c.headers, c.trunk, c.headers[next.prev], next);
    TargetLarge(c.headers, next.prev);
    var chain := Lineage(c.headers, next.prev);
    forall i | 0 <= i < |chain|
      ensures Admissible(Target(chain[i].bits))
    {
      LineagePrefix(c.headers, next.prev, i);
      assert Fits(c.headers, chain[i].hash);
    }
    ConsensusTargetInRange(c.network, chain, next.time);
  }

  /** Storing a validated header keeps the sums and the ranges. */
  lemma AcceptKeepsRanges(c: Cache, h: BlockHeader, stored: CachedHeader)
    requires Sound(c) && Accepts(c, h)
    requires stored == CachedHeader(h, c.headers[h.prev].height + 1, BlockWork(h.bits) + c.headers[h.prev].work)
    ensures stored.work < TWO_128 && Admissible(Target(h.bits))
    ensures var headers := c.headers[h.hash := stored];
            Tree(headers) && Weighed(headers) && InRange(headers)
  {
    RequiredTargetSound(c, h);
    InsertKeepsTree(c.headers, stored);
    var headers := c.headers[h.hash := stored];
    forall id | id in headers
      ensures Weighs(headers, id)
    {
      if id != h.hash {
        assert Node(c.headers, id) && Weighs(c.headers, id);
      }
    }
    forall id | id in headers
      ensures Fits(headers, id)
    {
      assert id != h.hash ==> Fits(c.headers, id);
    }
  }

  /** Storing a child of a known header in a single-rooted cache succeeds and moves the tip to it if it is heavier. */
  lemma AttachSucceeds(rule: Rule, c: Cache, stored: CachedHeader)
    requires WellFormed(c) && Rooted(c)
    requires stored.header.hash !in c.headers && stored.header.prev in c.headers
    requires stored.height == c.headers[stored.header.prev].height + 1
    ensures Tree(c.headers[stored.header.hash := stored])
    ensures var o := Attach(rule, c, stored);
            && o.result.Ok? && o.result.value.Some? && o.result.value.value.stored == stored
            && o.cache.network == c.network
            && o.cache.headers == c.headers[stored.header.hash := stored]
            && o.cache.trunk != [] && o.cache.trunk[0] == c.trunk[0]
            && Last(o.cache.trunk) == if c.headers[Last(c.trunk)].work < stored.work then stored.header.hash else Last(c.trunk)
  {
    var headers := c.headers[stored.header.hash := stored];
    InsertKeepsTree(c.headers, stored);
    hide MoveTrunk;
    MoveSucceeds(rule, headers, c.trunk, stored);
    MoveTrunkShape(rule, headers, c.trunk, stored);
    MoveTrunkStored(rule, headers, c.trunk, stored);
  }

  /**
   * One step on a sound cache, under either rule, for every header that is not a second root:
   * the cache stays sound; an error leaves it as it was and is never `NoTip`; the tip moves
   * exactly when a header with strictly more work is stored, so ties keep the earlier tip.
   */
  lemma SoundStep(rule: Rule, c: Cache, h: BlockHeader)
    requires Sound(c)
    requires h.prev != NO_HASH || h.hash in c.headers
    ensures var o := AddHeader(rule, c, h);
            && Sound(o.cache) && o.cache.network == c.network && o.cache.trunk[0] == c.trunk[0]
            && (o.result.Err? ==> o.cache == c && o.result.error != NoTip)
            && (o.result.Ok? && o.result.value.None? <==> h.hash in c.headers)
            && (o.result.Ok? && o.result.value.Some? <==> Accepts(c, h))
            && (!Accepts(c, h) ==> o.cache == c)
            && (Accepts(c, h) ==>
                  && o.cache.headers == c.headers[h.hash := StoredAs(c.headers, h)]
                  && o.result.value.value.stored == StoredAs(c.headers, h)
                  && Last(o.cache.trunk) == if c.headers[Last(c.trunk)].work < StoredAs(c.headers, h).work
                                            then h.hash else Last(c.trunk))
  {
    hide AddHeader, Attach, Accepts, Weighed, InRange, WellFormed, BlockWork;
    AddHeaderWellFormed(rule, c, h);
    AddUnfolds(rule, c, h);
    if Accepts(c, h) {
      var stored := StoredAs(c.headers, h);
      AcceptKeepsRanges(c, h, stored);
      AttachSucceeds(rule, c, stored);
      StaysHeaviest(c, AddHeader(rule, c, h).cache, stored);
    }
  }

  /** Adding a heavier tip, or a header no heavier than the tip, keeps the tip heaviest and the root single. */
  lemma StaysHeaviest(c: Cache, c': Cache, stored: CachedHeader)
    requires WellFormed(c) && Rooted(c) && TipHeaviest(c)
    requires WellFormed(c') && c'.trunk != [] && c'.trunk[0] == c.trunk[0]
    requires stored.header.prev != NO_HASH && stored.header.hash !in c.headers
    requires c'.headers == c.headers[stored.header.hash := stored]
    requires Last(c'.trunk) == if c.headers[Last(c.trunk)].work < stored.work then stored.header.hash else Last(c.trunk)
    ensures Rooted(c') && TipHeaviest(c')
  {
  }

  // ----- acceptance is a function of the ancestor chain

  /** The rule a new header must meet, stated on its ancestor chain alone. */
  ghost predicate Acceptable(network: Network, chain: seq<BlockHeader>, h: BlockHeader)
    requires chain != []
  {
    && ConsensusTarget(network, chain, h.time) == Ok(Target(h.bits))
    && h.hash <= Target(h.bits)
    && ChainWork(chain) + BlockWork(h.bits) < TWO_128
  }

  /** A sound cache accepts a new connected header exactly when its ancestor chain says so. */
  lemma AcceptsIffAcceptable(c: Cache, h: BlockHeader)
    requires Sound(c) && h.hash !in c.headers && h.prev in c.headers
    ensures Accepts(c, h) <==> Acceptable(c.network, Lineage(c.headers, h.prev), h)
  {
    hide RequiredTarget, ConsensusTarget, Target, BlockWork;
    RequiredTargetSound(c, h);
    WorkOfLineage(c.headers, h.prev);
  }

  /** The total work of the chain and the header stays below 2^128, but the header misses the required target or its own. */
  ghost predicate FailsProofOfWork(network: Network, chain: seq<BlockHeader>, h: BlockHeader)
    requires chain != []
  {
    && ChainWork(chain) + BlockWork(h.bits) < TWO_128
    && (ConsensusTarget(network, chain, h.time) != Ok(Target(h.bits)) || h.hash > Target(h.bits))
  }

  /**
   * The verdict on a header a sound cache does not know, by its parent, its ancestor chain and its
   * own fields: which error is returned, and when none is.
   */
  lemma VerdictIff(rule: Rule, c: Cache, h: BlockHeader)
    requires Sound(c) && h.hash !in c.headers
    ensures var r := AddHeader(rule, c, h).result;
            && (r == Err(UnconnectedHeader) <==> h.prev != NO_HASH && h.prev !in c.headers)
            && (h.prev in c.headers ==>
                  var chain := Lineage(c.headers, h.prev);
                  && (r == Err(SpvBadProofOfWork) <==> FailsProofOfWork(c.network, chain, h))
                  && (r == Err(Aborted) <==> ChainWork(chain) + BlockWork(h.bits) >= TWO_128)
                  && (r.Ok? <==> Acceptable(c.network, chain, h)))
            && (h.prev == NO_HASH ==> if BlockWork(h.bits) >= TWO_128 then r == Err(Aborted) else r.Ok?)
  {
    hide RequiredTarget, ConsensusTarget, Target, BlockWork, Attach;
    if h.prev in c.headers {
      RequiredTargetSound(c, h);
      WorkOfLineage(c.headers, h.prev);
      var checked := Validate(c, c.headers[h.prev], h);
      if checked.Ok? {
        assert Accepts(c, h);
        AcceptedResult(rule, c, h);
      }
    }
  }

  lemma AcceptedResult(rule: Rule, c: Cache, h: BlockHeader)
    requires Sound(c) && Accepts(c, h)
    ensures AddHeader(rule, c, h).result.Ok?
  {
    assert h.prev != NO_HASH;
    hide AddHeader, Accepts;
    SoundStep(rule, c, h);
  }

  /** Two sound caches that agree on what a hash stands for give a header the same ancestors. */
  lemma {:induction false} SameLineage(a: Cache, b: Cache, id: Hash)
    requires Sound(a) && Sound(b) && id in a.headers && id in b.headers
    requires forall k :: k in a.headers && k in b.headers ==> a.headers[k].header == b.headers[k].header
    ensures Lineage(a.headers, id) == Lineage(b.headers, id)
    decreases a.headers[id].height
  {
    assert Node(a.headers, id) && Node(b.headers, id);
    if a.headers[id].header.prev != NO_HASH {
      SameLineage(a, b, a.headers[id].header.prev);
    }
  }

  /**
   * Arrival-order independence: two caches of one network, however they came about and whatever
   * trunk and side branches they hold, agree on every header whose parent both know.
   */
  lemma ArrivalOrderIndependent(a: Cache, b: Cache, h: BlockHeader)
    requires Sound(a) && Sound(b) && a.network == b.network
    requires forall k :: k in a.headers && k in b.headers ==> a.headers[k].header == b.headers[k].header
    requires h.prev in a.headers && h.prev in b.headers && h.hash !in a.headers && h.hash !in b.headers
    ensures Accepts(a, h) <==> Accepts(b, h)
    ensures StoredAs(a.headers, h) == StoredAs(b.headers, h)
  {
    hide Accepts, Acceptable, Admissible, Target, BlockWork;
    SameLineage(a, b, h.prev);
    AcceptsIffAcceptable(a, h);
    AcceptsIffAcceptable(b, h);
    WorkOfLineage(a.headers, h.prev);
    WorkOfLineage(b.headers, h.prev);
  }
}
