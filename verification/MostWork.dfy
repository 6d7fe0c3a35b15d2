/**
 * What a run is for: among all valid chains that can be built from the headers offered, the cache
 * finds one with most work. Validity is stated on chains alone, without cache, map or trunk.
 */
module MostWork {
  import opened HeaderTree
  import opened Consensus
  import opened Trunk
  import opened Soundness
  import opened Runs

  ghost function Offered(hs: seq<BlockHeader>): (offered: set<BlockHeader>)
  {
    set h | h in hs
  }

  /** The i-th header was offered, names the one before it as parent, and meets the consensus rule on the chain below it. */
  ghost predicate Extends(network: Network, offered: set<BlockHeader>, chain: seq<BlockHeader>, i: nat)
    requires 0 < i < |chain|
  {
    && chain[i] in offered
    && chain[i].prev == chain[i - 1].hash
    && Acceptable(network, chain[..i], chain[i])
  }

  ghost predicate ValidChain(network: Network, g: BlockHeader, offered: set<BlockHeader>, chain: seq<BlockHeader>) {
    && chain != [] && chain[0] == g
    && forall i {:trigger Extends(network, offered, chain, i)} :: 0 < i < |chain| ==> Extends(network, offered, chain, i)
  }

  lemma ValidSnoc(network: Network, g: BlockHeader, offered: set<BlockHeader>, chain: seq<BlockHeader>, h: BlockHeader)
    requires chain != []
    ensures ValidChain(network, g, offered, chain + [h]) <==>
            && ValidChain(network, g, offered, chain)
            && h in offered && h.prev == chain[|chain| - 1].hash && Acceptable(network, chain, h)
  {
    hide Acceptable;
    var longer := chain + [h];
    assert longer[..|chain|] == chain;
    forall i | 0 < i < |chain|
      ensures Extends(network, offered, longer, i) <==> Extends(network, offered, chain, i)
    {
      assert longer[..i] == chain[..i];
    }
    if ValidChain(network, g, offered, longer) {
      assert Extends(network, offered, longer, |chain|);
    }
  }

  lemma ValidFrom(network: Network, g: BlockHeader, offered: set<BlockHeader>, offered': set<BlockHeader>, chain: seq<BlockHeader>)
    requires ValidChain(network, g, offered, chain)
    requires forall i :: 0 < i < |chain| ==> chain[i] in offered'
    ensures ValidChain(network, g, offered', chain)
  {
    hide Acceptable;
    forall i | 0 < i < |chain|
      ensures Extends(network, offered', chain, i)
    {
      assert Extends(network, offered, chain, i);
    }
  }

  // ----- what the offered headers are like

  /** No header is offered before its parent, if its parent is offered at all. */
  ghost predicate ParentFirst(g: Hash, hs: seq<BlockHeader>) {
    forall i, k :: 0 <= i < |hs| && 0 <= k < |hs| && hs[k].hash == hs[i].prev != g ==>
      exists j :: 0 <= j < i && hs[j].hash == hs[i].prev
  }

  lemma OfferedSnoc(g: BlockHeader, hs: seq<BlockHeader>)
    requires hs != [] && NoSecondRoot(g.hash, hs) && Unambiguous(Offered(hs) + {g})
    ensures var front := hs[..|hs| - 1];
            && Offered(hs) == Offered(front) + {hs[|hs| - 1]}
            && NoSecondRoot(g.hash, front) && Unambiguous(Offered(front) + {g})
            && (ParentFirst(g.hash, hs) ==> ParentFirst(g.hash, front))
  {
    hide ParentFirst;
    var front, last := hs[..|hs| - 1], hs[|hs| - 1];
    assert hs == front + [last];
    assert Offered(hs) == Offered(front) + {last};
    if ParentFirst(g.hash, hs) {
      ParentFirstSnoc(g.hash, hs);
    }
  }

  lemma ParentFirstSnoc(g: Hash, hs: seq<BlockHeader>)
    requires hs != [] && ParentFirst(g, hs)
    ensures ParentFirst(g, hs[..|hs| - 1])
  {
    var front := hs[..|hs| - 1];
    forall i, k | 0 <= i < |front| && 0 <= k < |front| && front[k].hash == front[i].prev != g
      ensures exists j :: 0 <= j < i && front[j].hash == front[i].prev
    {
      assert hs[k].hash == hs[i].prev;
      var j :| 0 <= j < i && hs[j].hash == hs[i].prev;
      assert front[j].hash == front[i].prev;
    }
  }

  lemma {:induction false} RunSnoc(rule: Rule, c: Cache, hs: seq<BlockHeader>)
    requires WellFormed(c) && hs != []
    ensures Run(rule, c, hs) == AddHeader(rule, Run(rule, c, hs[..|hs| - 1]), hs[|hs| - 1]).cache
    decreases |hs|
  {
    hide AddHeader, WellFormed;
    AddHeaderWellFormed(rule, c, hs[0]);
    var c1 := AddHeader(rule, c, hs[0]).cache;
    if |hs| == 1 {
      assert hs[..0] == [] && hs[1..] == [];
      assert Run(rule, c1, []) == c1 && Run(rule, c, []) == c;
    } else {
      RunSnoc(rule, c1, hs[1..]);
      assert hs[1..][..|hs[1..]| - 1] == hs[..|hs| - 1][1..];
    }
  }

  // ----- the last step of a run

  /** The cache before and after the last header of a run. */
  ghost predicate LastStep(rule: Rule, network: Network, g: BlockHeader, hs: seq<BlockHeader>, c: Cache, c': Cache) {
    && GenesisHeader(g) && hs != [] && NoSecondRoot(g.hash, hs) && Unambiguous(Offered(hs) + {g})
    && Sound(Start(network, g))
    && c == Run(rule, Start(network, g), hs[..|hs| - 1]) && c' == Run(rule, Start(network, g), hs)
  }

  lemma LastStepFacts(rule: Rule, network: Network, g: BlockHeader, hs: seq<BlockHeader>, c: Cache, c': Cache)
    requires LastStep(rule, network, g, hs, c, c')
    ensures Sound(c) && Sound(c') && c.network == network && c'.network == network
    ensures var h := hs[|hs| - 1];
            && (h.prev != NO_HASH || h.hash in c.headers)
            && c'.headers == (if Accepts(c, h) then c.headers[h.hash := StoredAs(c.headers, h)] else c.headers)
    ensures forall id :: id in c.headers ==> Lineage(c'.headers, id) == Lineage(c.headers, id)
  {
    hide AddHeader, Accepts, Tree, InRange, Weighed, TipHeaviest, Run, GenesisHeader, Offered, Unambiguous, BlockWork;
    var s := Start(network, g);
    var front, h := hs[..|hs| - 1], hs[|hs| - 1];
    OfferedSnoc(g, hs);
    SoundRun(rule, s, front);
    SoundRun(rule, s, hs);
    RunSnoc(rule, s, hs);
    assert g.hash in s.headers;
    SoundStep(rule, c, h);
    LineagesStay(c, c');
  }

  lemma LineagesStay(c: Cache, c': Cache)
    requires WellFormed(c) && WellFormed(c')
    requires forall id :: id in c.headers ==> id in c'.headers && c'.headers[id] == c.headers[id]
    ensures forall id :: id in c.headers ==> Lineage(c'.headers, id) == Lineage(c.headers, id)
  {
    hide Tree;
    forall id | id in c.headers
      ensures Lineage(c'.headers, id) == Lineage(c.headers, id)
    {
      LineageStable(c.headers, c'.headers, id);
    }
  }

  /** Everything stored heads a valid chain of offered headers: its lineage. Any order will do. */
  lemma {:induction false} StoredIsValid(rule: Rule, network: Network, g: BlockHeader, hs: seq<BlockHeader>, id: Hash)
    requires GenesisHeader(g) && NoSecondRoot(g.hash, hs) && Unambiguous(Offered(hs) + {g})
    ensures Sound(Start(network, g))
    ensures var c := Run(rule, Start(network, g), hs);
            id in c.headers ==> ValidChain(network, g, Offered(hs), Lineage(c.headers, id))
    decreases |hs|
  {
    hide ValidChain, GenesisHeader, Accepts, AddHeader, Tree, Weighed, InRange, TipHeaviest, NoSecondRoot, Unambiguous, Offered;
    StartSound(rule, network, g);
    var s := Start(network, g);
    if hs == [] {
      StartValid(network, g, Offered(hs), id);
    } else {
      OfferedSnoc(g, hs);
      var front, h := hs[..|hs| - 1], hs[|hs| - 1];
      var c, c' := Run(rule, s, front), Run(rule, s, hs);
      LastStepFacts(rule, network, g, hs, c, c');
      hide Run;
      StoredIsValid(rule, network, g, front, id);
      StoredIsValid(rule, network, g, front, h.prev);
      if id in c.headers {
        ValidMore(network, g, Offered(front), Offered(hs), Lineage(c.headers, id));
      } else if id in c'.headers {
        AcceptedParent(c, h);
        NewestIsValid(network, g, Offered(front), c, c', h);
      }
    }
  }

  lemma StartValid(network: Network, g: BlockHeader, offered: set<BlockHeader>, id: Hash)
    requires GenesisHeader(g) && Sound(Start(network, g))
    ensures id in Start(network, g).headers ==> ValidChain(network, g, offered, Lineage(Start(network, g).headers, id))
  {
    hide GenesisHeader, BlockWork;
  }

  lemma ValidMore(network: Network, g: BlockHeader, offered: set<BlockHeader>, offered': set<BlockHeader>, chain: seq<BlockHeader>)
    requires ValidChain(network, g, offered, chain) && offered <= offered'
    ensures ValidChain(network, g, offered', chain)
  {
    hide Acceptable;
    forall i | 0 < i < |chain|
      ensures chain[i] in offered'
    {
      assert Extends(network, offered, chain, i);
    }
    ValidFrom(network, g, offered, offered', chain);
  }

  /** A header stored on top of a valid chain makes a valid chain. */
  lemma NewestIsValid(network: Network, g: BlockHeader, offered: set<BlockHeader>, c: Cache, c': Cache, h: BlockHeader)
    requires Sound(c) && Sound(c') && c.network == network && Accepts(c, h)
    requires h.prev in c.headers && c'.headers == c.headers[h.hash := StoredAs(c.headers, h)]
    requires Lineage(c'.headers, h.prev) == Lineage(c.headers, h.prev)
    requires ValidChain(network, g, offered, Lineage(c.headers, h.prev))
    ensures ValidChain(network, g, offered + {h}, Lineage(c'.headers, h.hash))
  {
    AcceptedParent(c, h);
    AcceptsIffAcceptable(c, h);
    hide ValidChain, Acceptable, Accepts, Tree, Weighed, InRange, TipHeaviest;
    var chain := Lineage(c.headers, h.prev);
    ParentHash(c, h);
    ValidMore(network, g, offered, offered + {h}, chain);
    ValidSnoc(network, g, offered + {h}, chain, h);
    LineageSnoc(c, c', h);
  }

  lemma ParentHash(c: Cache, h: BlockHeader)
    requires Tree(c.headers) && h.prev in c.headers
    ensures var chain := Lineage(c.headers, h.prev);
            chain[|chain| - 1].hash == h.prev
  {
    assert Node(c.headers, h.prev);
  }

  lemma AcceptedParent(c: Cache, h: BlockHeader)
    requires WellFormed(c) && Accepts(c, h)
    ensures h.hash !in c.headers && h.prev in c.headers && h.prev != NO_HASH
  {
  }

  /** A stored header's lineage is its parent's with the header on top. */
  lemma LineageSnoc(c: Cache, c': Cache, h: BlockHeader)
    requires Sound(c) && Sound(c') && h.prev in c.headers && h.prev != NO_HASH
    requires c'.headers == c.headers[h.hash := StoredAs(c.headers, h)]
    requires Lineage(c'.headers, h.prev) == Lineage(c.headers, h.prev)
    ensures Lineage(c'.headers, h.hash) == Lineage(c.headers, h.prev) + [h]
  {
  }

  // ----- parents first: everything valid is stored

  /** A header with a child on a valid chain was offered before the last header. */
  lemma ParentWasOffered(network: Network, g: BlockHeader, hs: seq<BlockHeader>, chain: seq<BlockHeader>, i: nat)
    requires hs != [] && Unambiguous(Offered(hs) + {g}) && ParentFirst(g.hash, hs) && g.prev == NO_HASH
    requires ValidChain(network, g, Offered(hs), chain) && 0 < i < |chain| - 1
    ensures chain[i] in Offered(hs[..|hs| - 1])
  {
    hide Acceptable;
    assert Extends(network, Offered(hs), chain, i) && Extends(network, Offered(hs), chain, i + 1);
    var m :| 0 <= m < |hs| && hs[m] == chain[i + 1];
    var k :| 0 <= k < |hs| && hs[k] == chain[i];
    assert hs[k].hash == hs[m].prev != g.hash;
    var j :| 0 <= j < m && hs[j].hash == hs[m].prev;
    assert hs[j] in Offered(hs) && hs[j] == hs[k];
    assert hs[..|hs| - 1][j] == hs[j];
  }

  /** If a valid chain uses a header only the last offer brought, that header ends the chain. */
  lemma NewestEndsChain(network: Network, g: BlockHeader, hs: seq<BlockHeader>, chain: seq<BlockHeader>, i: nat)
    requires hs != [] && Unambiguous(Offered(hs) + {g}) && ParentFirst(g.hash, hs) && g.prev == NO_HASH
    requires ValidChain(network, g, Offered(hs), chain)
    requires 0 < i < |chain| && chain[i] !in Offered(hs[..|hs| - 1])
    ensures i == |chain| - 1 && chain[i] == hs[|hs| - 1]
  {
    hide Acceptable, Unambiguous, ParentFirst;
    assert Extends(network, Offered(hs), chain, i);
    assert hs == hs[..|hs| - 1] + [hs[|hs| - 1]];
    if i + 1 < |chain| {
      ParentWasOffered(network, g, hs, chain, i);
    }
  }

  /** Such a chain is a valid chain of earlier headers with the newest on top. */
  lemma NewestOnTop(network: Network, g: BlockHeader, hs: seq<BlockHeader>, chain: seq<BlockHeader>)
    requires hs != [] && Unambiguous(Offered(hs) + {g}) && ParentFirst(g.hash, hs) && g.prev == NO_HASH
    requires ValidChain(network, g, Offered(hs), chain) && !ValidChain(network, g, Offered(hs[..|hs| - 1]), chain)
    ensures var below, h := chain[..|chain| - 1], hs[|hs| - 1];
            && chain == below + [h] && below != []
            && ValidChain(network, g, Offered(hs[..|hs| - 1]), below)
            && h.prev == below[|below| - 1].hash && Acceptable(network, below, h)
            && h !in Offered(hs[..|hs| - 1]) && h != g
  {
    hide Acceptable, Unambiguous, ParentFirst, Offered;
    var front, h := hs[..|hs| - 1], hs[|hs| - 1];
    if forall i :: 0 < i < |chain| ==> chain[i] in Offered(front) {
      ValidFrom(network, g, Offered(hs), Offered(front), chain);
    }
    var i :| 0 < i < |chain| && chain[i] !in Offered(front);
    NewestEndsChain(network, g, hs, chain, i);
    var below := chain[..i];
    assert chain == below + [h];
    ValidSnoc(network, g, Offered(hs), below, h);
    forall k | 0 < k < |below|
      ensures below[k] in Offered(front)
    {
      if chain[k] !in Offered(front) {
        NewestEndsChain(network, g, hs, chain, k);
      }
    }
    ValidFrom(network, g, Offered(hs), Offered(front), below);
  }

  /** A header stored under a hash is the genesis header or an offered one. */
  lemma StoredWasOffered(network: Network, g: BlockHeader, offered: set<BlockHeader>, c: Cache, id: Hash)
    requires WellFormed(c) && id in c.headers && ValidChain(network, g, offered, Lineage(c.headers, id))
    ensures c.headers[id].header in offered + {g} && c.headers[id].header.hash == id
  {
    hide Acceptable;
    assert Node(c.headers, id);
    var chain := Lineage(c.headers, id);
    if |chain| > 1 {
      assert Extends(network, offered, chain, |chain| - 1);
    }
  }

  /** A new header that the rule accepts on the lineage of its parent is stored there. */
  lemma NewestIsStored(c: Cache, c': Cache, h: BlockHeader)
    requires Sound(c) && Sound(c') && h.hash !in c.headers && h.prev in c.headers
    requires Acceptable(c.network, Lineage(c.headers, h.prev), h)
    requires c'.headers == if Accepts(c, h) then c.headers[h.hash := StoredAs(c.headers, h)] else c.headers
    requires Lineage(c'.headers, h.prev) == Lineage(c.headers, h.prev)
    ensures h.hash in c'.headers && Lineage(c'.headers, h.hash) == Lineage(c.headers, h.prev) + [h]
  {
    AcceptsIffAcceptable(c, h);
    hide Acceptable, Accepts, Weighed, InRange, TipHeaviest, BlockWork;
    LineageSnoc(c, c', h);
  }

  /** With parents offered first, every valid chain is the lineage of a stored header. */
  lemma {:induction false} ValidIsStored(rule: Rule, network: Network, g: BlockHeader, hs: seq<BlockHeader>, chain: seq<BlockHeader>)
    requires GenesisHeader(g) && NoSecondRoot(g.hash, hs) && Unambiguous(Offered(hs) + {g}) && ParentFirst(g.hash, hs)
    requires ValidChain(network, g, Offered(hs), chain)
    ensures Sound(Start(network, g))
    ensures var c := Run(rule, Start(network, g), hs);
            var tip := chain[|chain| - 1].hash;
            tip in c.headers && Lineage(c.headers, tip) == chain
    decreases |hs|
  {
    hide BlockWork, Acceptable, Accepts, AddHeader, Tree, Weighed, InRange, TipHeaviest, NoSecondRoot, Unambiguous, ParentFirst, Lineage;
    StartSound(rule, network, g);
    var s := Start(network, g);
    if hs == [] {
      StartStored(network, g, chain);
    } else {
      OfferedSnoc(g, hs);
      var front, h := hs[..|hs| - 1], hs[|hs| - 1];
      var c, c' := Run(rule, s, front), Run(rule, s, hs);
      LastStepFacts(rule, network, g, hs, c, c');
      hide Run, Offered, ValidChain, WellFormed, GenesisHeader;
      if ValidChain(network, g, Offered(front), chain) {
        ValidIsStored(rule, network, g, front, chain);
      } else {
        NewestOnTop(network, g, hs, chain);
        var below := chain[..|chain| - 1];
        ValidIsStored(rule, network, g, front, below);
        StoredIsValid(rule, network, g, front, h.hash);
        NotYetStored(network, g, hs, c);
        NewestIsStored(c, c', h);
      }
    }
  }

  lemma StartStored(network: Network, g: BlockHeader, chain: seq<BlockHeader>)
    requires GenesisHeader(g) && Sound(Start(network, g)) && ValidChain(network, g, Offered([]), chain)
    ensures chain == [g] && Lineage(Start(network, g).headers, g.hash) == chain
  {
    hide Acceptable, BlockWork;
    assert |chain| > 1 ==> Extends(network, Offered([]), chain, 1);
  }

  lemma NotYetStored(network: Network, g: BlockHeader, hs: seq<BlockHeader>, c: Cache)
    requires hs != [] && Unambiguous(Offered(hs) + {g}) && WellFormed(c)
    requires var h := hs[|hs| - 1];
             && h !in Offered(hs[..|hs| - 1]) && h != g
             && (h.hash in c.headers ==> ValidChain(network, g, Offered(hs[..|hs| - 1]), Lineage(c.headers, h.hash)))
    ensures hs[|hs| - 1].hash !in c.headers
  {
    hide ValidChain;
    var h := hs[|hs| - 1];
    if h.hash in c.headers {
      StoredWasOffered(network, g, Offered(hs[..|hs| - 1]), c, h.hash);
    }
  }

  // ----- the law

  /** The offered headers of a run: one root, one header to a hash, parents first. */
  ghost predicate InOrder(g: BlockHeader, hs: seq<BlockHeader>) {
    GenesisHeader(g) && NoSecondRoot(g.hash, hs) && Unambiguous(Offered(hs) + {g}) && ParentFirst(g.hash, hs)
  }

  /** A chain is valid exactly when it is the lineage of a stored header. */
  lemma StoredIffValid(rule: Rule, network: Network, g: BlockHeader, hs: seq<BlockHeader>, chain: seq<BlockHeader>)
    requires InOrder(g, hs)
    ensures Sound(Start(network, g))
    ensures var c := Run(rule, Start(network, g), hs);
            && Sound(c)
            && (ValidChain(network, g, Offered(hs), chain) <==>
                  chain != [] && chain[|chain| - 1].hash in c.headers && Lineage(c.headers, chain[|chain| - 1].hash) == chain)
  {
    StartSound(rule, network, g);
    hide Run, ValidChain, Acceptable, GenesisHeader, Tree, Weighed, InRange, TipHeaviest, Unambiguous, ParentFirst, Offered;
    SoundRun(rule, Start(network, g), hs);
    if ValidChain(network, g, Offered(hs), chain) {
      ValidIsStored(rule, network, g, hs, chain);
      ChainNotEmpty(network, g, Offered(hs), chain);
    } else if chain != [] {
      StoredIsValid(rule, network, g, hs, chain[|chain| - 1].hash);
    }
  }

  lemma ChainNotEmpty(network: Network, g: BlockHeader, offered: set<BlockHeader>, chain: seq<BlockHeader>)
    requires ValidChain(network, g, offered, chain)
    ensures chain != []
  {
  }

  /**
   * The tip heads a chain with most work: its lineage is a valid chain of offered headers, and no
   * valid chain that can be built from them has more work.
   */
  lemma TipIsMostWork(rule: Rule, network: Network, g: BlockHeader, hs: seq<BlockHeader>, chain: seq<BlockHeader>)
    requires InOrder(g, hs)
    ensures Sound(Start(network, g))
    ensures var c := Run(rule, Start(network, g), hs);
            && Sound(c)
            && var best := Lineage(c.headers, Last(c.trunk));
            && ValidChain(network, g, Offered(hs), best)
            && (ValidChain(network, g, Offered(hs), chain) ==> ChainWork(chain) <= ChainWork(best))
  {
    StoredIffValid(rule, network, g, hs, chain);
    hide Run, ValidChain, Acceptable, GenesisHeader, Tree, InRange, Unambiguous, ParentFirst, Offered;
    var c := Run(rule, Start(network, g), hs);
    StoredIsValid(rule, network, g, hs, Last(c.trunk));
    WorkOfLineage(c.headers, Last(c.trunk));
    if ValidChain(network, g, Offered(hs), chain) {
      WorkOfLineage(c.headers, chain[|chain| - 1].hash);
    }
  }

  /** A valid chain of offered headers with no heavier one beside it. */
  ghost predicate MostWorkChain(network: Network, g: BlockHeader, offered: set<BlockHeader>, best: seq<BlockHeader>) {
    && ValidChain(network, g, offered, best)
    && forall chain :: ValidChain(network, g, offered, chain) ==> ChainWork(chain) <= ChainWork(best)
  }

  lemma TipIsBest(rule: Rule, network: Network, g: BlockHeader, hs: seq<BlockHeader>)
    requires InOrder(g, hs)
    ensures Sound(Start(network, g))
    ensures var c := Run(rule, Start(network, g), hs);
            Sound(c) && MostWorkChain(network, g, Offered(hs), Lineage(c.headers, Last(c.trunk)))
  {
    TipIsMostWork(rule, network, g, hs, [g]);
    hide Run, ValidChain, GenesisHeader, Tree, Weighed, InRange, TipHeaviest, Unambiguous, ParentFirst, Offered;
    forall chain | ValidChain(network, g, Offered(hs), chain)
      ensures ChainWork(chain) <= ChainWork(Lineage(Run(rule, Start(network, g), hs).headers, Last(Run(rule, Start(network, g), hs).trunk)))
    {
      TipIsMostWork(rule, network, g, hs, chain);
    }
  }

  /**
   * The promise of the trunk, and when the code keeps it: with parents offered first, the trunk
   * lists a most-work chain of the offered headers exactly when no step broke it.
   */
  lemma TrunkIsMostWorkIff(network: Network, g: BlockHeader, hs: seq<BlockHeader>)
    requires InOrder(g, hs)
    ensures Sound(Start(network, g))
    ensures var c := Run(AsWritten, Start(network, g), hs);
            (exists best :: MostWorkChain(network, g, Offered(hs), best) && c.trunk == Hashes(best))
            <==> NeverBreaks(Start(network, g), hs)
  {
    TipIsBest(AsWritten, network, g, hs);
    TrunkIsPathIffNeverBreaks(network, g, hs);
    hide Run, NeverBreaks, ValidChain, GenesisHeader, Tree, Weighed, InRange, TipHeaviest, Unambiguous, ParentFirst, Offered, Hashes;
    var c := Run(AsWritten, Start(network, g), hs);
    if best: seq<BlockHeader> :| MostWorkChain(network, g, Offered(hs), best) && c.trunk == Hashes(best) {
      StoredIffValid(AsWritten, network, g, hs, best);
      assert Last(c.trunk) == best[|best| - 1].hash;
    }
  }

  /**
   * Whole runs do not depend on the order of arrival: two orders of the same headers, each with
   * parents first, under either rule, end with the same headers at the same heights with the same
   * work, and with tips of the same work. Which of several tips with equal work is kept, and the
   * trunk below it, may differ.
   */
  lemma OrderIndependentRun(rule: Rule, rule': Rule, network: Network, g: BlockHeader, hs: seq<BlockHeader>, hs': seq<BlockHeader>)
    requires InOrder(g, hs) && InOrder(g, hs') && Offered(hs) == Offered(hs')
    ensures Sound(Start(network, g))
    ensures var c, c' := Run(rule, Start(network, g), hs), Run(rule', Start(network, g), hs');
            && Sound(c) && Sound(c')
            && c.headers == c'.headers
            && c.headers[Last(c.trunk)].work == c'.headers[Last(c'.trunk)].work
  {
    StoredIffValid(rule, network, g, hs, []);
    StoredIffValid(rule', network, g, hs', []);
    hide Run, ValidChain, Acceptable, GenesisHeader, Tree, InRange, Unambiguous, ParentFirst, Offered;
    var c, c' := Run(rule, Start(network, g), hs), Run(rule', Start(network, g), hs');
    forall id | id in c.headers
      ensures id in c'.headers && c'.headers[id] == c.headers[id]
    {
      StoredEverywhere(rule, rule', network, g, hs, hs', id);
    }
    forall id | id in c'.headers
      ensures id in c.headers
    {
      StoredEverywhere(rule', rule, network, g, hs', hs, id);
    }
    assert c.headers == c'.headers;
  }

  lemma StoredEverywhere(rule: Rule, rule': Rule, network: Network, g: BlockHeader, hs: seq<BlockHeader>, hs': seq<BlockHeader>, id: Hash)
    requires InOrder(g, hs) && InOrder(g, hs') && Offered(hs) == Offered(hs')
    requires Sound(Start(network, g)) && id in Run(rule, Start(network, g), hs).headers
    ensures var c, c' := Run(rule, Start(network, g), hs), Run(rule', Start(network, g), hs');
            id in c'.headers && c'.headers[id] == c.headers[id]
  {
    var c, c' := Run(rule, Start(network, g), hs), Run(rule', Start(network, g), hs');
    var chain := Lineage(c.headers, id);
    assert chain[|chain| - 1].hash == id by {
      assert Node(c.headers, id);
    }
    StoredIffValid(rule, network, g, hs, chain);
    StoredIffValid(rule', network, g, hs', chain);
    hide Run, ValidChain, Acceptable, GenesisHeader, Tree, InRange, Unambiguous, ParentFirst, Offered;
    WorkOfLineage(c.headers, id);
    WorkOfLineage(c'.headers, id);
  }
}
