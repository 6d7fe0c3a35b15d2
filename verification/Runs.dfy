/** Whole runs: any sequence of headers offered to a cache that starts with one genesis header. */
module Runs {
  import opened Wrappers
  import opened Compact
  import opened HeaderTree
  import opened Consensus
  import opened Trunk
  import opened Linkage
  import opened Soundness

  /** Offers headers one after the other; an error does not stop the node from taking the next one. */
  ghost function Run(rule: Rule, c: Cache, hs: seq<BlockHeader>): (c': Cache)
    requires WellFormed(c)
    ensures WellFormed(c')
    decreases |hs|
  {
    if hs == [] then c
    else
      AddHeaderWellFormed(rule, c, hs[0]);
      Run(rule, AddHeader(rule, c, hs[0]).cache, hs[1..])
  }

  /** No offered header is without parent, other than the genesis header itself. */
  ghost predicate NoSecondRoot(g: BlockId, hs: seq<BlockHeader>) {
    forall i :: 0 <= i < |hs| ==> hs[i].prev != NO_HASH || hs[i].hash == g
  }

  /** A later state of the same cache: nothing is forgotten, and the tip changes only for strictly more work. */
  ghost predicate Later(c: Cache, c': Cache)
    requires Sound(c) && Sound(c')
  {
    && c'.network == c.network && c'.trunk[0] == c.trunk[0]
    && (forall id :: id in c.headers ==> id in c'.headers && c'.headers[id] == c.headers[id])
    && (Last(c'.trunk) == Last(c.trunk) || c'.headers[Last(c'.trunk)].work > c.headers[Last(c.trunk)].work)
  }

  lemma LaterTransitive(a: Cache, b: Cache, c: Cache)
    requires Sound(a) && Sound(b) && Sound(c) && Later(a, b) && Later(b, c)
    ensures Later(a, c)
  {
    hide Tree, Weighed, InRange, TipHeaviest;
  }

  lemma LaterStep(rule: Rule, c: Cache, h: BlockHeader)
    requires Sound(c) && (h.prev != NO_HASH || h.hash in c.headers)
    ensures Sound(AddHeader(rule, c, h).cache)
    ensures Later(c, AddHeader(rule, c, h).cache)
  {
    hide AddHeader, Accepts, BlockWork, Tree, Weighed, InRange;
    SoundStep(rule, c, h);
  }

  /**
   * Every run with a single root ends in a sound cache, under either rule: its tip has most work,
   * its targets are in range, every hash of the trunk and every parent is known. A tie never
   * replaces the tip.
   */
  lemma {:induction false} SoundRun(rule: Rule, c: Cache, hs: seq<BlockHeader>)
    requires Sound(c) && NoSecondRoot(c.trunk[0], hs)
    ensures var c' := Run(rule, c, hs);
            Sound(c') && Later(c, c')
    decreases |hs|
  {
    hide AddHeader, Tree, Weighed, InRange, TipHeaviest;
    if hs != [] {
      var c1 := AddHeader(rule, c, hs[0]).cache;
      LaterStep(rule, c, hs[0]);
      SoundRun(rule, c1, hs[1..]);
      LaterTransitive(c, c1, Run(rule, c1, hs[1..]));
    }
  }

  // ----- the code as written: when the trunk is the most-work chain

  /** No step of the run breaks the trunk. */
  ghost predicate NeverBreaks(c: Cache, hs: seq<BlockHeader>)
    requires WellFormed(c) && c.trunk != []
    decreases |hs|
  {
    hs == [] ||
    (&& !Breaks(c, hs[0])
     && (LinkedStep(c, hs[0]); NeverBreaks(AddHeader(AsWritten, c, hs[0]).cache, hs[1..])))
  }

  lemma {:induction false} UnlinkedForever(c: Cache, hs: seq<BlockHeader>)
    requires WellFormed(c) && c.trunk != [] && !Linked(c.headers, c.trunk)
    ensures var c' := Run(AsWritten, c, hs);
            c'.trunk != [] && !Linked(c'.headers, c'.trunk)
    decreases |hs|
  {
    hide AddHeader, Linked;
    if hs != [] {
      LinkedStep(c, hs[0]);
      UnlinkedForever(AddHeader(AsWritten, c, hs[0]).cache, hs[1..]);
    }
  }

  /** A step that does not break the trunk does not add a root. */
  lemma UnbrokenStaysRooted(c: Cache, h: BlockHeader)
    requires WellFormed(c) && Rooted(c) && !Breaks(c, h)
    ensures Rooted(AddHeader(AsWritten, c, h).cache)
  {
    hide Accepts, BlockWork, MoveTrunk;
    AddHeaderWellFormed(AsWritten, c, h);
    if h.prev != NO_HASH || h.hash in c.headers {
      hide AddHeader, Attach;
      AddUnfolds(AsWritten, c, h);
      if Accepts(c, h) {
        AttachSucceeds(AsWritten, c, StoredAs(c.headers, h));
      }
    }
  }

  lemma {:induction false} LinkedIffNeverBreaks(c: Cache, hs: seq<BlockHeader>)
    requires WellFormed(c) && Rooted(c) && Linked(c.headers, c.trunk)
    ensures var c' := Run(AsWritten, c, hs);
            c'.trunk != [] && (Linked(c'.headers, c'.trunk) <==> NeverBreaks(c, hs))
    decreases |hs|
  {
    hide AddHeader, Linked, Breaks;
    if hs != [] {
      var c1 := AddHeader(AsWritten, c, hs[0]).cache;
      LinkedStep(c, hs[0]);
      if Breaks(c, hs[0]) {
        UnlinkedForever(c1, hs[1..]);
      } else {
        UnbrokenStaysRooted(c, hs[0]);
        LinkedIffNeverBreaks(c1, hs[1..]);
      }
    }
  }

  /**
   * For every run of the code as written from any genesis header, with any headers whatever: the
   * trunk is the genesis-to-tip path of its tip exactly when no step moved it to a header that is
   * not a child of the tip.
   */
  lemma TrunkIsPathIffNeverBreaks(network: Network, g: BlockHeader, hs: seq<BlockHeader>)
    requires GenesisHeader(g)
    ensures Sound(Start(network, g))
    ensures var c := Run(AsWritten, Start(network, g), hs);
            && c.trunk != []
            && (c.trunk == PathTo(c.headers, Last(c.trunk)) <==> NeverBreaks(Start(network, g), hs))
  {
    StartSound(AsWritten, network, g);
    hide Start, Linked, NeverBreaks, Run, InRange, Weighed, TipHeaviest;
    LinkedIffNeverBreaks(Start(network, g), hs);
    LinkedIffPath(Run(AsWritten, Start(network, g), hs));
  }

  // ----- the intended rule: the trunk always is the most-work chain

  /** The path to a header runs through the fork point the walk finds. */
  lemma {:induction false} ForkWalkPath(headers: HeaderMap, trunk: seq<Hash>, at: Hash)
    requires Tree(headers) && at in headers && Known(headers, trunk)
    ensures var r := ForkWalk(headers, trunk, at);
            r.Some? ==> && Last(r.value) in headers
                        && PathTo(headers, at) == PathTo(headers, Last(r.value)) + Reverse(r.value[..|r.value| - 1])
    decreases headers[at].height
  {
    hide PathTo;
    assert Node(headers, at);
    var r := ForkWalk(headers, trunk, at);
    if r.Some? {
      if at in trunk {
        assert r.value[..0] == [];
      } else {
        var prev := headers[at].header.prev;
        assert prev in headers || prev in trunk;
        ForkWalkPath(headers, trunk, prev);
        PathExtends(headers, at);
        var rest := ForkWalk(headers, trunk, prev).value;
        assert r.value == [at] + rest && Last(r.value) == Last(rest);
        var s := r.value[..|r.value| - 1];
        assert s[1..] == rest[..|rest| - 1];
        assert Reverse(s) == Reverse(rest[..|rest| - 1]) + [at];
      }
    }
  }

  /** Moving a trunk that is a path, by the intended rule, gives the path to the new tip. */
  lemma MoveIntended(headers: HeaderMap, trunk: seq<Hash>, last: Hash, tip: CachedHeader)
    requires Tree(headers) && Holds(headers, tip) && tip.header.prev in headers
    requires last in headers && trunk == PathTo(headers, last) && Known(headers, trunk)
    ensures var r := MoveTrunk(Intended, headers, trunk, tip);
            r.Ok? ==> r.value.0 == PathTo(headers, tip.header.hash)
  {
    hide ForkWalk, Reverse, PosOnTrunk, PathTo;
    var parent := tip.header.prev;
    var walk := ForkWalk(headers, trunk, parent);
    if walk.Some? {
      ForkWalkPath(headers, trunk, parent);
      var fork := Last(walk.value);
      var pos := PosOnTrunk(trunk, fork).value;
      PathPrefix(headers, last, pos);
      assert tip.header.prev != NO_HASH;
      PathExtends(headers, tip.header.hash);
      var back := Reverse(walk.value[..|walk.value| - 1]);
      assert trunk[..pos + 1] + (back + [tip.header.hash]) == trunk[..pos + 1] + back + [tip.header.hash];
    }
  }

  lemma PathPrefix(headers: HeaderMap, id: Hash, i: nat)
    requires Tree(headers) && id in headers && i <= headers[id].height
    ensures PathTo(headers, id)[i] in headers
    ensures PathTo(headers, id)[..i + 1] == PathTo(headers, PathTo(headers, id)[i])
  {
    LineagePrefix(headers, id, i);
  }

  /** The intended step keeps the trunk equal to the path of its tip. */
  lemma IntendedStep(c: Cache, h: BlockHeader)
    requires Sound(c) && (h.prev != NO_HASH || h.hash in c.headers)
    requires c.trunk == PathTo(c.headers, Last(c.trunk))
    ensures var c' := AddHeader(Intended, c, h).cache;
            WellFormed(c') && c'.trunk != [] && c'.trunk == PathTo(c'.headers, Last(c'.trunk))
  {
    hide AddHeader, Accepts, BlockWork, MoveTrunk, PathTo, InRange, Weighed, TipHeaviest;
    SoundStep(Intended, c, h);
    AddUnfolds(Intended, c, h);
    if Accepts(c, h) {
      var stored := StoredAs(c.headers, h);
      var headers := c.headers[h.hash := stored];
      PathStable(c.headers, headers, Last(c.trunk));
      MoveIntended(headers, c.trunk, Last(c.trunk), stored);
    }
  }

  lemma PathStable(headers: HeaderMap, headers': HeaderMap, id: Hash)
    requires Tree(headers) && Tree(headers') && id in headers
    requires forall k :: k in headers ==> k in headers' && headers'[k] == headers[k]
    ensures PathTo(headers', id) == PathTo(headers, id)
  {
    LineageStable(headers, headers', id);
  }

  /** Refinement over all runs: under the intended rule the trunk is always the genesis-to-tip path of the heaviest header. */
  lemma {:induction false} IntendedRun(c: Cache, hs: seq<BlockHeader>)
    requires Sound(c) && NoSecondRoot(c.trunk[0], hs) && c.trunk == PathTo(c.headers, Last(c.trunk))
    ensures var c' := Run(Intended, c, hs);
            Sound(c') && c'.trunk == PathTo(c'.headers, Last(c'.trunk))
    decreases |hs|
  {
    hide AddHeader, Accepts, BlockWork, PathTo;
    if hs != [] {
      SoundStep(Intended, c, hs[0]);
      IntendedStep(c, hs[0]);
      IntendedRun(AddHeader(Intended, c, hs[0]).cache, hs[1..]);
    }
  }

  /** The two rules differ in the trunk only: from agreeing caches they accept the same headers and pick the same tip. */
  lemma {:induction false} RulesAgree(a: Cache, b: Cache, hs: seq<BlockHeader>)
    requires Sound(a) && Sound(b) && a.network == b.network && a.headers == b.headers
    requires a.trunk[0] == b.trunk[0] && Last(a.trunk) == Last(b.trunk)
    requires NoSecondRoot(a.trunk[0], hs)
    ensures var a' := Run(AsWritten, a, hs);
            var b' := Run(Intended, b, hs);
            a'.headers == b'.headers && a'.trunk != [] && b'.trunk != [] && Last(a'.trunk) == Last(b'.trunk)
    decreases |hs|
  {
    hide AddHeader, Accepts, BlockWork;
    if hs != [] {
      var h := hs[0];
      SoundStep(AsWritten, a, h);
      SoundStep(Intended, b, h);
      SameVerdict(a, b, h);
      RulesAgree(AddHeader(AsWritten, a, h).cache, AddHeader(Intended, b, h).cache, hs[1..]);
    }
  }

  lemma SameVerdict(a: Cache, b: Cache, h: BlockHeader)
    requires Sound(a) && Sound(b) && a.network == b.network && a.headers == b.headers
    ensures Accepts(a, h) <==> Accepts(b, h)
  {
    hide RequiredTarget, Target, BlockWork, InRange, Weighed, TipHeaviest;
    if h.hash !in a.headers && h.prev in a.headers {
      hide Accepts;
      ArrivalOrderIndependent(a, b, h);
    }
  }

  /** Where the code as written and the intended rule part ways: exactly on the runs that break the trunk. */
  lemma AsWrittenIsIntendedIff(network: Network, g: BlockHeader, hs: seq<BlockHeader>)
    requires GenesisHeader(g) && NoSecondRoot(g.hash, hs)
    ensures Sound(Start(network, g))
    ensures Run(AsWritten, Start(network, g), hs) == Run(Intended, Start(network, g), hs)
            <==> NeverBreaks(Start(network, g), hs)
  {
    var c := Start(network, g);
    StartSound(Intended, network, g);
    hide AddHeader, NeverBreaks, Run, InRange, Weighed, TipHeaviest, Linked, PathTo;
    LinkedIffPath(c);
    TrunkIsPathIffNeverBreaks(network, g, hs);
    IntendedRun(c, hs);
    RulesAgree(c, c, hs);
    SoundRun(AsWritten, c, hs);
    SoundRun(Intended, c, hs);
  }

  // ----- replaying the reported changes

  /** What the run reports, step by step; a known or rejected header reports nothing. */
  ghost function Reports(rule: Rule, c: Cache, hs: seq<BlockHeader>): (rs: seq<Added>)
    requires WellFormed(c)
    decreases |hs|
  {
    if hs == [] then []
    else
      var o := AddHeader(rule, c, hs[0]);
      AddHeaderWellFormed(rule, c, hs[0]);
      (if o.result.Ok? && o.result.value.Some? then [o.result.value.value] else []) + Reports(rule, o.cache, hs[1..])
  }

  /** A listener's trunk after applying the reports in order, if each one fits. */
  ghost function ReplayAll(trunk: seq<Hash>, rs: seq<Added>): (r: Option<seq<Hash>>)
    decreases |rs|
  {
    if rs == [] then Some(trunk)
    else match Replay(trunk, rs[0])
      case Some(t) => ReplayAll(t, rs[1..])
      case None => None
  }

  /** A listener that applies every report of a run, of the code as written too, ends with the cache's trunk. */
  lemma {:induction false} ReplayRun(rule: Rule, c: Cache, hs: seq<BlockHeader>)
    requires WellFormed(c)
    ensures ReplayAll(c.trunk, Reports(rule, c, hs)) == Some(Run(rule, c, hs).trunk)
    decreases |hs|
  {
    hide AddHeader, Replay;
    if hs != [] {
      var o := AddHeader(rule, c, hs[0]);
      AddHeaderWellFormed(rule, c, hs[0]);
      DeltaReplay(rule, c, hs[0]);
      ReplayRun(rule, o.cache, hs[1..]);
      var rest := Reports(rule, o.cache, hs[1..]);
      if o.result.Ok? && o.result.value.Some? {
        assert ([o.result.value.value] + rest)[1..] == rest;
      } else {
        assert [] + rest == rest;
      }
    }
  }
}
