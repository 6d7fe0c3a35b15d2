/**
 * When the trunk is the ancestor path of its tip. The code as written keeps it so exactly until
 * the first step that moves the trunk to a header whose parent is not the tip.
 */
module Linkage {
  import opened Wrappers
  import opened Powers
  import opened HeaderTree
  import opened Trunk

  /** Each trunk entry is the parent of the next. */
  ghost predicate Linked(headers: HeaderMap, trunk: seq<Hash>)
    requires Known(headers, trunk)
  {
    forall i :: 0 < i < |trunk| ==> headers[trunk[i]].header.prev == trunk[i - 1]
  }

  /** Only the first trunk entry is without parent. */
  ghost predicate Rooted(c: Cache) {
    c.trunk != [] && forall id :: id in c.headers && c.headers[id].header.prev == NO_HASH ==> id == c.trunk[0]
  }

  lemma {:induction false} LinkedPrefix(c: Cache, k: nat)
    requires WellFormed(c) && Linked(c.headers, c.trunk) && k < |c.trunk|
    ensures c.trunk[..k + 1] == PathTo(c.headers, c.trunk[k])
  {
    var id := c.trunk[k];
    assert Node(c.headers, id);
    var h := c.headers[id].header;
    if k == 0 {
      assert Lineage(c.headers, id) == [h];
      assert c.trunk[..1] == [c.trunk[0]];
    } else {
      assert h.prev == c.trunk[k - 1];
      LinkedPrefix(c, k - 1);
      assert c.trunk[..k + 1] == c.trunk[..k] + [id];
      PathExtends(c.headers, id);
    }
  }

  /** The path to a header is the path to its parent and the header itself. */
  lemma PathExtends(headers: HeaderMap, id: Hash)
    requires Tree(headers) && id in headers && headers[id].header.prev != NO_HASH
    ensures headers[id].header.prev in headers
    ensures PathTo(headers, id) == PathTo(headers, headers[id].header.prev) + [id]
  {
    assert Node(headers, id);
    var chain := Lineage(headers, id);
    assert chain[..|chain| - 1] == Lineage(headers, headers[id].header.prev);
  }

  /** A trunk is linked exactly when it is the genesis-to-tip path of its last entry. */
  lemma LinkedIffPath(c: Cache)
    requires WellFormed(c) && c.trunk != []
    ensures Linked(c.headers, c.trunk) <==> c.trunk == PathTo(c.headers, Last(c.trunk))
  {
    if Linked(c.headers, c.trunk) {
      LinkedPrefix(c, |c.trunk| - 1);
      assert c.trunk[..|c.trunk|] == c.trunk;
    }
    if c.trunk == PathTo(c.headers, Last(c.trunk)) {
      forall i | 0 < i < |c.trunk|
        ensures c.headers[c.trunk[i]].header.prev == c.trunk[i - 1]
      {
        PathLinked(c.headers, Last(c.trunk), i);
      }
    }
  }

  /** On a linked trunk an entry's height is its index, so `pos_on_trunk` and `get_header_for_height` invert each other. */
  lemma HeightIsPosition(c: Cache, i: nat)
    requires WellFormed(c) && Linked(c.headers, c.trunk) && i < |c.trunk|
    ensures c.headers[c.trunk[i]].height == i
    ensures PosOnTrunk(c.trunk, c.trunk[i]) == Some(i)
  {
    LinkedPrefix(c, i);
    var j := PosOnTrunk(c.trunk, c.trunk[i]).value;
    LinkedPrefix(c, j);
  }

  // ----- the code as written

  /**
   * The step moves the trunk to a header that does not extend the tip: a second root, or a header
   * with more work than the tip on another parent. A caller can test this before the call.
   */
  predicate Breaks(c: Cache, h: BlockHeader)
    requires WellFormed(c) && c.trunk != []
  {
    if h.prev == NO_HASH then h.hash !in c.headers && BlockWork(h.bits) < TWO_128
    else Accepts(c, h) && h.prev != Last(c.trunk)
         && c.headers[Last(c.trunk)].work < BlockWork(h.bits) + c.headers[h.prev].work
  }

  /** A header is never its own parent. */
  lemma NotOwnParent(headers: HeaderMap, id: Hash)
    requires Tree(headers) && id in headers
    ensures headers[id].header.prev != id
  {
    assert Node(headers, id);
  }

  /** With known roots on the trunk, walking back from any known header reaches the trunk. */
  lemma {:induction false} ForkWalkSucceeds(headers: HeaderMap, trunk: seq<Hash>, at: Hash)
    requires Tree(headers) && at in headers
    requires forall id :: id in headers && headers[id].header.prev == NO_HASH ==> id in trunk
    ensures ForkWalk(headers, trunk, at).Some?
    decreases headers[at].height
  {
    assert Node(headers, at);
    if at !in trunk {
      ForkWalkSucceeds(headers, trunk, headers[at].header.prev);
    }
  }

  lemma MoveSucceeds(rule: Rule, headers: HeaderMap, trunk: seq<Hash>, tip: CachedHeader)
    requires Tree(headers) && tip.header.prev in headers
    requires forall id :: id in headers && headers[id].header.prev == NO_HASH ==> id in trunk
    ensures MoveTrunk(rule, headers, trunk, tip).Ok?
  {
    ForkWalkSucceeds(headers, trunk, tip.header.prev);
  }

  /** The walk fails exactly when no ancestor is on the trunk. */
  lemma {:induction false} ForkWalkFailsIff(headers: HeaderMap, trunk: seq<Hash>, at: Hash)
    requires Tree(headers) && at in headers
    requires Known(headers, trunk)
    ensures ForkWalk(headers, trunk, at).None? <==> forall i :: 0 <= i < |PathTo(headers, at)| ==> PathTo(headers, at)[i] !in trunk
    decreases headers[at].height
  {
    assert Node(headers, at);
    var prev := headers[at].header.prev;
    var path := PathTo(headers, at);
    assert path[|path| - 1] == at;
    if at !in trunk {
      if prev == NO_HASH {
        assert NO_HASH !in trunk;
      } else {
        PathExtends(headers, at);
        ForkWalkFailsIff(headers, trunk, prev);
      }
    }
  }

  /** Moving to a child of the tip appends it; moving anywhere else leaves a pair that is not parent and child. */
  lemma MoveAsWritten(headers: HeaderMap, trunk: seq<Hash>, tip: CachedHeader)
    requires Tree(headers) && Holds(headers, tip) && trunk != []
    requires Known(headers, trunk)
    ensures var r := MoveTrunk(AsWritten, headers, trunk, tip);
            if tip.header.prev == Last(trunk) then
              r == Ok((trunk + [tip.header.hash], Added(tip, None, Some([tip.header.hash]))))
            else r.Ok? ==>
              Known(headers, r.value.0) && !Linked(headers, r.value.0)
  {
    hide Reverse, PosOnTrunk;
    MoveTrunkShape(AsWritten, headers, trunk, tip);
    var parent := tip.header.prev;
    var r := MoveTrunk(AsWritten, headers, trunk, tip);
    if parent == Last(trunk) {
      assert parent in trunk;
      assert ForkWalk(headers, trunk, parent) == Some([parent]);
      assert [parent][1..] == [] && Reverse([]) + [tip.header.hash] == [tip.header.hash];
    } else if r.Ok? {
      var visited := ForkWalk(headers, trunk, parent).value;
      var fork := Last(visited);
      if fork == parent {
        assert parent in trunk;
        assert r.value.0[|trunk|] == tip.header.hash && r.value.0[|trunk| - 1] == Last(trunk);
      } else {
        var kept := PosOnTrunk(trunk, fork).value + 1;
        assert r.value.0[kept - 1] == fork && r.value.0[kept] == fork;
        NotOwnParent(headers, fork);
      }
    }
  }

  /** Growing the header map does not link or unlink a trunk. */
  lemma LinkedStable(headers: HeaderMap, headers': HeaderMap, trunk: seq<Hash>)
    requires Known(headers, trunk)
    requires forall id :: id in headers ==> id in headers' && headers'[id] == headers[id]
    ensures Linked(headers, trunk) <==> Linked(headers', trunk)
  {
  }

  lemma LinkedAppend(headers: HeaderMap, trunk: seq<Hash>, id: Hash)
    requires trunk != [] && id in headers
    requires Known(headers, trunk)
    ensures Linked(headers, trunk + [id]) <==> Linked(headers, trunk) && headers[id].header.prev == Last(trunk)
  {
    var longer := trunk + [id];
    assert longer[|trunk|] == id && longer[|trunk| - 1] == Last(trunk);
    if Linked(headers, longer) {
      forall i | 0 < i < |trunk|
        ensures headers[trunk[i]].header.prev == trunk[i - 1]
      {
        assert longer[i] == trunk[i] && longer[i - 1] == trunk[i - 1];
      }
    }
  }

  /**
   * One step of the code as written. A trunk that is not linked never becomes linked again, and a
   * linked one stays linked exactly when the step does not break it. With a single root, that is an
   * equivalence for every header.
   */
  lemma LinkedStep(c: Cache, h: BlockHeader)
    requires WellFormed(c) && c.trunk != []
    ensures var c' := AddHeader(AsWritten, c, h).cache;
            && WellFormed(c') && c'.trunk != []
            && (Linked(c'.headers, c'.trunk) ==> Linked(c.headers, c.trunk))
            && (Linked(c.headers, c.trunk) && !Breaks(c, h) ==> Linked(c'.headers, c'.trunk))
            && (Rooted(c) && Breaks(c, h) ==> !Linked(c'.headers, c'.trunk))
  {
    hide Accepts, BlockWork, MoveTrunk, Linked;
    AddHeaderWellFormed(AsWritten, c, h);
    if h.hash !in c.headers && h.prev == NO_HASH {
      if BlockWork(h.bits) < TWO_128 {
        var headers := c.headers[h.hash := CachedHeader(h, 0, BlockWork(h.bits))];
        LinkedStable(c.headers, headers, c.trunk);
        LinkedAppend(headers, c.trunk, h.hash);
      }
    } else {
      hide AddHeader;
      AddUnfolds(AsWritten, c, h);
      if Accepts(c, h) {
        LinkedAttach(c, StoredAs(c.headers, h));
      }
    }
  }

  /** Storing a child of a known header keeps a linked trunk linked exactly when the trunk stays or the tip is extended. */
  lemma LinkedAttach(c: Cache, stored: CachedHeader)
    requires WellFormed(c) && c.trunk != []
    requires stored.header.hash !in c.headers && stored.header.prev in c.headers
    requires Tree(c.headers[stored.header.hash := stored])
    requires WellFormed(Attach(AsWritten, c, stored).cache)
    ensures var c' := Attach(AsWritten, c, stored).cache;
            var moves := c.headers[Last(c.trunk)].work < stored.work && stored.header.prev != Last(c.trunk);
            && c'.trunk != []
            && (Linked(c'.headers, c'.trunk) ==> Linked(c.headers, c.trunk))
            && (Linked(c.headers, c.trunk) && !moves ==> Linked(c'.headers, c'.trunk))
            && (Rooted(c) && moves ==> !Linked(c'.headers, c'.trunk))
  {
    hide Linked, MoveTrunk;
    var headers := c.headers[stored.header.hash := stored];
    LinkedStable(c.headers, headers, c.trunk);
    if headers[Last(c.trunk)].work < stored.work {
      MoveAsWritten(headers, c.trunk, stored);
      LinkedAppend(headers, c.trunk, stored.header.hash);
      if Rooted(c) && stored.header.prev != Last(c.trunk) {
        MoveSucceeds(AsWritten, headers, c.trunk, stored);
      }
    }
  }
}
