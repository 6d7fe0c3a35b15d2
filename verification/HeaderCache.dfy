/** `HeaderCache` as an object with its loops, proved against the steps on values of module `Trunk`. */
module HeaderCache {
  import opened Wrappers
  import opened Powers
  import opened Compact
  import opened HeaderTree
  import opened Consensus
  import T = Trunk
  import L = Locator

  /** One turn of the fork walk: one more hash behind, the parent next. */
  lemma WalkStep(headers: HeaderMap, trunk: seq<Hash>, at: Hash, before: seq<Hash>)
    requires Tree(headers) && at in headers && at !in trunk
    ensures var prev := headers[at].header.prev;
            var here := T.ForkWalk(headers, trunk, at);
            var rest := T.ForkWalk(headers, trunk, prev);
            && (prev in headers ==> headers[prev].height < headers[at].height)
            && here.Some? == rest.Some?
            && (rest.Some? ==> before + here.value == before + [at] + rest.value)
            && (before + [at] + [prev])[1..] == (before + [at])[1..] + [prev]
  {
    assert Node(headers, at);
    var prev := headers[at].header.prev;
    assert prev in headers ==> Node(headers, prev);
    var rest := T.ForkWalk(headers, trunk, prev);
    assert rest.Some? ==> before + ([at] + rest.value) == before + [at] + rest.value;
  }

  class HeaderCache {
    const network: Network
    var headers: HeaderMap
    var trunk: seq<Hash>

    ghost function State(): (c: T.Cache)
      reads this
    {
      T.Cache(network, headers, trunk)
    }

    ghost predicate Valid()
      reads this
    {
      T.WellFormed(State())
    }

    constructor (network: Network)
      ensures Valid() && State() == T.Cache(network, map[], [])
    {
      this.network := network;
      headers := map[];
      trunk := [];
    }

    /** Position on the trunk, searching from the tip. */
    method PosOnTrunk(hash: Hash) returns (r: Option<nat>)
      ensures r == T.PosOnTrunk(trunk, hash)
    {
      hide T.PosOnTrunk;
      var i := |trunk|;
      assert trunk[..|trunk|] == trunk;
      while i > 0
        invariant 0 <= i <= |trunk|
        invariant T.PosOnTrunk(trunk, hash) == T.PosOnTrunk(trunk[..i], hash)
      {
        i := i - 1;
        T.PosUnfolds(trunk, i, hash);
        if trunk[i] == hash {
          return Some(i);
        }
      }
      r := None;
    }

    method Tip() returns (r: Option<CachedHeader>)
      ensures r == if trunk == [] || T.Last(trunk) !in headers then None else Some(headers[T.Last(trunk)])
    {
      if trunk == [] || trunk[|trunk| - 1] !in headers {
        return None;
      }
      r := Some(headers[trunk[|trunk| - 1]]);
    }

    method GetHeaderForHeight(height: nat) returns (r: Option<CachedHeader>)
      requires Valid()
      ensures r == if height < |trunk| then Some(headers[trunk[height]]) else None
    {
      if height < |trunk| {
        r := Some(headers[trunk[height]]);
      } else {
        r := None;
      }
    }

    /** The required target, with the backward scans as loops. */
    method RequiredWork(prev: CachedHeader, next: BlockHeader) returns (r: Result<nat, Error>)
      requires Valid() && Holds(headers, prev)
      ensures r == RequiredTarget(network, headers, trunk, prev, next)
    {
      if (prev.height + 1) % DIFFCHANGE_INTERVAL == 0 {
        var scan := prev;
        if trunk != [] && trunk[|trunk| - 1] == prev.header.prev {
          if |trunk| < DIFFCHANGE_INTERVAL + 2 {
            return Err(Aborted);
          }
          scan := headers[trunk[|trunk| - DIFFCHANGE_INTERVAL - 2]];
        } else {
          var first := WalkBack(prev, DIFFCHANGE_INTERVAL - 1);
          if first.None? {
            return Err(UnconnectedHeader);
          }
          scan := first.value;
        }
        r := Retarget(Target(prev.header.bits), Timespan(prev.header.time, scan.header.time));
      } else if network == Testnet && LongGap(prev.header.time, next.time) {
        r := Ok(MAX_TARGET);
      } else if network == Testnet {
        var scan := TestnetWalk(prev);
        r := if scan.Some? then Ok(Target(scan.value.header.bits)) else Err(UnconnectedHeader);
      } else {
        r := Ok(Target(prev.header.bits));
      }
    }

    method WalkBack(prev: CachedHeader, n: nat) returns (r: Option<CachedHeader>)
      ensures r == ScanBack(headers, prev, n)
    {
      var scan := prev;
      for i := 0 to n
        invariant ScanBack(headers, prev, n) == ScanBack(headers, scan, n - i)
      {
        if scan.header.prev in headers {
          scan := headers[scan.header.prev];
        } else {
          return None;
        }
      }
      r := Some(scan);
    }

    method TestnetWalk(prev: CachedHeader) returns (r: Option<CachedHeader>)
      requires Valid() && Holds(headers, prev)
      ensures r == TestnetScan(headers, prev)
    {
      var scan := prev;
      assert Node(headers, scan.header.hash);
      while KeepsScanning(scan)
        invariant Holds(headers, scan) && Node(headers, scan.header.hash)
        invariant TestnetScan(headers, prev) == TestnetScan(headers, scan)
        decreases scan.height
      {
        if scan.header.prev in headers {
          assert Node(headers, scan.header.prev);
          scan := headers[scan.header.prev];
        } else {
          return None;
        }
      }
      r := Some(scan);
    }

    /** The walk back to the fork point: where it ends and what it pushed on the way. */
    method WalkToFork(start: Hash) returns (r: Option<(Hash, seq<Hash>)>)
      requires Tree(headers)
      ensures match T.ForkWalk(headers, trunk, start)
              case Some(visited) => r == Some((T.Last(visited), visited[1..]))
              case None => r == None
    {
      var forksAt := start;
      var path := [];
      ghost var before: seq<Hash> := [];
      var pos := PosOnTrunk(forksAt);
      ghost var whole := T.ForkWalk(headers, trunk, start);
      assert whole.Some? ==> before + whole.value == whole.value;
      while pos.None?
        invariant pos == T.PosOnTrunk(trunk, forksAt)
        invariant path == (before + [forksAt])[1..]
        invariant var rest := T.ForkWalk(headers, trunk, forksAt);
                  whole == if rest.Some? then Some(before + rest.value) else None
        decreases if forksAt in headers then headers[forksAt].height + 1 else 0
      {
        if forksAt !in headers {
          return None;
        }
        WalkStep(headers, trunk, forksAt, before);
        before := before + [forksAt];
        forksAt := headers[forksAt].header.prev;
        path := path + [forksAt];
        pos := PosOnTrunk(forksAt);
      }
      assert whole == Some(before + [forksAt]);
      r := Some((forksAt, path));
    }

    /** Adds a header whose parent is known. */
    method AddHeaderToTree(prev: CachedHeader, next: BlockHeader) returns (r: T.AddResult)
      requires Valid() && Holds(headers, prev) && next.prev == prev.header.hash
      requires next.hash !in headers
      modifies this
      ensures Valid()
      ensures State() == T.AddHeader(T.AsWritten, old(State()), next).cache
      ensures r == T.AddHeader(T.AsWritten, old(State()), next).result
    {
      hide T.Validate, T.Attach;
      ghost var c := State();
      T.AddHeaderWellFormed(T.AsWritten, c, next);
      T.ValidateStores(c, prev, next);
      var checked := Check(prev, next);
      if checked.Err? {
        return Err(checked.error);
      }
      InsertKeepsTree(headers, checked.value);
      r := Attach(checked.value);
    }

    /** The required target, the total-work assertion and the proof of work. */
    method Check(prev: CachedHeader, next: BlockHeader) returns (r: Result<CachedHeader, Error>)
      requires Valid() && Holds(headers, prev)
      ensures r == T.Validate(State(), prev, next)
    {
      hide RequiredTarget, Target, BlockWork;
      var required := RequiredWork(prev, next);
      if required.Err? {
        return Err(required.error);
      }
      var work := BlockWork(next.bits) + prev.work;
      if work >= TWO_128 {
        return Err(Aborted);
      }
      if Target(next.bits) != required.value || next.hash > Target(next.bits) {
        return Err(SpvBadProofOfWork);
      }
      r := Ok(CachedHeader(next, prev.height + 1, work));
    }

    /** Stores a header and moves the trunk to it if it has more work than the tip. */
    method Attach(cached: CachedHeader) returns (r: T.AddResult)
      requires Tree(headers[cached.header.hash := cached])
      modifies this
      ensures State() == T.Attach(T.AsWritten, old(State()), cached).cache
      ensures r == T.Attach(T.AsWritten, old(State()), cached).result
    {
      headers := headers[cached.header.hash := cached];
      var tip := Tip();
      if tip.None? {
        return Err(NoTip);
      }
      if tip.value.work >= cached.work {
        return Ok(Some(T.Added(cached, None, None)));
      }
      var walk := WalkToFork(cached.header.prev);
      if walk.None? {
        return Err(UnconnectedHeader);
      }
      var forksAt := walk.value.0;
      var path := T.Reverse(walk.value.1) + [cached.header.hash];
      if forksAt != cached.header.prev {
        var pos := PosOnTrunk(forksAt);
        assert pos.Some?;
        var unwinds := T.Reverse(trunk[pos.value + 1..]);
        trunk := trunk[..pos.value + 1] + path;
        r := Ok(Some(T.Added(cached, Some(unwinds), Some(path))));
      } else {
        trunk := trunk + path;
        r := Ok(Some(T.Added(cached, None, Some(path))));
      }
    }

    method AddHeader(header: BlockHeader) returns (r: T.AddResult)
      requires Valid()
      modifies this
      ensures Valid()
      ensures State() == T.AddHeader(T.AsWritten, old(State()), header).cache
      ensures r == T.AddHeader(T.AsWritten, old(State()), header).result
    {
      hide BlockWork;
      T.AddHeaderWellFormed(T.AsWritten, State(), header);
      if header.hash in headers {
        return Ok(None);
      }
      if header.prev != NO_HASH {
        if header.prev !in headers {
          return Err(UnconnectedHeader);
        }
        assert Node(headers, header.prev);
        r := AddHeaderToTree(headers[header.prev], header);
      } else {
        if BlockWork(header.bits) >= TWO_128 {
          return Err(Aborted);
        }
        var stored := CachedHeader(header, 0, BlockWork(header.bits));
        trunk := trunk + [header.hash];
        headers := headers[header.hash := stored];
        r := Ok(Some(T.Added(stored, None, Some([header.hash]))));
      }
    }

    /** Used while loading from the database: no check, and the trunk grows backwards. */
    method AddHeaderUnchecked(id: Hash, stored: CachedHeader)
      modifies this
      ensures headers == old(headers)[id := stored] && trunk == old(trunk) + [id]
    {
      headers := headers[id := stored];
      trunk := trunk + [id];
    }

    method ReverseTrunk()
      modifies this
      ensures headers == old(headers) && trunk == T.Reverse(old(trunk))
    {
      trunk := T.Reverse(trunk);
    }

    /**
     * The locator names exactly the trunk entries at the distances `Offset(0), Offset(1), ...` from
     * the tip, as far as the trunk goes; beyond ten, their number is logarithmic in the length of the
     * trunk. The doubling counter stays below 2^31 for trunks shorter than 2^30.
     */
    method LocatorHashes() returns (locator: seq<Hash>)
      ensures forall i :: 0 <= i < |locator| ==>
                L.Offset(i) < |trunk| && locator[i] == trunk[|trunk| - 1 - L.Offset(i)]
      ensures |trunk| <= L.Offset(|locator|)
      ensures |locator| > 10 ==> Pow2(|locator| - 11) + 9 < |trunk|
      ensures locator == L.Entries(trunk, 0)
    {
      locator := [];
      var skip := 1;
      var count := 0;
      var s := 0;
      for d := 0 to |trunk|
        invariant count == |locator| && s >= 0
        invariant d + s == L.Offset(count)
        invariant skip == if count <= 10 then 1 else Pow2(count - 10)
        invariant forall i :: 0 <= i < |locator| ==>
                    L.Offset(i) < d && locator[i] == trunk[|trunk| - 1 - L.Offset(i)]
        invariant |trunk| < 0x4000_0000 ==> skip < 0x8000_0000
      {
        if s == 0 {
          L.OffsetStep(count);
          locator := locator + [trunk[|trunk| - 1 - d]];
          count := count + 1;
          s := skip;
          if count > 10 {
            skip := skip * 2;
          }
        }
        s := s - 1;
      }
      assert |locator| > 0 ==> L.Offset(|locator| - 1) < |trunk|;
      L.NamesIff(trunk, locator);
    }
  }
}
