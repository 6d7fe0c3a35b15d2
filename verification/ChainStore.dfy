/**
 * The header cache beside its database, on values: every offered header, and every restart that
 * rebuilds the cache from what was stored. The database is a map from hash to stored header and a
 * cell for the tip; its operations succeed.
 */
module ChainStore {
  import opened Wrappers
  import opened Powers
  import opened Compact
  import opened HeaderTree
  import opened Consensus
  import opened Trunk
  import opened Linkage
  import opened Soundness
  import opened Runs

  datatype Store = Store(cache: Cache, db: HeaderMap, tip: Option<Hash>)

  datatype StoreOutcome = StoreOutcome(store: Store, result: AddResult)

  /** `ChainDB::add_header`: what the cache stores goes to the database, and the last forwarded hash becomes the stored tip. */
  function AddStored(s: Store, h: BlockHeader): (o: StoreOutcome)
    requires WellFormed(s.cache)
  {
    var o := AddHeader(AsWritten, s.cache, h);
    if o.result.Ok? && o.result.value.Some? then
      var added := o.result.value.value;
      var db := s.db[added.stored.header.hash := added.stored];
      var tip := if added.forwards.Some? && added.forwards.value != [] then Some(Last(added.forwards.value)) else s.tip;
      StoreOutcome(Store(o.cache, db, tip), o.result)
    else
      StoreOutcome(s.(cache := o.cache), o.result)
  }

  /** The hashes read from the database, from one hash back to a root or to a gap. */
  function BackWalk(db: HeaderMap, id: Hash): (ids: seq<Hash>)
    requires Tree(db)
    decreases if id in db then db[id].height + 1 else 0
  {
    if id !in db then []
    else
      assert Node(db, id);
      assert db[id].header.prev in db ==> Node(db, db[id].header.prev);
      if db[id].header.prev == NO_HASH then [id] else [id] + BackWalk(db, db[id].header.prev)
  }

  function Entries(db: HeaderMap, ids: seq<Hash>): (m: HeaderMap)
  {
    map id | id in ids && id in db :: db[id]
  }

  /** The cache that `init_headers` builds from a stored tip. */
  function Loaded(network: Network, db: HeaderMap, tip: Hash): (c: Cache)
    requires Tree(db)
  {
    var ids := BackWalk(db, tip);
    Cache(network, Entries(db, ids), Reverse(ids))
  }

  function Restarted(s: Store): (s': Store)
    requires Tree(s.db) && s.tip.Some?
  {
    s.(cache := Loaded(s.cache.network, s.db, s.tip.value))
  }

  /** The store after the first start, with the genesis header only. */
  function FirstStart(network: Network, g: BlockHeader): (s: Store)
  {
    var c := Start(network, g);
    Store(c, c.headers, Some(g.hash))
  }

  // ----- the restart

  /** Reading back from a stored header visits exactly its path to the root, tip first. */
  lemma {:induction false} BackWalkIsPath(db: HeaderMap, id: Hash)
    requires Tree(db) && id in db
    ensures Reverse(BackWalk(db, id)) == PathTo(db, id)
    decreases db[id].height
  {
    hide PathTo;
    assert Node(db, id);
    var prev := db[id].header.prev;
    if prev == NO_HASH {
      RootPath(db, id);
    } else {
      BackWalkIsPath(db, prev);
      PathExtends(db, id);
      assert ([id] + BackWalk(db, prev))[1..] == BackWalk(db, prev);
    }
  }

  lemma RootPath(db: HeaderMap, id: Hash)
    requires Tree(db) && id in db && db[id].header.prev == NO_HASH
    ensures PathTo(db, id) == [id] && Reverse([id]) == [id]
  {
    assert Node(db, id);
    assert Lineage(db, id) == [db[id].header];
  }

  /** The loaded headers are exactly those on the path, and they form a tree. */
  lemma LoadedTree(db: HeaderMap, tip: Hash)
    requires Tree(db) && tip in db
    ensures var c := Loaded(Bitcoin, db, tip);
            && Tree(c.headers) && tip in c.headers
            && (forall id :: id in c.headers <==> id in PathTo(db, tip))
            && (forall id :: id in c.headers ==> id in db && c.headers[id] == db[id])
  {
    hide PathTo;
    BackWalkIsPath(db, tip);
    var ids := BackWalk(db, tip);
    var path := PathTo(db, tip);
    var headers := Entries(db, ids);
    forall id
      ensures id in headers <==> id in path
    {
      ReverseMembers(ids, id);
      if id in path {
        var i :| 0 <= i < |path| && path[i] == id;
        PathLinked(db, tip, i);
      }
    }
    assert path[|path| - 1] == tip;
    forall id | id in headers
      ensures Node(headers, id)
    {
      var i :| 0 <= i < |path| && path[i] == id;
      PathLinked(db, tip, i);
      assert Node(db, id);
      assert i > 0 ==> path[i - 1] in path;
    }
  }

  lemma ReverseMembers(s: seq<Hash>, id: Hash)
    ensures id in s <==> id in Reverse(s)
  {
    if id in s {
      var i :| 0 <= i < |s| && s[i] == id;
      assert Reverse(s)[|s| - 1 - i] == id;
    }
  }

  ghost predicate Backs(db: HeaderMap, headers: HeaderMap) {
    forall id :: id in headers ==> id in db && db[id] == headers[id]
  }

  ghost predicate Heaviest(db: HeaderMap, tip: Hash) {
    tip in db && forall id :: id in db ==> db[id].work <= db[tip].work
  }

  ghost predicate SingleRoot(db: HeaderMap, root: Hash) {
    forall id :: id in db && db[id].header.prev == NO_HASH ==> id == root
  }

  /** The state the node keeps across steps and restarts: the stored tip is the cache's tip and the heaviest header stored. */
  ghost predicate Persisted(s: Store) {
    && Sound(s.cache)
    && Tree(s.db) && Weighed(s.db) && InRange(s.db)
    && Backs(s.db, s.cache.headers)
    && s.tip == Some(Last(s.cache.trunk))
    && Heaviest(s.db, s.tip.value)
    && SingleRoot(s.db, s.cache.trunk[0])
  }

  lemma FirstStartPersisted(network: Network, g: BlockHeader)
    requires GenesisHeader(g)
    ensures Persisted(FirstStart(network, g))
  {
    hide Target, BlockWork;
    StartSound(AsWritten, network, g);
  }

  /**
   * Restart round trip: from the stored tip the cache is rebuilt with the genesis-to-tip path of
   * the heaviest stored header as its trunk, whatever the trunk was before the restart.
   */
  lemma RestartRoundTrip(s: Store)
    requires Persisted(s)
    ensures var s' := Restarted(s);
            && Persisted(s') && s'.db == s.db && s'.tip == s.tip
            && Last(s'.cache.trunk) == Last(s.cache.trunk) && s'.cache.trunk[0] == s.cache.trunk[0]
            && s'.cache.trunk == PathTo(s.db, s.tip.value)
            && s'.cache.trunk == PathTo(s'.cache.headers, s.tip.value)
            && (forall id :: id in s'.cache.headers <==> id in s'.cache.trunk)
  {
    hide InRange, Weighed, PathTo, Tree, BackWalk, Entries;
    var tip := s.tip.value;
    LoadedTree(s.db, tip);
    BackWalkIsPath(s.db, tip);
    var c := Restarted(s).cache;
    assert c.trunk == PathTo(s.db, tip);
    LoadedSound(s.db, tip, s.cache.trunk[0], c);
  }

  lemma LoadedSound(db: HeaderMap, tip: Hash, root: Hash, c: Cache)
    requires Tree(db) && Weighed(db) && InRange(db) && Heaviest(db, tip) && SingleRoot(db, root)
    requires c.trunk == PathTo(db, tip) && Tree(c.headers) && Backs(db, c.headers)
    requires forall id :: id in c.headers <==> id in PathTo(db, tip)
    ensures Sound(c) && c.trunk[0] == root && Last(c.trunk) == tip && c.trunk == PathTo(c.headers, tip)
  {
    hide InRange, Weighed, PathTo, BlockWork, Tree;
    LoadedWellFormed(db, tip, c);
    PathStable(c.headers, db, tip);
    RestrictedRanges(db, c.headers);
  }

  lemma LoadedWellFormed(db: HeaderMap, tip: Hash, c: Cache)
    requires Tree(db) && tip in db && Tree(c.headers) && Backs(db, c.headers)
    requires c.trunk == PathTo(db, tip)
    requires forall id :: id in c.headers <==> id in PathTo(db, tip)
    ensures WellFormed(c) && c.trunk != [] && Last(c.trunk) == tip
  {
    hide PathTo, Tree;
    PathLinked(db, tip, 0);
    assert c.trunk[0] in PathTo(db, tip);
    assert Known(c.headers, c.trunk) by {
      forall i | 0 <= i < |c.trunk|
        ensures c.trunk[i] in c.headers
      {
        assert c.trunk[i] in PathTo(db, tip);
      }
    }
  }

  lemma RestrictedRanges(db: HeaderMap, headers: HeaderMap)
    requires Tree(db) && Weighed(db) && InRange(db) && Tree(headers)
    requires forall id :: id in headers ==> id in db && headers[id] == db[id]
    ensures Weighed(headers) && InRange(headers)
  {
    forall id | id in headers
      ensures Weighs(headers, id)
    {
      assert Node(headers, id) && Node(db, id) && Weighs(db, id);
    }
    forall id | id in headers
      ensures Fits(headers, id)
    {
      assert Fits(db, id);
    }
  }

  // ----- one offered header

  /** The reported forwards: absent unless the tip moves, and then ending in the new tip. */
  lemma ForwardsEndAtTip(c: Cache, h: BlockHeader)
    requires Sound(c) && Accepts(c, h)
    ensures var o := AddHeader(AsWritten, c, h);
            && o.result.Ok? && o.result.value.Some?
            && var f := o.result.value.value.forwards;
               if c.headers[Last(c.trunk)].work < StoredAs(c.headers, h).work
               then f.Some? && f.value != [] && Last(f.value) == h.hash
               else f == None
  {
    StoredShape(c, h);
    hide AddHeader, Accepts, BlockWork, InRange, Weighed, MoveTrunk;
    SoundStep(AsWritten, c, h);
    AddUnfolds(AsWritten, c, h);
    var stored := StoredAs(c.headers, h);
    MoveTrunkStored(AsWritten, c.headers[h.hash := stored], c.trunk, stored);
  }

  /** A header that the database knows and the cache does not would be stored again unchanged. */
  lemma StoredAgain(s: Store, h: BlockHeader)
    requires Persisted(s) && Accepts(s.cache, h)
    requires h.hash in s.db && s.db[h.hash].header == h
    ensures s.db[h.hash] == StoredAs(s.cache.headers, h)
  {
    hide BlockWork, InRange, RequiredTarget, Target;
    assert Node(s.db, h.hash) && Weighs(s.db, h.hash);
  }

  /** Offering a header keeps cache, database and stored tip in step. */
  lemma PersistedStep(s: Store, h: BlockHeader)
    requires Persisted(s)
    requires h.prev != NO_HASH || h.hash in s.cache.headers
    requires h.hash in s.db ==> s.db[h.hash].header == h
    ensures var s' := AddStored(s, h).store;
            && Persisted(s') && s'.cache == AddHeader(AsWritten, s.cache, h).cache
            && s'.cache.trunk[0] == s.cache.trunk[0]
            && (forall id :: id in s.db ==> id in s'.db && s'.db[id] == s.db[id])
            && (forall id :: id in s'.db && id !in s.db ==> id == h.hash && s'.db[id].header == h)
  {
    hide AddHeader, Accepts, BlockWork, InRange, Weighed, StoredAs, Tree;
    SoundStep(AsWritten, s.cache, h);
    if Accepts(s.cache, h) {
      ForwardsEndAtTip(s.cache, h);
      StoredShape(s.cache, h);
      StoreStays(s, AddStored(s, h).store, h, StoredAs(s.cache.headers, h));
    }
  }

  /** Writing the stored form of an accepted header keeps every clause about the database. */
  lemma StoreStays(s: Store, s': Store, h: BlockHeader, stored: CachedHeader)
    requires Persisted(s) && Accepts(s.cache, h) && stored == StoredAs(s.cache.headers, h)
    requires h.hash !in s.cache.headers && h.prev in s.cache.headers && h.prev != NO_HASH
    requires h.hash in s.db ==> s.db[h.hash].header == h
    requires Sound(s'.cache) && s'.cache.trunk[0] == s.cache.trunk[0]
    requires s'.cache.headers == s.cache.headers[h.hash := stored]
    requires s'.db == s.db[h.hash := stored]
    requires if s.cache.headers[Last(s.cache.trunk)].work < stored.work
             then Last(s'.cache.trunk) == h.hash && s'.tip == Some(h.hash)
             else Last(s'.cache.trunk) == Last(s.cache.trunk) && s'.tip == s.tip
    ensures Persisted(s')
    ensures forall id :: id in s.db ==> id in s'.db && s'.db[id] == s.db[id]
  {
    hide Accepts, BlockWork, Tree, Weighed, InRange, StoredAs, TipHeaviest;
    StoredShape(s.cache, h);
    if h.hash in s.db {
      StoredAgain(s, h);
      assert s'.db == s.db;
    } else {
      InsertKeepsTree(s.db, stored);
      InsertKeepsRanges(s.db, stored);
    }
  }

  lemma StoredShape(c: Cache, h: BlockHeader)
    requires Sound(c) && Accepts(c, h)
    ensures h.hash !in c.headers && h.prev in c.headers && h.prev != NO_HASH
    ensures StoredAs(c.headers, h).header == h
    ensures StoredAs(c.headers, h).height == c.headers[h.prev].height + 1
    ensures StoredAs(c.headers, h).work == c.headers[h.prev].work + BlockWork(h.bits)
    ensures Admissible(Target(h.bits)) && StoredAs(c.headers, h).work < TWO_128
  {
    hide RequiredTarget, Target, BlockWork;
    AcceptKeepsRanges(c, h, StoredAs(c.headers, h));
  }

  lemma InsertKeepsRanges(db: HeaderMap, stored: CachedHeader)
    requires Tree(db) && Weighed(db) && InRange(db) && stored.header.hash !in db
    requires stored.header.prev in db
    requires stored.work == db[stored.header.prev].work + BlockWork(stored.header.bits)
    requires Admissible(Target(stored.header.bits)) && stored.work < TWO_128
    ensures Weighed(db[stored.header.hash := stored]) && InRange(db[stored.header.hash := stored])
  {
    hide BlockWork, Target;
    var db' := db[stored.header.hash := stored];
    forall id | id in db'
      ensures Weighs(db', id)
    {
      if id != stored.header.hash {
        assert Node(db, id) && Weighs(db, id);
      }
    }
    forall id | id in db'
      ensures Fits(db', id)
    {
      assert id != stored.header.hash ==> Fits(db, id);
    }
  }

  // ----- whole lives: offers and restarts in any order

  datatype Event = Offer(header: BlockHeader) | Restart

  ghost function OfferedIn(events: seq<Event>): (hs: set<BlockHeader>)
  {
    set e | e in events && e.Offer? :: e.header
  }

  /** A hash stands for one header over the whole life, and only the genesis header has no parent. */
  ghost predicate Consistent(s: Store, events: seq<Event>)
    requires Persisted(s)
  {
    && Unambiguous(Held(s.db) + OfferedIn(events))
    && forall h :: h in OfferedIn(events) ==> h.prev != NO_HASH || h.hash == s.cache.trunk[0]
  }

  ghost function StoreStep(s: Store, e: Event): (s': Store)
    requires Persisted(s)
  {
    match e
    case Offer(h) => AddStored(s, h).store
    case Restart => Restarted(s)
  }

  /**
   * The state after any sequence of offered headers and restarts. In every such state the stored
   * tip is the cache's tip, and no header ever stored, in the cache or only in the database, has more work.
   */
  ghost function Life(s: Store, events: seq<Event>): (s': Store)
    requires Persisted(s) && Consistent(s, events)
    ensures Persisted(s') && s'.cache.trunk[0] == s.cache.trunk[0]
    decreases |events|
  {
    if events == [] then s
    else
      LifeStep(s, events);
      Life(StoreStep(s, events[0]), events[1..])
  }

  lemma LifeStep(s: Store, events: seq<Event>)
    requires Persisted(s) && events != [] && Consistent(s, events)
    ensures var s' := StoreStep(s, events[0]);
            Persisted(s') && s'.cache.trunk[0] == s.cache.trunk[0] && Consistent(s', events[1..])
  {
    hide AddStored, Restarted, Sound, Tree, Weighed, InRange, Heaviest, SingleRoot, Backs, Unambiguous;
    match events[0]
    case Offer(h) =>
      RootKnown(s);
      assert events[0] in events && h in OfferedIn(events);
      NotAmbiguous(s, events, h);
      PersistedStep(s, h);
      StaysConsistent(s, AddStored(s, h).store, events);
    case Restart =>
      RestartRoundTrip(s);
      StaysConsistent(s, Restarted(s), events);
  }

  lemma NotAmbiguous(s: Store, events: seq<Event>, h: BlockHeader)
    requires Persisted(s) && Consistent(s, events) && h in OfferedIn(events)
    ensures h.hash in s.db ==> s.db[h.hash].header == h
  {
    hide Weighed, InRange;
    if h.hash in s.db {
      assert Node(s.db, h.hash) && s.db[h.hash].header in Held(s.db);
    }
  }

  lemma StaysConsistent(s: Store, s': Store, events: seq<Event>)
    requires Persisted(s) && Persisted(s') && events != [] && Consistent(s, events)
    requires s'.cache.trunk[0] == s.cache.trunk[0]
    requires forall id :: id in s'.db ==> s'.db[id].header in Held(s.db) + OfferedIn(events)
    ensures Consistent(s', events[1..])
  {
    hide Persisted;
    assert Held(s'.db) + OfferedIn(events[1..]) <= Held(s.db) + OfferedIn(events);
  }

  lemma RootKnown(s: Store)
    requires Persisted(s)
    ensures WellFormed(s.cache) && s.cache.trunk != [] && s.cache.trunk[0] in s.cache.headers
  {
  }

  /**
   * Whatever happened before, a restart repairs the trunk: afterwards it is the path of the
   * heaviest header, and it stays the path of its tip exactly until the next step that breaks it.
   */
  lemma RestartRepairs(s: Store, before: seq<Event>, hs: seq<BlockHeader>)
    requires Persisted(s) && Consistent(s, before)
    ensures var c := Restarted(Life(s, before)).cache;
            && WellFormed(c) && c.trunk != []
            && var c' := Run(AsWritten, c, hs);
               c'.trunk != [] && (c'.trunk == PathTo(c'.headers, Last(c'.trunk)) <==> NeverBreaks(c, hs))
  {
    hide Life, Restarted, NeverBreaks, Run, PathTo, Linked, Tree, Weighed, InRange, Heaviest, SingleRoot, Backs, TipHeaviest;
    var t := Life(s, before);
    RestartRoundTrip(t);
    var c := Restarted(t).cache;
    LinkedIffPath(c);
    LinkedIffNeverBreaks(c, hs);
    LinkedIffPath(Run(AsWritten, c, hs));
  }
}
