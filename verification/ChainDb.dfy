/** `ChainDB` as an object: a header cache, the stored headers and the stored tip. */
module ChainDb {
  import opened Wrappers
  import opened HeaderTree
  import opened Consensus
  import T = Trunk
  import Soundness
  import S = ChainStore
  import H = HeaderCache

  class ChainDB {
    const network: Network
    const cache: H.HeaderCache
    var db: HeaderMap
    var tip: Option<Hash>

    ghost function State(): (s: S.Store)
      reads this, cache
    {
      S.Store(cache.State(), db, tip)
    }

    ghost predicate Valid()
      reads this, cache
    {
      cache.Valid() && cache.network == network
    }

    /** Opens a database with the given content; the cache is empty until `InitHeaders`. */
    constructor (network: Network, db: HeaderMap, tip: Option<Hash>)
      ensures Valid() && fresh(cache) && this.network == network
      ensures State() == S.Store(T.Cache(network, map[], []), db, tip)
    {
      this.network := network;
      this.cache := new H.HeaderCache(network);
      this.db := db;
      this.tip := tip;
    }

    /** Loads the stored chain back from its tip, or starts with the genesis header. */
    method InitHeaders(genesis: BlockHeader) returns (r: Result<(), Error>)
      requires Valid() && cache.headers == map[] && cache.trunk == []
      requires Tree(db) && Soundness.GenesisHeader(genesis)
      modifies this, cache
      ensures r == Ok(()) && cache.network == network
      ensures old(tip).Some? ==>
                && db == old(db) && tip == old(tip)
                && cache.State() == S.Loaded(network, db, tip.value)
      ensures old(tip).None? ==>
                && cache.State() == Soundness.Start(network, genesis) && tip == Some(genesis.hash)
                && db == old(db)[genesis.hash := cache.headers[genesis.hash]]
    {
      if tip.Some? {
        LoadFrom(tip.value);
        cache.ReverseTrunk();
      } else {
        Soundness.StartSound(T.AsWritten, network, genesis);
        var added := cache.AddHeader(genesis);
        if added.Err? || added.value.None? {
          return Err(NoTip);
        }
        db := db[genesis.hash := added.value.value.stored];
        tip := Some(genesis.hash);
      }
      r := Ok(());
    }

    /** The backward walk of `InitHeaders`: it visits each ancestor once and ends. */
    method LoadFrom(start: Hash)
      requires Tree(db) && cache.headers == map[] && cache.trunk == []
      modifies cache
      ensures cache.trunk == S.BackWalk(db, start)
      ensures cache.headers == S.Entries(db, S.BackWalk(db, start))
    {
      var h := start;
      var done := false;
      while !done && h in db
        invariant cache.trunk + (if done then [] else S.BackWalk(db, h)) == S.BackWalk(db, start)
        invariant cache.headers == S.Entries(db, cache.trunk)
        decreases !done, if h in db then db[h].height + 1 else 0
      {
        assert Node(db, h);
        var prev := db[h].header.prev;
        assert prev in db ==> Node(db, prev);
        assert cache.trunk + ([h] + S.BackWalk(db, prev)) == cache.trunk + [h] + S.BackWalk(db, prev);
        cache.AddHeaderUnchecked(h, db[h]);
        if prev != NO_HASH {
          h := prev;
        } else {
          done := true;
        }
      }
    }

    /** Adds a header to the cache; what the cache stores is written, with the tip if it moved. */
    method AddHeader(header: BlockHeader) returns (r: T.AddResult)
      requires Valid()
      modifies this, cache
      ensures Valid()
      ensures State() == S.AddStored(old(State()), header).store
      ensures r == S.AddStored(old(State()), header).result
    {
      hide T.AddHeader;
      r := cache.AddHeader(header);
      if r.Ok? && r.value.Some? {
        var added := r.value.value;
        db := db[added.stored.header.hash := added.stored];
        if added.forwards.Some? && |added.forwards.value| > 0 {
          tip := Some(added.forwards.value[|added.forwards.value| - 1]);
        }
      }
    }
  }
}
