/**
 * Adding a header: `HeaderCache::add_header` and `add_header_to_tree` as a step on values.
 *
 * The trunk is meant to be the chain with most work from genesis to tip. The source's
 * re-organisation does not always leave it so, and `Rule` names the two ways to move the trunk:
 * `AsWritten` is what the code does, `Intended` pushes a hash before stepping to its parent and
 * always cuts the trunk at the fork. Everything else in a step is common to both.
 */
module Trunk {
  import opened Wrappers
  import opened Powers
  import opened Compact
  import opened HeaderTree
  import opened Consensus

  datatype Rule = AsWritten | Intended

  datatype Cache = Cache(network: Network, headers: HeaderMap, trunk: seq<Hash>)

  /** What `add_header` reports: the stored header, hashes taken off the trunk, hashes put on it. */
  datatype Added = Added(stored: CachedHeader, unwinds: Option<seq<Hash>>, forwards: Option<seq<Hash>>)

  type AddResult = Result<Option<Added>, Error>

  datatype Outcome = Outcome(cache: Cache, result: AddResult)

  ghost predicate Known(headers: HeaderMap, ids: seq<Hash>) {
    forall i :: 0 <= i < |ids| ==> ids[i] in headers
  }

  /** Every trunk hash is known, the trunk starts at a root, and only an empty cache has no trunk. */
  ghost predicate WellFormed(c: Cache) {
    && Tree(c.headers)
    && (c.trunk == [] <==> c.headers == map[])
    && Known(c.headers, c.trunk)
    && (c.trunk != [] ==> c.headers[c.trunk[0]].header.prev == NO_HASH)
  }

  function Last(s: seq<Hash>): (h: Hash)
    requires s != []
  {
    s[|s| - 1]
  }

  function Reverse(s: seq<Hash>): (r: seq<Hash>)
    ensures |r| == |s|
    ensures forall i :: 0 <= i < |s| ==> r[i] == s[|s| - 1 - i]
  {
    if s == [] then [] else Reverse(s[1..]) + [s[0]]
  }

  /** Position on the trunk, searching from the tip. */
  function PosOnTrunk(trunk: seq<Hash>, hash: Hash): (r: Option<nat>)
    ensures r.None? <==> hash !in trunk
    ensures r.Some? ==> r.value < |trunk| && trunk[r.value] == hash && hash !in trunk[r.value + 1..]
  {
    if trunk == [] then None
    else if Last(trunk) == hash then Some(|trunk| - 1)
    else
      var front := trunk[..|trunk| - 1];
      assert trunk == front + [Last(trunk)];
      var r := PosOnTrunk(front, hash);
      assert r.Some? ==> trunk[r.value + 1..] == front[r.value + 1..] + [Last(trunk)];
      r
  }

  lemma PosUnfolds(trunk: seq<Hash>, i: nat, hash: Hash)
    requires i < |trunk|
    ensures PosOnTrunk(trunk[..i + 1], hash) == if trunk[i] == hash then Some(i) else PosOnTrunk(trunk[..i], hash)
  {
    assert trunk[..i + 1][..i] == trunk[..i];
  }

  /** All values of `forks_at`: from a hash down its ancestors to the first one on the trunk. */
  function ForkWalk(headers: HeaderMap, trunk: seq<Hash>, at: Hash): (r: Option<seq<Hash>>)
    requires Tree(headers)
    ensures r.Some? ==> r.value != [] && r.value[0] == at && Last(r.value) in trunk
    decreases if at in headers then headers[at].height + 1 else 0
  {
    if at in trunk then Some([at])
    else if at in headers then
      assert Node(headers, at);
      var prev := headers[at].header.prev;
      assert prev in headers ==> Node(headers, prev);
      match ForkWalk(headers, trunk, prev)
      case Some(rest) => Some([at] + rest)
      case None => None
    else None
  }

  /** The total work of a header on top of its parent, and all checks that come before it is stored. */
  function Validate(c: Cache, prev: CachedHeader, next: BlockHeader): (r: Result<CachedHeader, Error>)
    requires Tree(c.headers) && Holds(c.headers, prev)
  {
    match RequiredTarget(c.network, c.headers, c.trunk, prev, next)
    case Err(e) => Err(e)
    case Ok(required) =>
      var work := BlockWork(next.bits) + prev.work;
      if work >= TWO_128 then Err(Aborted)
      else if Target(next.bits) != required || next.hash > Target(next.bits) then Err(SpvBadProofOfWork)
      else Ok(CachedHeader(next, prev.height + 1, work))
  }

  lemma ValidateStores(c: Cache, prev: CachedHeader, next: BlockHeader)
    requires Tree(c.headers) && Holds(c.headers, prev)
    ensures var r := Validate(c, prev, next);
            r.Ok? ==> r.value.header == next && r.value.height == prev.height + 1
  {
    hide RequiredTarget, Target, BlockWork;
  }

  /** Moves the trunk to a new tip with more work than the old one. */
  function MoveTrunk(rule: Rule, headers: HeaderMap, trunk: seq<Hash>, tip: CachedHeader): (r: Result<(seq<Hash>, Added), Error>)
    requires Tree(headers)
  {
    var parent := tip.header.prev;
    match ForkWalk(headers, trunk, parent)
    case None => Err(UnconnectedHeader)
    case Some(visited) =>
      var fork := Last(visited);
      var kept := PosOnTrunk(trunk, fork).value + 1;
      var unwinds := Reverse(trunk[kept..]);
      match rule
      case AsWritten =>
        var path := Reverse(visited[1..]) + [tip.header.hash];
        if fork != parent then
          Ok((trunk[..kept] + path, Added(tip, Some(unwinds), Some(path))))
        else
          Ok((trunk + path, Added(tip, None, Some(path))))
      case Intended =>
        var path := Reverse(visited[..|visited| - 1]) + [tip.header.hash];
        Ok((trunk[..kept] + path, Added(tip, if unwinds == [] then None else Some(unwinds), Some(path))))
  }

  /** Stores a validated header and moves the trunk if it has more work than the tip. */
  function Attach(rule: Rule, c: Cache, stored: CachedHeader): (o: Outcome)
    requires Tree(c.headers[stored.header.hash := stored])
  {
    var headers := c.headers[stored.header.hash := stored];
    var c' := c.(headers := headers);
    if c.trunk == [] || Last(c.trunk) !in headers then Outcome(c', Err(NoTip))
    else if headers[Last(c.trunk)].work < stored.work then
      match MoveTrunk(rule, headers, c.trunk, stored)
      case Ok((trunk, added)) => Outcome(c'.(trunk := trunk), Ok(Some(added)))
      case Err(e) => Outcome(c', Err(e))
    else Outcome(c', Ok(Some(Added(stored, None, None))))
  }

  /** Inserts a header without parent: it always goes to the end of the trunk. */
  function AddRoot(c: Cache, h: BlockHeader): (o: Outcome)
  {
    var work := BlockWork(h.bits);
    if work >= TWO_128 then Outcome(c, Err(Aborted))
    else
      var stored := CachedHeader(h, 0, work);
      Outcome(c.(headers := c.headers[h.hash := stored], trunk := c.trunk + [h.hash]),
              Ok(Some(Added(stored, None, Some([h.hash])))))
  }

  function AddHeader(rule: Rule, c: Cache, h: BlockHeader): (o: Outcome)
    requires WellFormed(c)
  {
    if h.hash in c.headers then Outcome(c, Ok(None))
    else if h.prev == NO_HASH then AddRoot(c, h)
    else if h.prev !in c.headers then Outcome(c, Err(UnconnectedHeader))
    else
      assert Node(c.headers, h.prev);
      match Validate(c, c.headers[h.prev], h)
      case Err(e) => Outcome(c, Err(e))
      case Ok(stored) =>
        InsertKeepsTree(c.headers, stored);
        Attach(rule, c, stored)
  }

  /** The header is new, connected and passes every check. */
  predicate Accepts(c: Cache, h: BlockHeader)
    requires WellFormed(c)
  {
    && h.hash !in c.headers
    && h.prev != NO_HASH && h.prev in c.headers
    && (assert Node(c.headers, h.prev); Validate(c, c.headers[h.prev], h).Ok?)
  }

  /** The stored form of an accepted header. */
  function StoredAs(headers: HeaderMap, h: BlockHeader): (stored: CachedHeader)
    requires h.prev in headers
  {
    CachedHeader(h, headers[h.prev].height + 1, BlockWork(h.bits) + headers[h.prev].work)
  }

  /** A step either stores an accepted header or changes nothing. */
  lemma AddUnfolds(rule: Rule, c: Cache, h: BlockHeader)
    requires WellFormed(c)
    requires h.prev != NO_HASH || h.hash in c.headers
    ensures Accepts(c, h) ==>
              && h.hash !in c.headers && h.prev in c.headers
              && Tree(c.headers[h.hash := StoredAs(c.headers, h)])
              && AddHeader(rule, c, h) == Attach(rule, c, StoredAs(c.headers, h))
    ensures !Accepts(c, h) ==>
              var o := AddHeader(rule, c, h);
              o.cache == c && if h.hash in c.headers then o.result == Ok(None) else o.result.Err? && o.result.error != NoTip
  {
    hide Attach, RequiredTarget, Target, BlockWork;
    if h.prev in c.headers && h.hash !in c.headers {
      assert Node(c.headers, h.prev);
      if Accepts(c, h) {
        InsertKeepsTree(c.headers, StoredAs(c.headers, h));
      } else {
        RequiredNotNoTip(c, h);
      }
    }
  }

  lemma RequiredNotNoTip(c: Cache, h: BlockHeader)
    requires WellFormed(c) && h.prev in c.headers && Holds(c.headers, c.headers[h.prev])
    ensures RequiredTarget(c.network, c.headers, c.trunk, c.headers[h.prev], h) != Err(NoTip)
  {
    hide Target, ByteLength, Precision;
  }

  // ----- what every step keeps, under either rule

  /** A walk that ends on the trunk visits known headers only. */
  lemma {:induction false} ForkWalkKnown(headers: HeaderMap, trunk: seq<Hash>, at: Hash)
    requires Tree(headers)
    requires Known(headers, trunk)
    ensures var r := ForkWalk(headers, trunk, at);
            r.Some? ==> Known(headers, r.value)
    decreases if at in headers then headers[at].height + 1 else 0
  {
    if at !in trunk && at in headers {
      assert Node(headers, at);
      var prev := headers[at].header.prev;
      assert prev in headers ==> Node(headers, prev);
      ForkWalkKnown(headers, trunk, prev);
    }
  }

  /** The moved trunk keeps its first entry, ends at the new tip, and holds known hashes only. */
  lemma MoveTrunkShape(rule: Rule, headers: HeaderMap, trunk: seq<Hash>, tip: CachedHeader)
    requires Tree(headers) && Holds(headers, tip) && trunk != []
    requires Known(headers, trunk)
    ensures var r := MoveTrunk(rule, headers, trunk, tip);
            r.Ok? ==> var (trunk', added) := r.value;
                      && trunk' != [] && trunk'[0] == trunk[0] && Last(trunk') == tip.header.hash
                      && Known(headers, trunk')
  {
    hide ForkWalk, Reverse, PosOnTrunk, Known;
    ForkWalkKnown(headers, trunk, tip.header.prev);
    var walk := ForkWalk(headers, trunk, tip.header.prev);
    if walk.Some? {
      var visited := walk.value;
      var kept := PosOnTrunk(trunk, Last(visited)).value + 1;
      var steps := if rule == AsWritten then visited[1..] else visited[..|visited| - 1];
      var path := Reverse(steps) + [tip.header.hash];
      KnownPath(headers, visited, tip.header.hash);
      KnownSplice(headers, trunk, kept, path);
      KnownSplice(headers, trunk, |trunk|, path);
      assert trunk[..|trunk|] == trunk;
    }
  }

  lemma MoveTrunkStored(rule: Rule, headers: HeaderMap, trunk: seq<Hash>, tip: CachedHeader)
    requires Tree(headers)
    ensures var r := MoveTrunk(rule, headers, trunk, tip);
            r.Ok? ==> && r.value.1.stored == tip
                      && r.value.1.forwards.Some? && r.value.1.forwards.value != []
                      && Last(r.value.1.forwards.value) == tip.header.hash
  {
    hide ForkWalk, Reverse, PosOnTrunk;
  }

  lemma KnownPath(headers: HeaderMap, visited: seq<Hash>, id: Hash)
    requires Known(headers, visited) && visited != [] && id in headers
    ensures Known(headers, Reverse(visited[1..]) + [id])
    ensures Known(headers, Reverse(visited[..|visited| - 1]) + [id])
  {
  }

  lemma KnownSplice(headers: HeaderMap, trunk: seq<Hash>, kept: nat, path: seq<Hash>)
    requires Known(headers, trunk) && Known(headers, path) && kept <= |trunk|
    ensures Known(headers, trunk[..kept] + path)
  {
  }

  lemma AddHeaderWellFormed(rule: Rule, c: Cache, h: BlockHeader)
    requires WellFormed(c)
    ensures WellFormed(AddHeader(rule, c, h).cache)
  {
    hide Accepts, BlockWork, MoveTrunk;
    if h.hash !in c.headers && h.prev == NO_HASH {
      InsertKeepsTree(c.headers, CachedHeader(h, 0, BlockWork(h.bits)));
    } else {
      hide AddHeader;
      AddUnfolds(rule, c, h);
      if Accepts(c, h) {
        var stored := StoredAs(c.headers, h);
        MoveTrunkShape(rule, c.headers[h.hash := stored], c.trunk, stored);
      }
    }
  }

  /** Taking the unwinds off the end of a trunk, last first, and appending the forwards. */
  ghost function Replay(trunk: seq<Hash>, added: Added): (r: Option<seq<Hash>>)
  {
    var unwinds := if added.unwinds.Some? then added.unwinds.value else [];
    var forwards := if added.forwards.Some? then added.forwards.value else [];
    if |unwinds| > |trunk| || Reverse(unwinds) != trunk[|trunk| - |unwinds|..] then None
    else Some(trunk[..|trunk| - |unwinds|] + forwards)
  }

  /**
   * Delta replay: in every branch, the reported unwinds are exactly the hashes at the end of the
   * old trunk, tip first, and dropping them and appending the forwards gives the new trunk.
   */
  lemma DeltaReplay(rule: Rule, c: Cache, h: BlockHeader)
    requires WellFormed(c)
    ensures var o := AddHeader(rule, c, h);
            && (o.result.Ok? && o.result.value.Some? ==> Replay(c.trunk, o.result.value.value) == Some(o.cache.trunk))
            && (o.result.Err? || o.result.value.None? ==> o.cache.trunk == c.trunk)
  {
    hide Accepts, BlockWork, MoveTrunk, Reverse;
    if h.hash !in c.headers && h.prev == NO_HASH {
      NothingUnwound(c.trunk, [h.hash]);
    } else {
      hide AddHeader;
      AddUnfolds(rule, c, h);
      if Accepts(c, h) {
        var stored := StoredAs(c.headers, h);
        MoveTrunkReplay(rule, c.headers[h.hash := stored], c.trunk, stored);
        NothingUnwound(c.trunk, []);
      }
    }
  }

  lemma NothingUnwound(trunk: seq<Hash>, forwards: seq<Hash>)
    ensures trunk[..|trunk|] + forwards == trunk + forwards && trunk + [] == trunk
    ensures Reverse([]) == trunk[|trunk|..]
  {
  }

  lemma ReverseTwice(s: seq<Hash>)
    ensures Reverse(Reverse(s)) == s
  {
  }

  lemma MoveTrunkReplay(rule: Rule, headers: HeaderMap, trunk: seq<Hash>, tip: CachedHeader)
    requires Tree(headers)
    ensures var r := MoveTrunk(rule, headers, trunk, tip);
            r.Ok? ==> Replay(trunk, r.value.1) == Some(r.value.0)
  {
    hide ForkWalk, Reverse, PosOnTrunk;
    var r := MoveTrunk(rule, headers, trunk, tip);
    if r.Ok? {
      var fork := Last(ForkWalk(headers, trunk, tip.header.prev).value);
      var kept := PosOnTrunk(trunk, fork).value + 1;
      ReverseTwice(trunk[kept..]);
      NothingUnwound(trunk, r.value.1.forwards.value);
    }
  }
}
