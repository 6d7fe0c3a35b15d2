/**
 * The tree of known headers. A block hash is modelled by the number its bytes encode, so the
 * all-zero default hash is 0 and the proof-of-work test is a comparison of numbers. A header
 * carries its own hash; the fields that only enter the hash (version, merkle root, nonce) are
 * not kept. No header hashes to zero.
 */
module HeaderTree {
  import opened Powers
  import opened Compact

  type Hash = nat

  const NO_HASH: Hash := 0

  type BlockId = n: nat | n > 0 witness 1

  datatype BlockHeader = BlockHeader(hash: BlockId, prev: Hash, time: Word, bits: Word)

  /** A header with its place in the tree. Total work is exact, where the source keeps its logarithm. */
  datatype CachedHeader = CachedHeader(header: BlockHeader, height: nat, work: nat)

  type HeaderMap = map<Hash, CachedHeader>

  function BlockWork(bits: Word): (w: nat)
  {
    TargetBound(bits);
    Work(Target(bits))
  }

  /** The work of a block is the whole quotient of 2^256 by its target and one. */
  lemma BlockWorkIs(bits: Word)
    requires Target(bits) > 0
    ensures BlockWork(bits) * (Target(bits) + 1) <= TWO_256 < BlockWork(bits) * (Target(bits) + 1) + Target(bits) + 1
  {
    TargetBound(bits);
    WorkIsQuotient(Target(bits));
    DivBounds(TWO_256, Target(bits) + 1);
    hide Target, Quot, Work;
  }

  /** One entry is stored under its own hash, one above its parent's entry or at height 0 as a root. */
  ghost predicate Node(headers: HeaderMap, id: Hash)
    requires id in headers
  {
    var n := headers[id];
    && n.header.hash == id
    && if n.header.prev == NO_HASH then n.height == 0
       else n.header.prev in headers && n.height == headers[n.header.prev].height + 1
  }

  ghost predicate Tree(headers: HeaderMap) {
    NO_HASH !in headers && forall id {:trigger Node(headers, id)} :: id in headers ==> Node(headers, id)
  }

  /** One entry's total work is its own work on top of its parent's total. */
  ghost predicate Weighs(headers: HeaderMap, id: Hash)
    requires id in headers
  {
    var n := headers[id];
    n.work == BlockWork(n.header.bits) + if n.header.prev in headers then headers[n.header.prev].work else 0
  }

  ghost predicate Weighed(headers: HeaderMap) {
    forall id {:trigger Weighs(headers, id)} :: id in headers ==> Weighs(headers, id)
  }

  /** A hash stands for one header. */
  ghost predicate Unambiguous(hs: set<BlockHeader>) {
    forall a, b :: a in hs && b in hs && a.hash == b.hash ==> a == b
  }

  ghost function Held(headers: HeaderMap): (hs: set<BlockHeader>)
  {
    set id | id in headers :: headers[id].header
  }

  /** `c` is the entry stored under its own hash. */
  ghost predicate Holds(headers: HeaderMap, c: CachedHeader) {
    c.header.hash in headers && headers[c.header.hash] == c
  }

  /** The headers from the root down to `id`. */
  ghost function Lineage(headers: HeaderMap, id: Hash): (chain: seq<BlockHeader>)
    requires Tree(headers) && id in headers
    ensures |chain| == headers[id].height + 1
    ensures chain[|chain| - 1] == headers[id].header
    decreases headers[id].height
  {
    assert Node(headers, id);
    var h := headers[id].header;
    if h.prev == NO_HASH then [h] else Lineage(headers, h.prev) + [h]
  }

  ghost function Hashes(chain: seq<BlockHeader>): (ids: seq<Hash>)
    ensures |ids| == |chain|
    ensures forall i :: 0 <= i < |chain| ==> ids[i] == chain[i].hash
  {
    if chain == [] then [] else Hashes(chain[..|chain| - 1]) + [chain[|chain| - 1].hash]
  }

  /** The hashes from the root down to `id`: what the trunk is meant to be when `id` is the tip. */
  ghost function PathTo(headers: HeaderMap, id: Hash): (path: seq<Hash>)
    requires Tree(headers) && id in headers
    ensures |path| == headers[id].height + 1
    ensures path[|path| - 1] == id
  {
    assert Node(headers, id);
    Hashes(Lineage(headers, id))
  }

  /** A hash of the path is a known header, its height is its index, and the path up to it is its own path. */
  lemma {:induction false} LineagePrefix(headers: HeaderMap, id: Hash, i: nat)
    requires Tree(headers) && id in headers && i <= headers[id].height
    ensures var h := Lineage(headers, id)[i];
            && h.hash in headers && headers[h.hash].header == h && headers[h.hash].height == i
            && Lineage(headers, id)[..i + 1] == Lineage(headers, h.hash)
    decreases headers[id].height
  {
    assert Node(headers, id);
    var h := headers[id].header;
    var chain := Lineage(headers, id);
    if i == headers[id].height {
      assert chain[..i + 1] == chain;
    } else {
      LineagePrefix(headers, h.prev, i);
      assert chain[..i + 1] == Lineage(headers, h.prev)[..i + 1];
    }
  }

  /** A path starts at a root, and every later hash has the hash before it as its parent. */
  lemma PathLinked(headers: HeaderMap, id: Hash, i: nat)
    requires Tree(headers) && id in headers && i <= headers[id].height
    ensures var path := PathTo(headers, id);
            && path[i] in headers && headers[path[i]].height == i
            && headers[path[i]].header.prev == if i == 0 then NO_HASH else path[i - 1]
  {
    LineagePrefix(headers, id, i);
    var chain := Lineage(headers, id);
    var h := chain[i];
    assert Node(headers, h.hash);
    if i > 0 {
      assert Node(headers, h.prev);
      assert Lineage(headers, h.hash) == Lineage(headers, h.prev) + [h];
      assert chain[..i + 1][i - 1] == chain[i - 1];
    }
  }

  /** No hash is on a path twice. */
  lemma PathDistinct(headers: HeaderMap, id: Hash, i: nat, j: nat)
    requires Tree(headers) && id in headers && i < j <= headers[id].height
    ensures PathTo(headers, id)[i] != PathTo(headers, id)[j]
  {
    PathLinked(headers, id, i);
    PathLinked(headers, id, j);
  }

  /** Growing the tree does not change the lineage of a known header. */
  lemma {:induction false} LineageStable(headers: HeaderMap, headers': HeaderMap, id: Hash)
    requires Tree(headers) && Tree(headers') && id in headers
    requires forall k :: k in headers ==> k in headers' && headers'[k].header == headers[k].header
    ensures Lineage(headers', id) == Lineage(headers, id)
    ensures headers'[id].height == headers[id].height
    decreases headers[id].height
  {
    assert Node(headers, id) && Node(headers', id);
    var prev := headers[id].header.prev;
    if prev != NO_HASH {
      LineageStable(headers, headers', prev);
    }
  }

  ghost function ChainWork(chain: seq<BlockHeader>): (w: nat)
  {
    if chain == [] then 0 else ChainWork(chain[..|chain| - 1]) + BlockWork(chain[|chain| - 1].bits)
  }

  /** The stored total work is the work of the whole lineage. */
  lemma {:induction false} WorkOfLineage(headers: HeaderMap, id: Hash)
    requires Tree(headers) && Weighed(headers) && id in headers
    ensures headers[id].work == ChainWork(Lineage(headers, id))
    decreases headers[id].height
  {
    assert Node(headers, id) && Weighs(headers, id);
    var h := headers[id].header;
    var chain := Lineage(headers, id);
    if h.prev == NO_HASH {
      assert chain[..0] == [];
    } else {
      WorkOfLineage(headers, h.prev);
      assert chain[..|chain| - 1] == Lineage(headers, h.prev);
    }
  }

  /** A new child of a known header keeps the map a tree. */
  lemma InsertKeepsTree(headers: HeaderMap, c: CachedHeader)
    requires Tree(headers) && c.header.hash !in headers
    requires if c.header.prev == NO_HASH then c.height == 0
             else c.header.prev in headers && c.height == headers[c.header.prev].height + 1
    ensures Tree(headers[c.header.hash := c])
  {
    var headers' := headers[c.header.hash := c];
    forall id | id in headers'
      ensures Node(headers', id)
    {
      assert id != c.header.hash ==> Node(headers, id);
    }
  }
}
