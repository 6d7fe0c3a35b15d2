/**
 * The chunked rollback buffer of the P2P layer: a deque of byte chunks with a read position and a
 * checkpoint, proved to be a byte queue with one savepoint.
 */
module Buffer {
  type byte = b: int | 0 <= b < 256

  const IO_BUFFER_SIZE: nat := 1024 * 1024

  // ----- the abstract queue

  /** The bytes kept since the last commit, and how many of them have been read. */
  datatype Queue = Queue(kept: seq<byte>, read: nat)

  ghost predicate Fits(q: Queue) {
    q.read <= |q.kept|
  }

  ghost function Unread(q: Queue): (s: seq<byte>)
    requires Fits(q)
  {
    q.kept[q.read..]
  }

  ghost function Written(q: Queue, bytes: seq<byte>): (q': Queue)
  {
    Queue(q.kept + bytes, q.read)
  }

  /** Reading ahead sees the first n unread bytes, or all there are. */
  ghost function Ahead(q: Queue, n: nat): (s: seq<byte>)
    requires Fits(q)
    ensures |s| == Min(n, |q.kept| - q.read)
  {
    Unread(q)[..Min(n, |q.kept| - q.read)]
  }

  ghost function Advanced(q: Queue, n: nat): (q': Queue)
    requires Fits(q)
    ensures Fits(q')
  {
    Queue(q.kept, q.read + Min(n, |q.kept| - q.read))
  }

  ghost function Committed(q: Queue): (q': Queue)
    requires Fits(q)
  {
    Queue(Unread(q), 0)
  }

  ghost function RolledBack(q: Queue): (q': Queue)
  {
    Queue(q.kept, 0)
  }

  function Min(a: nat, b: nat): (m: nat)
    ensures m <= a && m <= b && (m == a || m == b)
  {
    if a < b then a else b
  }

  // ----- chunks as one sequence

  function Flat(chunks: seq<seq<byte>>): (s: seq<byte>)
  {
    if chunks == [] then [] else Flat(chunks[..|chunks| - 1]) + chunks[|chunks| - 1]
  }

  lemma {:induction false} FlatConcat(a: seq<seq<byte>>, b: seq<seq<byte>>)
    ensures Flat(a + b) == Flat(a) + Flat(b)
    decreases |b|
  {
    if b == [] {
      assert a + b == a;
    } else {
      var front, last := b[..|b| - 1], b[|b| - 1];
      assert (a + b)[..|a + b| - 1] == a + front && (a + b)[|a + b| - 1] == last;
      FlatConcat(a, front);
      assert Flat(a) + Flat(front) + last == Flat(a) + (Flat(front) + last);
    }
  }

  /** Number of bytes before a position. */
  function Index(chunks: seq<seq<byte>>, pos: (nat, nat)): (i: nat)
    requires pos.0 <= |chunks|
  {
    |Flat(chunks[..pos.0])| + pos.1
  }

  /** A position within the chunks; an empty buffer has only one. */
  ghost predicate At(chunks: seq<seq<byte>>, pos: (nat, nat)) {
    if chunks == [] then pos == (0, 0) else pos.0 < |chunks| && pos.1 <= |chunks[pos.0]|
  }

  lemma FlatStep(chunks: seq<seq<byte>>, k: nat)
    requires k < |chunks|
    ensures Flat(chunks[..k + 1]) == Flat(chunks[..k]) + chunks[k]
  {
    var front := chunks[..k + 1];
    assert front[..|front| - 1] == chunks[..k];
  }

  lemma FlatCut(chunks: seq<seq<byte>>, k: nat)
    requires k <= |chunks|
    ensures Flat(chunks) == Flat(chunks[..k]) + Flat(chunks[k..])
  {
    hide Flat;
    assert chunks == chunks[..k] + chunks[k..];
    FlatConcat(chunks[..k], chunks[k..]);
  }

  /** The bytes around a chunk. */
  lemma FlatSplit(chunks: seq<seq<byte>>, k: nat)
    requires k < |chunks|
    ensures Flat(chunks[..k + 1]) == Flat(chunks[..k]) + chunks[k]
    ensures Flat(chunks) == Flat(chunks[..k]) + chunks[k] + Flat(chunks[k + 1..])
  {
    hide Flat;
    FlatStep(chunks, k);
    FlatCut(chunks, k + 1);
  }

  lemma IndexBound(chunks: seq<seq<byte>>, pos: (nat, nat))
    requires At(chunks, pos)
    ensures Index(chunks, pos) <= |Flat(chunks)|
  {
    if chunks != [] {
      FlatSplit(chunks, pos.0);
    }
  }

  /** Bytes of the current chunk, seen in the flat sequence. */
  lemma ChunkBytes(chunks: seq<seq<byte>>, pos: (nat, nat), n: nat)
    requires pos.0 < |chunks| && pos.1 + n <= |chunks[pos.0]|
    ensures var i := Index(chunks, pos);
            i + n <= |Flat(chunks)| && Flat(chunks)[i..i + n] == chunks[pos.0][pos.1..pos.1 + n]
  {
    FlatSplit(chunks, pos.0);
  }

  /** The end of a chunk and the start of the next are the same place. */
  lemma ChunkBoundary(chunks: seq<seq<byte>>, k: nat)
    requires k < |chunks|
    ensures Index(chunks, (k, |chunks[k]|)) == Index(chunks, (k + 1, 0))
    ensures k == |chunks| - 1 ==> Index(chunks, (k, |chunks[k]|)) == |Flat(chunks)|
  {
    FlatSplit(chunks, k);
    if k == |chunks| - 1 {
      assert chunks[..k + 1] == chunks;
    }
  }

  /** Where one turn of a read loop moves a position that takes n bytes of its chunk. */
  function Moved(chunks: seq<seq<byte>>, pos: (nat, nat), n: nat): (pos': (nat, nat))
    requires pos.0 < |chunks|
  {
    if pos.1 + n == |chunks[pos.0]| && pos.0 < |chunks| - 1 then (pos.0 + 1, 0) else (pos.0, pos.1 + n)
  }

  lemma MovedPosition(chunks: seq<seq<byte>>, pos: (nat, nat), n: nat)
    requires pos.0 < |chunks| && pos.1 + n <= |chunks[pos.0]|
    ensures var pos' := Moved(chunks, pos, n);
            && At(chunks, pos') && Index(chunks, pos') == Index(chunks, pos) + n
            && (pos.1 + n == |chunks[pos.0]| && pos.0 == |chunks| - 1 ==> Index(chunks, pos') == |Flat(chunks)|)
            && Index(chunks, pos) + n <= |Flat(chunks)|
            && Flat(chunks)[Index(chunks, pos)..Index(chunks, pos) + n] == chunks[pos.0][pos.1..pos.1 + n]
  {
    hide Flat;
    ChunkBytes(chunks, pos, n);
    ChunkBoundary(chunks, pos.0);
  }

  /** Extending the last chunk appends to the flat bytes and moves no position. */
  lemma ExtendLast(chunks: seq<seq<byte>>, bytes: seq<byte>)
    requires chunks != []
    ensures var longer := chunks[|chunks| - 1 := chunks[|chunks| - 1] + bytes];
            && Flat(longer) == Flat(chunks) + bytes
            && forall pos: (nat, nat) :: At(chunks, pos) ==> At(longer, pos) && Index(longer, pos) == Index(chunks, pos)
  {
    var last := |chunks| - 1;
    var longer := chunks[last := chunks[last] + bytes];
    assert longer[..last] == chunks[..last];
    assert Flat(chunks[..last]) + (chunks[last] + bytes) == Flat(chunks[..last]) + chunks[last] + bytes;
    forall pos: (nat, nat) | At(chunks, pos)
      ensures At(longer, pos) && Index(longer, pos) == Index(chunks, pos)
    {
      assert longer[..pos.0] == chunks[..pos.0];
    }
  }

  /** A new empty chunk changes nothing either. */
  lemma ExtendEmpty(chunks: seq<seq<byte>>)
    ensures var longer := chunks + [[]];
            && Flat(longer) == Flat(chunks)
            && forall pos: (nat, nat) :: At(chunks, pos) ==> At(longer, pos) && Index(longer, pos) == Index(chunks, pos)
  {
    var longer := chunks + [[]];
    assert longer[..|chunks|] == chunks;
    forall pos: (nat, nat) | At(chunks, pos)
      ensures At(longer, pos) && Index(longer, pos) == Index(chunks, pos)
    {
      assert longer[..pos.0] == chunks[..pos.0];
    }
  }

  /** Dropping the chunks before a position. */
  lemma DropChunks(chunks: seq<seq<byte>>, pos: (nat, nat))
    requires At(chunks, pos)
    ensures var rest := chunks[pos.0..];
            && At(rest, (0, pos.1)) && Index(rest, (0, pos.1)) == pos.1
            && pos.1 <= |Flat(rest)| && Index(chunks, pos) <= |Flat(chunks)|
            && Flat(rest)[pos.1..] == Flat(chunks)[Index(chunks, pos)..]
  {
    IndexBound(chunks, pos);
    var rest := chunks[pos.0..];
    assert chunks == chunks[..pos.0] + rest;
    FlatConcat(chunks[..pos.0], rest);
    assert rest[..0] == [];
    IndexBound(rest, (0, pos.1));
  }

  function SumLengths(chunks: seq<seq<byte>>): (n: nat)
    ensures n == |Flat(chunks)|
  {
    if chunks == [] then 0 else SumLengths(chunks[..|chunks| - 1]) + |chunks[|chunks| - 1]|
  }

  class Buffer {
    var chunks: seq<seq<byte>>
    var pos: (nat, nat)
    var checkpoint: (nat, nat)

    ghost predicate Valid()
      reads this
    {
      && At(chunks, pos) && At(chunks, checkpoint)
      && Index(chunks, checkpoint) <= Index(chunks, pos) <= |Flat(chunks)|
    }

    /** The queue this buffer stands for. */
    ghost function Contents(): (q: Queue)
      requires Valid()
      reads this
      ensures Fits(q)
      ensures Unread(q) == Flat(chunks)[Index(chunks, pos)..]
    {
      Queue(Flat(chunks)[Index(chunks, checkpoint)..], Index(chunks, pos) - Index(chunks, checkpoint))
    }

    constructor ()
      ensures Valid() && Contents() == Queue([], 0) && chunks == []
    {
      chunks := [];
      pos := (0, 0);
      checkpoint := (0, 0);
    }

    /** Not yet consumed length. */
    method Len() returns (n: nat)
      requires Valid()
      ensures n == |Unread(Contents())|
    {
      hide Flat, Index;
      DropChunks(chunks, pos);
      n := SumLengths(chunks[pos.0..]) - pos.1;
    }

    method Rollback()
      requires Valid()
      modifies this`pos
      ensures Valid() && Contents() == RolledBack(old(Contents()))
    {
      hide Flat, Index, At;
      pos := checkpoint;
    }

    method Commit()
      requires Valid()
      modifies this
      ensures Valid() && Contents() == Committed(old(Contents()))
      ensures chunks == [] <==> old(chunks) == []
    {
      hide Flat, Index;
      DropChunks(chunks, pos);
      chunks := chunks[pos.0..];
      pos := (0, pos.1);
      checkpoint := pos;
    }

    /** Reads without moving: a later read delivers the same bytes again. */
    method ReadAhead(buf: array<byte>) returns (have: nat)
      requires Valid()
      modifies buf
      ensures Valid() && Contents() == old(Contents())
      ensures have == |Ahead(Contents(), buf.Length)| && buf[..have] == Ahead(Contents(), buf.Length)
      ensures buf[have..] == old(buf[have..])
    {
      hide Flat, Index;
      have := 0;
      ghost var flat := Flat(chunks);
      if |chunks| == 0 {
        FlatEmpty();
        return;
      }
      ghost var start := Index(chunks, pos);
      var at := pos;
      var exhausted := false;
      while have < buf.Length && !exhausted
        invariant At(chunks, at) && have <= buf.Length && Index(chunks, at) == start + have <= |flat|
        invariant exhausted ==> start + have == |flat|
        invariant forall k :: 0 <= k < have ==> buf[k] == flat[start + k]
        invariant forall k :: have <= k < buf.Length ==> buf[k] == old(buf[k])
        decreases buf.Length - have + |chunks| - at.0, !exhausted
      {
        at, have, exhausted := CopyChunk(chunks, at, buf, have);
      }
      assert buf[..have] == flat[start..][..have];
    }

    method Advance(len: nat) returns (have: nat)
      requires Valid() && (chunks != [] || len == 0)
      modifies this`pos
      ensures Valid() && Contents() == Advanced(old(Contents()), len)
      ensures have == |Ahead(old(Contents()), len)|
    {
      hide Flat, Index;
      have := 0;
      ghost var start := Index(chunks, pos);
      while have < len
        invariant At(chunks, pos) && have <= len && Index(chunks, pos) == start + have <= |Flat(chunks)|
        decreases len - have + |chunks| - pos.0
      {
        var current := chunks[pos.0];
        var available := Min(len - have, |current| - pos.1);
        MovedPosition(chunks, pos, available);
        have := have + available;
        var exhausted := pos.1 + available == |current| && pos.0 == |chunks| - 1;
        pos := Moved(chunks, pos, available);
        if exhausted {
          break;
        }
      }
    }

    /** Reads and moves in one step. */
    method ReadAdvance(buf: array<byte>) returns (have: nat)
      requires Valid()
      modifies this`pos, buf
      ensures Valid() && Contents() == Advanced(old(Contents()), buf.Length)
      ensures have == |Ahead(old(Contents()), buf.Length)| && buf[..have] == Ahead(old(Contents()), buf.Length)
      ensures buf[have..] == old(buf[have..])
    {
      hide Flat, Index;
      have := 0;
      ghost var flat := Flat(chunks);
      if |chunks| == 0 {
        FlatEmpty();
        return;
      }
      ghost var start := Index(chunks, pos);
      var exhausted := false;
      while have < buf.Length && !exhausted
        invariant At(chunks, pos) && have <= buf.Length && Index(chunks, pos) == start + have <= |flat|
        invariant exhausted ==> start + have == |flat|
        invariant forall k :: 0 <= k < have ==> buf[k] == flat[start + k]
        invariant forall k :: have <= k < buf.Length ==> buf[k] == old(buf[k])
        decreases buf.Length - have + |chunks| - pos.0, !exhausted
      {
        pos, have, exhausted := CopyChunk(chunks, pos, buf, have);
      }
      assert buf[..have] == flat[start..][..have];
    }

    /** Appends bytes, to the last chunk if it stays within the chunk size. */
    method Write(bytes: seq<byte>) returns (n: nat)
      requires Valid()
      modifies this
      ensures Valid() && Contents() == Written(old(Contents()), bytes) && n == |bytes|
      ensures chunks == [] <==> old(chunks) == [] && bytes == []
    {
      hide Flat, Index;
      if |bytes| > 0 {
        if |chunks| == 0 || |bytes| + |chunks[|chunks| - 1]| > IO_BUFFER_SIZE {
          ExtendEmpty(chunks);
          chunks := chunks + [[]];
        }
        ExtendLast(chunks, bytes);
        SliceAppend(Flat(chunks), Index(chunks, checkpoint), bytes);
        chunks := chunks[|chunks| - 1 := chunks[|chunks| - 1] + bytes];
      } else {
        assert Contents().kept + bytes == Contents().kept;
      }
      n := |bytes|;
    }
  }

  /** One turn of a read loop: copies what the current chunk has, and steps to the next chunk if there is one. */
  method CopyChunk(chunks: seq<seq<byte>>, at: (nat, nat), buf: array<byte>, have: nat)
    returns (at': (nat, nat), have': nat, exhausted: bool)
    requires chunks != [] && At(chunks, at) && have < buf.Length
    modifies buf
    ensures At(chunks, at') && have <= have' <= buf.Length
    ensures Index(chunks, at') == Index(chunks, at) + have' - have <= |Flat(chunks)|
    ensures exhausted ==> Index(chunks, at') == |Flat(chunks)|
    ensures at.0 <= at'.0 && (exhausted || have < have' || at.0 < at'.0)
    ensures forall k :: have <= k < have' ==> buf[k] == Flat(chunks)[Index(chunks, at) + k - have]
    ensures forall k :: 0 <= k < buf.Length && !(have <= k < have') ==> buf[k] == old(buf[k])
  {
    hide Flat, Index;
    var current := chunks[at.0];
    var available := Min(buf.Length - have, |current| - at.1);
    MovedPosition(chunks, at, available);
    SlicedBytes(Flat(chunks), Index(chunks, at), current, at.1, available);
    Copy(buf, have, current[at.1..at.1 + available]);
    have' := have + available;
    exhausted := at.1 + available == |current| && at.0 == |chunks| - 1;
    at' := Moved(chunks, at, available);
  }

  lemma SlicedBytes(flat: seq<byte>, i: nat, chunk: seq<byte>, j: nat, n: nat)
    requires i + n <= |flat| && j + n <= |chunk| && flat[i..i + n] == chunk[j..j + n]
    ensures forall k :: i <= k < i + n ==> flat[k] == chunk[j..j + n][k - i]
  {
    forall k | i <= k < i + n
      ensures flat[k] == chunk[j..j + n][k - i]
    {
      assert flat[i..i + n][k - i] == flat[k];
    }
  }

  lemma SliceAppend(flat: seq<byte>, mark: nat, bytes: seq<byte>)
    requires mark <= |flat|
    ensures (flat + bytes)[mark..] == flat[mark..] + bytes
  {
  }

  lemma FlatEmpty()
    ensures Flat([]) == []
  {
  }

  /** `copy_from_slice` into part of a buffer. */
  method Copy(buf: array<byte>, from: nat, bytes: seq<byte>)
    requires from + |bytes| <= buf.Length
    modifies buf
    ensures forall k :: from <= k < from + |bytes| ==> buf[k] == bytes[k - from]
    ensures forall k :: 0 <= k < buf.Length && !(from <= k < from + |bytes|) ==> buf[k] == old(buf[k])
  {
    forall k | 0 <= k < |bytes| {
      buf[from + k] := bytes[k];
    }
  }
}
