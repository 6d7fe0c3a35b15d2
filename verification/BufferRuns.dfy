/** Any interleaving of buffer operations against the byte queue, and the laws of that queue. */
module BufferRuns {
  import opened Buffer

  datatype Op = Put(bytes: seq<byte>) | Read(n: nat) | Peek(n: nat) | Skip(n: nat) | Commit | Rollback

  ghost function Apply(q: Queue, op: Op): (q': Queue)
    requires Fits(q)
    ensures Fits(q')
  {
    match op
    case Put(bytes) => Written(q, bytes)
    case Read(n) => Advanced(q, n)
    case Peek(_) => q
    case Skip(n) => Advanced(q, n)
    case Commit => Committed(q)
    case Rollback => RolledBack(q)
  }

  ghost function Output(q: Queue, op: Op): (s: seq<byte>)
    requires Fits(q)
  {
    match op
    case Read(n) => Ahead(q, n)
    case Peek(n) => Ahead(q, n)
    case _ => []
  }

  /** The queue after the operations. */
  ghost function After(ops: seq<Op>): (q: Queue)
    ensures Fits(q)
  {
    if ops == [] then Queue([], 0) else Apply(After(ops[..|ops| - 1]), ops[|ops| - 1])
  }

  /** What each operation delivers. */
  ghost function Outputs(ops: seq<Op>): (outs: seq<seq<byte>>)
    ensures |outs| == |ops|
  {
    if ops == [] then []
    else Outputs(ops[..|ops| - 1]) + [Output(After(ops[..|ops| - 1]), ops[|ops| - 1])]
  }

  /** Everything written. */
  ghost function PutBytes(ops: seq<Op>): (s: seq<byte>)
  {
    if ops == [] then []
    else PutBytes(ops[..|ops| - 1]) + if ops[|ops| - 1].Put? then ops[|ops| - 1].bytes else []
  }

  /** Nothing is skipped before the first byte was written: the source's `advance` indexes a chunk that does not exist yet. */
  ghost predicate Legal(ops: seq<Op>) {
    forall i :: 0 <= i < |ops| && ops[i].Skip? && ops[i].n > 0 ==> PutBytes(ops[..i]) != []
  }

  /** The chunked buffer refines the byte queue under any interleaving: same deliveries, same queue. */
  method Interleave(ops: seq<Op>) returns (b: Buffer, outs: seq<seq<byte>>)
    requires Legal(ops)
    ensures fresh(b) && b.Valid() && b.Contents() == After(ops) && outs == Outputs(ops)
  {
    hide Flat, Index, At;
    b := new Buffer();
    outs := [];
    assert ops[..|ops|] == ops;
    for i := 0 to |ops|
      invariant fresh(b) && b.Valid() && b.Contents() == After(ops[..i]) && outs == Outputs(ops[..i])
      invariant b.chunks == [] <==> PutBytes(ops[..i]) == []
    {
      assert ops[..i + 1][..i] == ops[..i];
      var out := Perform(b, ops[i]);
      outs := outs + [out];
    }
  }

  method Perform(b: Buffer, op: Op) returns (out: seq<byte>)
    requires b.Valid() && (op.Skip? && op.n > 0 ==> b.chunks != [])
    modifies b
    ensures b.Valid() && b.Contents() == Apply(old(b.Contents()), op)
    ensures out == Output(old(b.Contents()), op)
    ensures b.chunks == [] <==> old(b.chunks) == [] && (op.Put? ==> op.bytes == [])
  {
    hide Flat, Index, At;
    out := [];
    match op {
      case Put(bytes) =>
        var n := b.Write(bytes);
      case Read(n) =>
        var buf := new byte[n];
        var have := b.ReadAdvance(buf);
        out := buf[..have];
      case Peek(n) =>
        var buf := new byte[n];
        var have := b.ReadAhead(buf);
        out := buf[..have];
      case Skip(n) =>
        var have := b.Advance(n);
      case Commit =>
        b.Commit();
      case Rollback =>
        b.Rollback();
    }
  }

  // ----- laws of the queue

  ghost function AfterFrom(q: Queue, ops: seq<Op>): (q': Queue)
    requires Fits(q)
    ensures Fits(q')
  {
    if ops == [] then q else Apply(AfterFrom(q, ops[..|ops| - 1]), ops[|ops| - 1])
  }

  /** A rollback restores everything since the last commit, and keeps what was written meanwhile. */
  lemma {:induction false} RollbackRestores(q: Queue, ops: seq<Op>)
    requires Fits(q) && forall i :: 0 <= i < |ops| ==> !ops[i].Commit?
    ensures RolledBack(AfterFrom(q, ops)) == Queue(q.kept + PutBytes(ops), 0)
    decreases |ops|
  {
    if ops == [] {
      assert q.kept + [] == q.kept;
    } else {
      var last := ops[|ops| - 1];
      RollbackRestores(q, ops[..|ops| - 1]);
      var put := PutBytes(ops[..|ops| - 1]);
      assert last.Put? ==> q.kept + put + last.bytes == q.kept + (put + last.bytes);
      assert !last.Put? ==> put + [] == put;
    }
  }

  /** The bytes an operation takes off the front, delivered or skipped. */
  ghost function Taken(q: Queue, op: Op): (s: seq<byte>)
    requires Fits(q)
  {
    if op.Read? || op.Skip? then Ahead(q, op.n) else []
  }

  ghost function TakenBytes(q: Queue, ops: seq<Op>): (s: seq<byte>)
    requires Fits(q)
  {
    if ops == [] then []
    else
      var front := ops[..|ops| - 1];
      TakenBytes(q, front) + Taken(AfterFrom(q, front), ops[|ops| - 1])
  }

  /** Without rollback, what was read or skipped and what is still unread is what was unread and what was written, in order. */
  lemma {:induction false} FirstInFirstOut(q: Queue, ops: seq<Op>)
    requires Fits(q) && forall i :: 0 <= i < |ops| ==> !ops[i].Rollback?
    ensures TakenBytes(q, ops) + Unread(AfterFrom(q, ops)) == Unread(q) + PutBytes(ops)
    decreases |ops|
  {
    if ops == [] {
      assert [] + Unread(q) == Unread(q) + [];
    } else {
      hide Unread, Apply, Taken;
      var front, last := ops[..|ops| - 1], ops[|ops| - 1];
      FirstInFirstOut(q, front);
      OneInOneOut(AfterFrom(q, front), last);
      Regroup(TakenBytes(q, front), Taken(AfterFrom(q, front), last),
              Unread(AfterFrom(q, ops)), Unread(AfterFrom(q, front)), if last.Put? then last.bytes else [],
              Unread(q), PutBytes(front));
    }
  }

  lemma Regroup(read: seq<byte>, got: seq<byte>, after: seq<byte>, before: seq<byte>, put: seq<byte>, start: seq<byte>, puts: seq<byte>)
    requires read + before == start + puts && got + after == before + put
    ensures read + got + after == start + (puts + put)
  {
    assert read + got + after == read + (got + after);
    assert read + (before + put) == read + before + put;
    assert start + puts + put == start + (puts + put);
  }

  lemma OneInOneOut(q: Queue, op: Op)
    requires Fits(q) && !op.Rollback?
    ensures Taken(q, op) + Unread(Apply(q, op)) == Unread(q) + if op.Put? then op.bytes else []
  {
    if op.Read? || op.Skip? {
      var n := |Ahead(q, op.n)|;
      assert Unread(q)[..n] + Unread(q)[n..] == Unread(q) + [];
      assert Unread(Advanced(q, op.n)) == Unread(q)[n..];
    } else if op.Put? {
      assert [] + (q.kept + op.bytes)[q.read..] == q.kept[q.read..] + op.bytes;
    } else {
      assert [] + Unread(q) == Unread(q) + [];
    }
  }

  /** Peeking and skipping what was seen delivers and leaves what reading does. */
  lemma PeekSkipIsRead(q: Queue, n: nat)
    requires Fits(q)
    ensures Output(q, Peek(n)) == Output(q, Read(n))
    ensures Apply(Apply(q, Peek(n)), Skip(|Output(q, Peek(n))|)) == Apply(q, Read(n))
  {
  }
}
