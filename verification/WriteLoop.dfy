/**
 * The writable branch of `event_processor`: unfinished bytes first, then one queued message after
 * the other. What the socket does with each write is a script of answers; the model stops at the
 * write after the last one, so what it says holds at every moment of an event that never ends.
 */
module WriteLoop {
  import opened Buffer

  /** Result of one socket write: refused with an error, or up to `n` bytes taken (0 means it would block). */
  datatype SocketWrite = Refused | Took(n: nat)

  /** How the offer of some bytes ended: taken, blocked, refused, or waiting for an answer. */
  datatype Offered = Taken | Blocked | Rejected | Waiting

  /** Number of answers other than that the write would block. */
  function Definite(script: seq<SocketWrite>): (n: nat)
  {
    if script == [] then 0 else Definite(script[1..]) + if script[0] == Took(0) then 0 else 1
  }

  /** The encodings of queued messages, in order. */
  ghost function Wire(messages: seq<seq<byte>>): (s: seq<byte>)
  {
    if messages == [] then [] else Wire(messages[..|messages| - 1]) + messages[|messages| - 1]
  }

  lemma {:induction false} WireSplit(messages: seq<seq<byte>>)
    requires messages != []
    ensures Wire(messages) == messages[0] + Wire(messages[1..])
    decreases |messages|
  {
    var front := messages[..|messages| - 1];
    if front == [] {
      assert messages == [messages[0]];
    } else {
      WireSplit(front);
      assert messages[1..][..|messages| - 2] == front[1..];
    }
  }

  class Writer {
    const buffer: Buffer
    // encodings of messages waiting in the channel
    var queue: seq<seq<byte>>
    // what the socket has taken
    var sent: seq<byte>

    ghost predicate Valid()
      reads this, buffer
    {
      buffer.Valid() && buffer.Contents().read == 0
    }

    /** Everything on its way: taken by the socket, buffered, or queued. */
    ghost function Stream(): (s: seq<byte>)
      requires Valid()
      reads this, buffer
    {
      sent + buffer.Contents().kept + Wire(queue)
    }

    constructor ()
      ensures Valid() && fresh(buffer) && Stream() == [] && queue == []
    {
      buffer := new Buffer();
      queue := [];
      sent := [];
    }

    method Enqueue(message: seq<byte>)
      requires Valid()
      modifies this`queue
      ensures Valid() && queue == old(queue) + [message] && Stream() == old(Stream()) + message
    {
      queue := queue + [message];
      assert queue[..|queue| - 1] == old(queue);
    }

    /**
     * Offers the first `len` buffered bytes to the socket until they are taken, it blocks or it
     * refuses. Every definite answer but a refusal takes a byte.
     */
    method Offer(iobuf: array<byte>, len: nat, script: seq<SocketWrite>) returns (left: seq<SocketWrite>, outcome: Offered)
      requires Valid() && 0 < len <= iobuf.Length && len <= |buffer.Contents().kept|
      requires iobuf[..len] == buffer.Contents().kept[..len]
      modifies this`sent, buffer
      ensures Valid() && queue == old(queue)
      ensures old(sent) <= sent && sent + buffer.Contents().kept == old(sent) + old(buffer.Contents().kept)
      ensures |left| <= |script| && (outcome.Blocked? ==> |left| < |script|) && (outcome.Waiting? ==> left == [])
      ensures Definite(script) + |old(sent)| <= Definite(left) + |sent| + if outcome.Rejected? then 1 else 0
      ensures Definite(script) == 0 ==> Definite(left) == 0 && sent == old(sent) && (outcome.Blocked? || outcome.Waiting?)
    {
      hide Flat, Index, At, Definite;
      ghost var bytes := iobuf[..len];
      left, outcome := script, Taken;
      var wrote := 0;
      while wrote < len
        invariant Valid() && 0 <= wrote <= len && |left| <= |script| && old(sent) <= sent
        invariant sent + buffer.Contents().kept == old(sent) + old(buffer.Contents().kept)
        invariant len - wrote <= |buffer.Contents().kept| && bytes[wrote..] == buffer.Contents().kept[..len - wrote]
        invariant iobuf[..len] == bytes
        invariant Definite(script) == 0 ==> Definite(left) == 0 && sent == old(sent) && wrote == 0
        invariant outcome.Taken? && Definite(script) + |old(sent)| <= Definite(left) + |sent|
        decreases |left|
      {
        if left == [] {
          outcome := Waiting;
          break;
        }
        var answer := left[0];
        DefiniteFirst(left);
        left := left[1..];
        if answer.Refused? {
          outcome := Rejected;
          break;
        }
        var wlen := Min(answer.n, len - wrote);
        if wlen == 0 {
          outcome := Blocked;
          break;
        }
        SubSlice(bytes, wrote, wlen, buffer.Contents().kept);
        assert iobuf[wrote..wrote + wlen] == bytes[wrote..wrote + wlen];
        Hand(iobuf[wrote..wrote + wlen]);
        wrote := wrote + wlen;
      }
    }

    /** The socket took these bytes from the front of the buffer. */
    method Hand(bytes: seq<byte>)
      requires Valid() && bytes != [] && bytes <= buffer.Contents().kept
      modifies this`sent, buffer
      ensures Valid() && sent == old(sent) + bytes && buffer.Contents().kept == old(buffer.Contents().kept)[|bytes|..]
      ensures sent + buffer.Contents().kept == old(sent) + old(buffer.Contents().kept)
    {
      hide Flat, Index, At;
      ghost var kept := buffer.Contents().kept;
      KeptNotEmpty(buffer);
      var advanced := buffer.Advance(|bytes|);
      buffer.Commit();
      sent := sent + bytes;
      HandedOver(old(sent), bytes, kept);
    }

    /** Bytes and messages the socket has not taken yet. */
    ghost function Unsent(): (n: nat)
      requires Valid()
      reads this, buffer
    {
      |buffer.Contents().kept| + |Wire(queue)| + |queue|
    }

    /**
     * One writable event. No byte is lost, duplicated or reordered, at any moment; the event ends
     * only when the message queue is empty, and it does end once the socket has given more definite
     * answers than there are bytes and messages to send. While the socket only blocks it does not end.
     */
    method Writable(iobuf: array<byte>, script: seq<SocketWrite>) returns (finished: bool)
      requires Valid()
      modifies this, buffer, iobuf
      ensures Valid() && Stream() == old(Stream()) && old(sent) <= sent
      ensures finished ==> queue == []
      ensures Definite(script) > old(Unsent()) ==> finished
      ensures Definite(script) == 0 && old(buffer.Contents().kept) != [] && iobuf.Length > 0 ==> !finished && sent == old(sent)
    {
      hide Flat, Index, At, Wire, Definite;
      var left := script;
      while true
        invariant Valid() && Stream() == old(Stream()) && old(sent) <= sent
        invariant Definite(script) == 0 && old(buffer.Contents().kept) != [] && iobuf.Length > 0 ==>
                    Definite(left) == 0 && sent == old(sent) && buffer.Contents().kept != []
        invariant Definite(script) + Unsent() <= Definite(left) + old(Unsent())
        decreases |left| + |queue|
      {
        var outcome := Taken;
        var len := buffer.ReadAhead(iobuf);
        if len > 0 {
          left, outcome := Offer(iobuf, len, left);
        }
        if outcome.Waiting? {
          NoAnswers();
          return false;
        }
        if !outcome.Blocked? {
          if queue == [] {
            return true;
          }
          Refill();
        }
      }
    }

    /** Takes the next message from the channel into the buffer. */
    method Refill()
      requires Valid() && queue != []
      modifies this`queue, buffer
      ensures Valid() && Stream() == old(Stream()) && |queue| == |old(queue)| - 1 && sent == old(sent)
    {
      hide Flat, Index, At;
      WireSplit(queue);
      ghost var kept := buffer.Contents().kept;
      var n := buffer.Write(queue[0]);
      assert sent + kept + (queue[0] + Wire(queue[1..])) == sent + (kept + queue[0]) + Wire(queue[1..]);
      queue := queue[1..];
    }
  }

  lemma NoAnswers()
    ensures Definite([]) == 0
  {
  }

  lemma HandedOver(sent: seq<byte>, bytes: seq<byte>, kept: seq<byte>)
    requires bytes <= kept
    ensures sent + bytes + kept[|bytes|..] == sent + kept
  {
    assert bytes + kept[|bytes|..] == kept;
    assert sent + bytes + kept[|bytes|..] == sent + (bytes + kept[|bytes|..]);
  }

  /** The next bytes offered are the next bytes buffered, and so are those after them. */
  lemma SubSlice(bytes: seq<byte>, wrote: nat, n: nat, kept: seq<byte>)
    requires wrote + n <= |bytes| && |bytes| - wrote <= |kept| && bytes[wrote..] == kept[..|bytes| - wrote]
    ensures bytes[wrote..wrote + n] <= kept && bytes[wrote + n..] == kept[n..][..|bytes| - wrote - n]
  {
    var rest := bytes[wrote..];
    assert bytes[wrote..wrote + n] == rest[..n] && bytes[wrote + n..] == rest[n..];
  }

  lemma DefiniteFirst(script: seq<SocketWrite>)
    requires script != []
    ensures Definite(script) == Definite(script[1..]) + if script[0] == Took(0) then 0 else 1
  {
  }

  /** A buffer with unread bytes has a chunk. */
  lemma KeptNotEmpty(b: Buffer)
    requires b.Valid() && b.Contents().kept != []
    ensures b.chunks != []
  {
  }

  datatype WireEvent = Queued(message: seq<byte>) | CanWrite(script: seq<SocketWrite>)

  ghost function QueuedBytes(events: seq<WireEvent>): (s: seq<byte>)
  {
    if events == [] then []
    else
      var last := events[|events| - 1];
      QueuedBytes(events[..|events| - 1]) + if last.Queued? then last.message else []
  }

  /**
   * Wire conservation over any life of a peer: bytes taken by the socket, then buffered bytes, then
   * queued messages are exactly the encodings of all messages ever queued, in order.
   */
  method Live(events: seq<WireEvent>, iobuf: array<byte>) returns (w: Writer)
    modifies iobuf
    ensures fresh(w) && fresh(w.buffer) && w.Valid() && w.Stream() == QueuedBytes(events)
  {
    w := new Writer();
    assert events[..|events|] == events;
    for i := 0 to |events|
      invariant fresh(w) && fresh(w.buffer) && w.Valid() && w.Stream() == QueuedBytes(events[..i])
    {
      assert events[..i + 1][..i] == events[..i];
      match events[i]
      case Queued(message) => w.Enqueue(message);
      case CanWrite(script) =>
        var finished := w.Writable(iobuf, script);
    }
  }
}
