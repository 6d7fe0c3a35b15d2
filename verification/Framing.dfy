/**
 * Cutting the byte stream of a peer into messages. The wire decoder is a parameter; all that is
 * asked of it is that more bytes never change a verdict it has already given.
 */
module Framing {
  import opened Buffer

  /** What the decoder makes of the bytes so far; `size` is how many it consumed. */
  datatype Frame<M> = NeedMore | Message(msg: M, size: nat) | Malformed(size: nat)

  type Decoder<M> = seq<byte> -> Frame<M>

  /** A verdict consumes at least one byte, none that is not there, and does not depend on what follows. */
  ghost predicate StableOn<M>(d: Decoder<M>, s: seq<byte>, t: seq<byte>) {
    !d(s).NeedMore? ==> 0 < d(s).size <= |s| && d(s + t) == d(s)
  }

  ghost predicate PrefixStable<M>(d: Decoder<M>) {
    forall s, t :: StableOn(d, s, t)
  }

  // ----- the whole stream at once

  /** Every frame of a byte stream, going on after a malformed one. */
  ghost function Frames<M>(d: Decoder<M>, s: seq<byte>): (fs: seq<Frame<M>>)
    requires PrefixStable(d)
    decreases |s|
  {
    assert StableOn(d, s, []);
    if d(s).NeedMore? then [] else [d(s)] + Frames(d, s[d(s).size..])
  }

  ghost predicate Clean<M>(fs: seq<Frame<M>>) {
    forall i :: 0 <= i < |fs| ==> !fs[i].Malformed?
  }

  // ----- one read event, and a sequence of them

  /** What the read loop extracts from the buffered bytes: frames up to a malformed one or until it needs more. */
  ghost function Burst<M>(d: Decoder<M>, s: seq<byte>): (r: (seq<Frame<M>>, seq<byte>))
    requires PrefixStable(d)
    decreases |s|
  {
    assert StableOn(d, s, []);
    match d(s)
    case NeedMore => ([], s)
    case Message(_, n) => var r := Burst(d, s[n..]); ([d(s)] + r.0, r.1)
    case Malformed(n) => ([d(s)], s[n..])
  }

  /** Frames and remaining bytes after a sequence of reads, each processed as it arrives. */
  ghost function Arrivals<M>(d: Decoder<M>, pending: seq<byte>, pieces: seq<seq<byte>>): (r: (seq<Frame<M>>, seq<byte>))
    requires PrefixStable(d)
    decreases |pieces|
  {
    if pieces == [] then ([], pending)
    else
      var b := Burst(d, pending + pieces[0]);
      var r := Arrivals(d, b.1, pieces[1..]);
      (b.0 + r.0, r.1)
  }

  ghost function Joined(pieces: seq<seq<byte>>): (s: seq<byte>)
    decreases |pieces|
  {
    if pieces == [] then [] else pieces[0] + Joined(pieces[1..])
  }

  /** A burst takes the first frames of the stream and leaves the rest, whatever bytes come later. */
  lemma {:induction false} BurstIsPrefix<M>(d: Decoder<M>, s: seq<byte>, t: seq<byte>)
    requires PrefixStable(d)
    ensures Frames(d, s + t) == Burst(d, s).0 + Frames(d, Burst(d, s).1 + t)
    ensures Clean(Burst(d, s).0) ==> d(Burst(d, s).1).NeedMore?
    decreases |s|
  {
    assert StableOn(d, s, []) && StableOn(d, s, t);
    if d(s).NeedMore? {
      assert [] + Frames(d, s + t) == Frames(d, s + t);
    } else {
      var n := d(s).size;
      assert (s + t)[n..] == s[n..] + t;
      if d(s).Message? {
        BurstIsPrefix(d, s[n..], t);
        var r := Burst(d, s[n..]);
        assert Burst(d, s).0 == [d(s)] + r.0;
        assert [d(s)] + (r.0 + Frames(d, r.1 + t)) == [d(s)] + r.0 + Frames(d, r.1 + t);
        assert Clean([d(s)] + r.0) ==> Clean(r.0) by {
          assert forall i :: 0 <= i < |r.0| ==> ([d(s)] + r.0)[i + 1] == r.0[i];
        }
      } else {
        assert Burst(d, s).0[0].Malformed?;
      }
    }
  }

  /** A burst has a malformed frame only as its last one. */
  lemma {:induction false} BurstShape<M>(d: Decoder<M>, s: seq<byte>)
    requires PrefixStable(d)
    ensures var fs := Burst(d, s).0;
            !Clean(fs) ==> fs != [] && fs[|fs| - 1].Malformed? && Clean(fs[..|fs| - 1])
    decreases |s|
  {
    assert StableOn(d, s, []);
    if d(s).Message? {
      BurstShape(d, s[d(s).size..]);
      var r := Burst(d, s[d(s).size..]).0;
      var fs := [d(s)] + r;
      assert Burst(d, s).0 == fs;
      CleanConcat([d(s)], r);
      if !Clean(fs) {
        assert fs[..|fs| - 1] == [d(s)] + r[..|r| - 1];
        CleanConcat([d(s)], r[..|r| - 1]);
      }
    }
  }

  /** The last of a sequence of reads works on what the others left. */
  lemma {:induction false} ArrivalsLast<M>(d: Decoder<M>, pending: seq<byte>, pieces: seq<seq<byte>>)
    requires PrefixStable(d) && pieces != []
    ensures var r := Arrivals(d, pending, pieces[..|pieces| - 1]);
            var b := Burst(d, r.1 + pieces[|pieces| - 1]);
            Arrivals(d, pending, pieces) == (r.0 + b.0, b.1)
    decreases |pieces|
  {
    hide Burst, PrefixStable;
    if |pieces| == 1 {
      assert pieces[..0] == [] && pieces[1..] == [];
      var b := Burst(d, pending + pieces[0]);
      assert Arrivals(d, b.1, []) == ([], b.1);
      assert b.0 + [] == b.0 && [] + b.0 == b.0;
    } else {
      var b := Burst(d, pending + pieces[0]);
      var rest := pieces[1..];
      ArrivalsLast(d, b.1, rest);
      var front := pieces[..|pieces| - 1];
      assert front[1..] == rest[..|rest| - 1] && front[0] == pieces[0];
      var r := Arrivals(d, b.1, rest[..|rest| - 1]);
      var b2 := Burst(d, r.1 + pieces[|pieces| - 1]);
      assert b.0 + (r.0 + b2.0) == b.0 + r.0 + b2.0;
    }
  }

  /**
   * Framing conserves the stream: the frames extracted over any sequence of reads, followed by the
   * frames still in the buffer, are the frames of the whole stream.
   */
  lemma {:induction false} ArrivalsConserve<M>(d: Decoder<M>, pending: seq<byte>, pieces: seq<seq<byte>>)
    requires PrefixStable(d)
    ensures var r := Arrivals(d, pending, pieces);
            && Frames(d, pending + Joined(pieces)) == r.0 + Frames(d, r.1)
            && (Clean(r.0) && (pieces != [] || d(pending).NeedMore?) ==> d(r.1).NeedMore?)
    decreases |pieces|
  {
    if pieces == [] {
      assert pending + Joined(pieces) == pending;
      assert [] + Frames(d, pending) == Frames(d, pending);
    } else {
      var rest := Joined(pieces[1..]);
      var b := Burst(d, pending + pieces[0]);
      BurstIsPrefix(d, pending + pieces[0], rest);
      assert pending + (pieces[0] + rest) == pending + pieces[0] + rest;
      ArrivalsConserve(d, b.1, pieces[1..]);
      var r := Arrivals(d, b.1, pieces[1..]);
      assert b.0 + (r.0 + Frames(d, r.1)) == b.0 + r.0 + Frames(d, r.1);
      CleanConcat(b.0, r.0);
    }
  }

  lemma CleanConcat<M>(a: seq<Frame<M>>, b: seq<Frame<M>>)
    ensures Clean(a + b) <==> Clean(a) && Clean(b)
  {
    if Clean(a + b) {
      assert forall i :: 0 <= i < |a| ==> (a + b)[i] == a[i];
      assert forall i :: 0 <= i < |b| ==> (a + b)[|a| + i] == b[i];
    }
  }

  /** Without malformed frames, a sequence of reads yields exactly the frames of the stream and keeps an incomplete rest. */
  lemma ArrivalsComplete<M>(d: Decoder<M>, pieces: seq<seq<byte>>)
    requires PrefixStable(d) && pieces != [] && Clean(Frames(d, Joined(pieces)))
    ensures Arrivals(d, [], pieces).0 == Frames(d, Joined(pieces))
    ensures d(Arrivals(d, [], pieces).1).NeedMore?
  {
    ArrivalsConserve(d, [], pieces);
    var r := Arrivals(d, [], pieces);
    assert [] + Joined(pieces) == Joined(pieces);
    CleanConcat(r.0, Frames(d, r.1));
    assert r.0 + [] == r.0;
  }

  /**
   * With malformed frames in the stream, any sequence of reads still yields the frames of the
   * stream in order, and gets at least past the first malformed one.
   */
  lemma ArrivalsReachMalformed<M>(d: Decoder<M>, pieces: seq<seq<byte>>, k: nat)
    requires PrefixStable(d) && pieces != []
    requires var fs := Frames(d, Joined(pieces)); k < |fs| && fs[k].Malformed? && Clean(fs[..k])
    ensures var fs := Frames(d, Joined(pieces));
            var r := Arrivals(d, [], pieces).0;
            k < |r| <= |fs| && r == fs[..|r|]
  {
    ArrivalsConserve(d, [], pieces);
    var fs := Frames(d, Joined(pieces));
    var r := Arrivals(d, [], pieces);
    assert [] + Joined(pieces) == Joined(pieces);
    assert fs[..|r.0|] == r.0;
    assert |r.0| <= k ==> Clean(r.0);
    assert d(r.1).NeedMore? ==> Frames(d, r.1) == [];
  }

  /** How the network splits a stream without malformed frames makes no difference to the messages. */
  lemma SplittingIrrelevant<M>(d: Decoder<M>, pieces: seq<seq<byte>>, pieces': seq<seq<byte>>)
    requires PrefixStable(d) && pieces != [] && pieces' != [] && Joined(pieces) == Joined(pieces')
    requires Clean(Frames(d, Joined(pieces)))
    ensures Arrivals(d, [], pieces).0 == Arrivals(d, [], pieces').0
  {
    ArrivalsComplete(d, pieces);
    ArrivalsComplete(d, pieces');
  }

  // ----- the code

  /**
   * Decodes one message from the buffer: a message or a malformed frame is committed, an
   * incomplete one is rolled back. The decoder's pulls are one read of the bytes it consumes.
   */
  method Decode<M>(d: Decoder<M>, src: Buffer) returns (f: Frame<M>)
    requires PrefixStable(d)
    requires src.Valid() && src.Contents().read == 0
    modifies src
    ensures src.Valid()
    ensures f == d(old(src.Contents()).kept)
    ensures f.NeedMore? || f.size <= |old(src.Contents()).kept|
    ensures src.Contents() == Queue(if f.NeedMore? then old(src.Contents()).kept else old(src.Contents()).kept[f.size..], 0)
  {
    ghost var q := src.Contents();
    var n := src.Len();
    var seen := new byte[n];
    var have := src.ReadAhead(seen);
    assert seen[..] == seen[..have] == q.kept;
    f := d(seen[..]);
    assert StableOn(d, q.kept, []);
    var pulled := new byte[if f.NeedMore? then n else f.size];
    have := src.ReadAdvance(pulled);
    if f.NeedMore? {
      src.Rollback();
    } else {
      src.Commit();
    }
  }

  /** One readable event: buffer the bytes, then decode until more are needed or a frame is malformed. */
  method Receive<M>(d: Decoder<M>, src: Buffer, bytes: seq<byte>) returns (frames: seq<Frame<M>>)
    requires PrefixStable(d)
    requires src.Valid() && src.Contents().read == 0
    modifies src
    ensures src.Valid() && src.Contents().read == 0
    ensures (frames, src.Contents().kept) == Burst(d, old(src.Contents()).kept + bytes)
  {
    hide Flat, Index, At, Burst, PrefixStable;
    ghost var all := src.Contents().kept + bytes;
    var written := src.Write(bytes);
    frames := [];
    ghost var s := all;
    assert [] + Burst(d, all).0 == Burst(d, all).0;
    while true
      invariant src.Valid() && src.Contents() == Queue(s, 0)
      invariant Burst(d, all) == (frames + Burst(d, s).0, Burst(d, s).1)
      decreases |s|
    {
      BurstStep(d, s, frames);
      var f := Decode(d, src);
      if f.NeedMore? {
        return;
      }
      frames := frames + [f];
      if f.Malformed? {
        return;
      }
      s := s[f.size..];
    }
  }

  /** One turn of the read loop, added to what it has already extracted. */
  lemma BurstStep<M>(d: Decoder<M>, s: seq<byte>, frames: seq<Frame<M>>)
    requires PrefixStable(d)
    ensures !d(s).NeedMore? ==> 0 < d(s).size <= |s|
    ensures d(s).NeedMore? ==> frames + Burst(d, s).0 == frames && Burst(d, s).1 == s
    ensures d(s).Malformed? ==> frames + Burst(d, s).0 == frames + [d(s)] && Burst(d, s).1 == s[d(s).size..]
    ensures d(s).Message? ==>
              var r := Burst(d, s[d(s).size..]);
              Burst(d, s).1 == r.1 && frames + Burst(d, s).0 == frames + [d(s)] + r.0
  {
    assert StableOn(d, s, []);
    hide PrefixStable;
    var b := Burst(d, s);
    match d(s)
    case NeedMore =>
      assert b == ([], s);
    case Malformed(n) =>
      assert b == ([d(s)], s[n..]);
    case Message(_, n) =>
      var r := Burst(d, s[n..]);
      assert b == ([d(s)] + r.0, r.1);
      hide Burst;
      Regroup(frames, d(s), r.0);
  }

  lemma Regroup<M>(a: seq<M>, x: M, b: seq<M>)
    ensures a + ([x] + b) == a + [x] + b
  {
  }

  /** A sequence of readable events on a fresh buffer. */
  method ReceiveAll<M>(d: Decoder<M>, pieces: seq<seq<byte>>) returns (frames: seq<Frame<M>>)
    requires PrefixStable(d)
    ensures frames == Arrivals(d, [], pieces).0
    ensures pieces != [] && Clean(Frames(d, Joined(pieces))) ==> frames == Frames(d, Joined(pieces))
  {
    var src := new Buffer();
    frames := [];
    assert Arrivals(d, [], pieces[..0]) == ([], []) && pieces[..|pieces|] == pieces;
    hide Flat, Index, At, Burst, PrefixStable, Frames, Clean, Arrivals, Joined;
    for i := 0 to |pieces|
      invariant src.Valid() && fresh(src) && src.Contents().read == 0
      invariant Arrivals(d, [], pieces[..i]) == (frames, src.Contents().kept)
    {
      assert pieces[..i + 1][..i] == pieces[..i];
      ArrivalsLast(d, [], pieces[..i + 1]);
      var more := Receive(d, src, pieces[i]);
      frames := frames + more;
    }
    if pieces != [] && Clean(Frames(d, Joined(pieces))) {
      ArrivalsComplete(d, pieces);
    }
  }
}
