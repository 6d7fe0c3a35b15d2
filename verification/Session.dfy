/**
 * The readable branch of `event_processor` as an object: bytes go into the read buffer, messages
 * come out of it one by one and drive the handshake. Proved against `Framing` and `Handshake`, and
 * joined into one statement from raw bytes to dispatched events.
 */
module Session {
  import opened Wrappers
  import opened Buffer
  import opened Framing
  import Services
  import H = Handshake
  import Law = HandshakeLaws

  /** The messages among some frames. */
  function Messages(fs: seq<Frame<H.Msg>>): (ms: seq<H.Msg>)
  {
    if fs == [] then []
    else
      var last := fs[|fs| - 1];
      Messages(fs[..|fs| - 1]) + if last.Message? then [last.msg] else []
  }

  lemma {:induction false} MessagesConcat(a: seq<Frame<H.Msg>>, b: seq<Frame<H.Msg>>)
    ensures Messages(a + b) == Messages(a) + Messages(b)
    decreases |b|
  {
    if b == [] {
      assert a + b == a;
    } else {
      assert (a + b)[..|a + b| - 1] == a + b[..|b| - 1];
      MessagesConcat(a, b[..|b| - 1]);
    }
  }

  /** The read event that arriving bytes amount to, given the bytes still buffered. */
  ghost function EventOf(d: Decoder<H.Msg>, pending: seq<byte>, bytes: seq<byte>, height: nat): (e: H.Event)
    requires PrefixStable(d)
    ensures e.Read?
  {
    var fs := Burst(d, pending + bytes).0;
    H.Read(Messages(fs), !Clean(fs), bytes == [], height)
  }

  // ----- from bytes to dispatched events

  /** The bytes of one read and this node's height at that time; a read of no bytes is the end of the stream. */
  datatype Input = Input(bytes: seq<byte>, height: nat)

  function Bytes(inputs: seq<Input>): (pieces: seq<seq<byte>>)
    ensures |pieces| == |inputs|
    ensures forall i :: 0 <= i < |inputs| ==> pieces[i] == inputs[i].bytes
  {
    seq(|inputs|, i requires 0 <= i < |inputs| => inputs[i].bytes)
  }

  lemma BytesLast(inputs: seq<Input>)
    requires inputs != []
    ensures var front := inputs[..|inputs| - 1];
            Bytes(inputs)[..|inputs| - 1] == Bytes(front) && Bytes(inputs) == Bytes(front) + [inputs[|inputs| - 1].bytes]
  {
  }

  /** The last read as an event, given the reads before it. */
  ghost function LastEvent(d: Decoder<H.Msg>, pending: seq<byte>, inputs: seq<Input>): (e: H.Event)
    requires PrefixStable(d) && inputs != []
    ensures e.Read?
  {
    var last := inputs[|inputs| - 1];
    EventOf(d, Arrivals(d, pending, Bytes(inputs[..|inputs| - 1])).1, last.bytes, last.height)
  }

  /** The peer and its log after a sequence of reads. */
  ghost function Conversation(cfg: H.Config, d: Decoder<H.Msg>, c: H.Conn, pending: seq<byte>, inputs: seq<Input>): (c': H.Conn)
    requires PrefixStable(d)
    decreases |inputs|
  {
    if inputs == [] then c
    else H.OnEvent(cfg, Conversation(cfg, d, c, pending, inputs[..|inputs| - 1]), LastEvent(d, pending, inputs))
  }

  /** Non-empty reads at one height whose frames are all well formed amount to one clean read of all their messages. */
  lemma ConversationIsOneRead(cfg: H.Config, d: Decoder<H.Msg>, c: H.Conn, pending: seq<byte>, inputs: seq<Input>, height: nat)
    requires PrefixStable(d) && inputs != [] && (c.peer.Some? ==> H.PeerOk(c.peer.value))
    requires forall i :: 0 <= i < |inputs| ==> inputs[i].bytes != [] && inputs[i].height == height
    requires Clean(Frames(d, pending + Joined(Bytes(inputs))))
    ensures Conversation(cfg, d, c, pending, inputs)
         == H.OnEvent(cfg, c, H.CleanRead(Messages(Frames(d, pending + Joined(Bytes(inputs)))), height))
  {
    hide H.OnEvent, H.PeerOk, Messages, Joined, Conversation;
    AllArrived(d, pending, Bytes(inputs));
    CleanReadsMerge(cfg, d, c, pending, inputs, height);
  }

  /** A well-formed stream is taken whole. */
  lemma AllArrived(d: Decoder<H.Msg>, pending: seq<byte>, pieces: seq<seq<byte>>)
    requires PrefixStable(d) && pieces != [] && Clean(Frames(d, pending + Joined(pieces)))
    ensures Arrivals(d, pending, pieces).0 == Frames(d, pending + Joined(pieces))
  {
    ArrivalsConserve(d, pending, pieces);
    var r := Arrivals(d, pending, pieces);
    CleanConcat(r.0, Frames(d, r.1));
    hide Arrivals, Joined;
    assert Frames(d, r.1) == [] && r.0 + [] == r.0;
  }

  lemma {:induction false} CleanReadsMerge(cfg: H.Config, d: Decoder<H.Msg>, c: H.Conn, pending: seq<byte>, inputs: seq<Input>, height: nat)
    requires PrefixStable(d) && inputs != [] && (c.peer.Some? ==> H.PeerOk(c.peer.value))
    requires forall i :: 0 <= i < |inputs| ==> inputs[i].bytes != [] && inputs[i].height == height
    requires Clean(Arrivals(d, pending, Bytes(inputs)).0)
    ensures Conversation(cfg, d, c, pending, inputs)
         == H.OnEvent(cfg, c, H.CleanRead(Messages(Arrivals(d, pending, Bytes(inputs)).0), height))
    decreases |inputs|
  {
    hide H.OnEvent, H.PeerOk, Burst, Messages, PrefixStable, Bytes;
    var front, last := inputs[..|inputs| - 1], inputs[|inputs| - 1];
    BytesLast(inputs);
    ArrivalsLast(d, pending, Bytes(inputs));
    var r := Arrivals(d, pending, Bytes(front));
    var b := Burst(d, r.1 + last.bytes);
    CleanConcat(r.0, b.0);
    MessagesConcat(r.0, b.0);
    if front == [] {
      assert [] + b.0 == b.0;
    } else {
      hide Arrivals;
      CleanReadsMerge(cfg, d, c, pending, front, height);
      H.TwoReads(cfg, c, height, Messages(r.0), Messages(b.0));
    }
  }

  // ----- every stream, every split

  /** Every message taken from the stream, with the height of its read and whether that read ended cleanly. */
  ghost function HeardIn(d: Decoder<H.Msg>, inputs: seq<Input>): (hs: seq<Law.Heard>)
    requires PrefixStable(d)
    decreases |inputs|
  {
    if inputs == [] then []
    else
      var e := LastEvent(d, [], inputs);
      HeardIn(d, inputs[..|inputs| - 1]) + Law.Tagged(e.msgs, e.height, !e.malformed && !e.closed)
  }

  /** Number of reads that ran into a malformed frame. */
  ghost function MalformedReads(d: Decoder<H.Msg>, inputs: seq<Input>): (n: nat)
    requires PrefixStable(d)
    decreases |inputs|
  {
    if inputs == [] then 0
    else MalformedReads(d, inputs[..|inputs| - 1]) + if LastEvent(d, [], inputs).malformed then 1 else 0
  }

  /** Some read found the end of the stream, and no malformed frame left over by earlier reads. */
  ghost predicate Ended(d: Decoder<H.Msg>, inputs: seq<Input>)
    requires PrefixStable(d)
    decreases |inputs|
  {
    inputs != [] && (Ended(d, inputs[..|inputs| - 1]) || (LastEvent(d, [], inputs).closed && !LastEvent(d, [], inputs).malformed))
  }

  /** What keeps a peer: messages in order, fewer than ten malformed reads, no end of the stream. */
  ghost predicate Survives(cfg: H.Config, d: Decoder<H.Msg>, outgoing: bool, inputs: seq<Input>)
    requires PrefixStable(d)
  {
    Law.Opening(cfg, outgoing, HeardIn(d, inputs)) && 10 * MalformedReads(d, inputs) < 100 && !Ended(d, inputs)
  }

  /** Whether the read that cost the peer its place banned it. */
  ghost predicate Banned(cfg: H.Config, d: Decoder<H.Msg>, outgoing: bool, inputs: seq<Input>)
    requires PrefixStable(d) && inputs != []
  {
    var hs := HeardIn(d, inputs);
    if Law.Opening(cfg, outgoing, hs) then LastEvent(d, [], inputs).malformed else Law.Fault(cfg, outgoing, hs)
  }

  /** The peer its messages make, with ten points of ban score for each malformed read, and the log they dispatch. */
  ghost predicate Stays(cfg: H.Config, d: Decoder<H.Msg>, outgoing: bool, inputs: seq<Input>, c: H.Conn)
    requires PrefixStable(d)
  {
    var hs := HeardIn(d, inputs);
    c == H.Conn(Some(Law.Greeting(cfg, outgoing, 10 * MalformedReads(d, inputs), hs)), Law.Dispatched(cfg, outgoing, hs))
  }

  /** The k-th read is the first the peer does not survive; one disconnection follows what was dispatched. */
  ghost predicate LostAt(cfg: H.Config, d: Decoder<H.Msg>, outgoing: bool, inputs: seq<Input>, k: nat, c: H.Conn)
    requires PrefixStable(d)
  {
    && 0 < k <= |inputs| && Survives(cfg, d, outgoing, inputs[..k - 1]) && !Survives(cfg, d, outgoing, inputs[..k])
    && var hs := HeardIn(d, inputs[..k]);
       c == H.Conn(None, Law.Dispatched(cfg, outgoing, hs) + [H.Disconnected(Banned(cfg, d, outgoing, inputs[..k]))])
  }

  /**
   * From raw bytes to peer and log, for every stream, however split, at any heights, with malformed
   * frames and the end of the stream anywhere: a peer that survives stays as its messages made it,
   * any other is lost at the first read it does not survive.
   */
  lemma {:induction false} StreamLaw(cfg: H.Config, d: Decoder<H.Msg>, outgoing: bool, inputs: seq<Input>) returns (k: nat)
    requires PrefixStable(d)
    ensures var c := Conversation(cfg, d, H.NewConn(outgoing), [], inputs);
            if Survives(cfg, d, outgoing, inputs) then Stays(cfg, d, outgoing, inputs, c)
            else LostAt(cfg, d, outgoing, inputs, k, c)
    decreases |inputs|
  {
    hide Survives, LastEvent, H.OnEvent, PrefixStable, Stays, LostAt;
    if inputs == [] {
      k := 0;
      StreamStart(cfg, d, outgoing);
    } else {
      var front := inputs[..|inputs| - 1];
      k := StreamLaw(cfg, d, outgoing, front);
      SurvivesFirst(cfg, d, outgoing, inputs);
      if Survives(cfg, d, outgoing, front) {
        StreamStep(cfg, d, outgoing, inputs);
        k := |inputs|;
      } else {
        LostBefore(cfg, d, outgoing, inputs, k);
      }
    }
  }

  /** A lost peer stays lost. */
  lemma LostBefore(cfg: H.Config, d: Decoder<H.Msg>, outgoing: bool, inputs: seq<Input>, k: nat)
    requires PrefixStable(d) && inputs != []
    requires var front := inputs[..|inputs| - 1];
             LostAt(cfg, d, outgoing, front, k, Conversation(cfg, d, H.NewConn(outgoing), [], front))
    ensures LostAt(cfg, d, outgoing, inputs, k, Conversation(cfg, d, H.NewConn(outgoing), [], inputs))
  {
    hide Survives, LastEvent, H.OnEvent, PrefixStable, Banned, HeardIn, Law.Dispatched;
    var front := inputs[..|inputs| - 1];
    assert front[..k] == inputs[..k] && front[..k - 1] == inputs[..k - 1];
    Law.GoneStays(cfg, Conversation(cfg, d, H.NewConn(outgoing), [], front), LastEvent(d, [], inputs));
  }

  lemma StreamStart(cfg: H.Config, d: Decoder<H.Msg>, outgoing: bool)
    requires PrefixStable(d)
    ensures Survives(cfg, d, outgoing, []) && Stays(cfg, d, outgoing, [], H.NewConn(outgoing))
  {
  }

  lemma SurvivesFirst(cfg: H.Config, d: Decoder<H.Msg>, outgoing: bool, inputs: seq<Input>)
    requires PrefixStable(d) && inputs != []
    ensures Survives(cfg, d, outgoing, inputs) ==> Survives(cfg, d, outgoing, inputs[..|inputs| - 1])
  {
    hide LastEvent, Law.Opening, PrefixStable, Law.Tagged;
    var e := LastEvent(d, [], inputs);
    Law.OpeningPrefix(cfg, outgoing, HeardIn(d, inputs[..|inputs| - 1]), Law.Tagged(e.msgs, e.height, !e.malformed && !e.closed));
  }

  /** One read of a surviving peer. */
  lemma StreamStep(cfg: H.Config, d: Decoder<H.Msg>, outgoing: bool, inputs: seq<Input>)
    requires PrefixStable(d) && inputs != []
    requires var front := inputs[..|inputs| - 1];
             Survives(cfg, d, outgoing, front) && Stays(cfg, d, outgoing, front, Conversation(cfg, d, H.NewConn(outgoing), [], front))
    ensures var c := Conversation(cfg, d, H.NewConn(outgoing), [], inputs);
            if Survives(cfg, d, outgoing, inputs) then Stays(cfg, d, outgoing, inputs, c)
            else LostAt(cfg, d, outgoing, inputs, |inputs|, c)
  {
    hide LastEvent, Law.Dispatched, Law.Greeting, Law.Opening, Law.Fault, H.OnEvent, PrefixStable, Law.Tagged, Law.Lawful;
    var e := LastEvent(d, [], inputs);
    var front := inputs[..|inputs| - 1];
    var hs := HeardIn(d, front);
    var c := Conversation(cfg, d, H.NewConn(outgoing), [], front);
    Law.LawfulOpen(cfg, outgoing, 10 * MalformedReads(d, front), hs);
    Law.ReadClosed(cfg, outgoing, c, hs, e.msgs, e.malformed, e.closed, e.height);
    Law.DispatchedGrows(cfg, outgoing, hs, e.msgs, e.height, !e.malformed && !e.closed);
    Law.GreetingBan(cfg, outgoing, 10 * MalformedReads(d, front), hs);
    Law.GreetingBan(cfg, outgoing, 10 * MalformedReads(d, front), HeardIn(d, inputs));
    assert inputs[..|inputs|] == inputs;
  }

  // ----- what was heard is the stream

  /** The messages heard and those still buffered are the messages of the stream, in order. */
  lemma HeardIsStream(d: Decoder<H.Msg>, inputs: seq<Input>)
    requires PrefixStable(d)
    ensures Messages(Frames(d, Joined(Bytes(inputs))))
         == Law.MessagesOf(HeardIn(d, inputs)) + Messages(Frames(d, Arrivals(d, [], Bytes(inputs)).1))
  {
    hide Frames, Arrivals, Joined, HeardIn, Messages;
    ArrivalsConserve(d, [], Bytes(inputs));
    assert [] + Joined(Bytes(inputs)) == Joined(Bytes(inputs));
    var r := Arrivals(d, [], Bytes(inputs));
    MessagesConcat(r.0, Frames(d, r.1));
    HeardIsArrived(d, inputs);
  }

  lemma {:induction false} HeardIsArrived(d: Decoder<H.Msg>, inputs: seq<Input>)
    requires PrefixStable(d)
    ensures Law.MessagesOf(HeardIn(d, inputs)) == Messages(Arrivals(d, [], Bytes(inputs)).0)
    decreases |inputs|
  {
    if inputs != [] {
      hide Burst, Messages, PrefixStable, Bytes, Clean, Law.Tagged, Law.MessagesOf;
      var front, last := inputs[..|inputs| - 1], inputs[|inputs| - 1];
      HeardIsArrived(d, front);
      BytesLast(inputs);
      ArrivalsLast(d, [], Bytes(inputs));
      var r := Arrivals(d, [], Bytes(front));
      MessagesConcat(r.0, Burst(d, r.1 + last.bytes).0);
      var e := LastEvent(d, [], inputs);
      Law.MessagesOfMore(HeardIn(d, front), e.msgs, e.height, !e.malformed && !e.closed);
      hide Arrivals;
    }
  }

  // ----- well-formed streams

  lemma {:induction false} CleanReads(d: Decoder<H.Msg>, inputs: seq<Input>)
    requires PrefixStable(d) && Clean(Arrivals(d, [], Bytes(inputs)).0)
    requires forall i :: 0 <= i < |inputs| ==> inputs[i].bytes != []
    ensures MalformedReads(d, inputs) == 0 && !Ended(d, inputs)
    ensures forall i :: 0 <= i < |HeardIn(d, inputs)| ==> HeardIn(d, inputs)[i].delivered
    decreases |inputs|
  {
    if inputs != [] {
      hide Burst, Messages, PrefixStable, Bytes;
      BytesLast(inputs);
      ArrivalsLast(d, [], Bytes(inputs));
      hide Arrivals;
      var front := inputs[..|inputs| - 1];
      var r := Arrivals(d, [], Bytes(front));
      CleanConcat(r.0, Burst(d, r.1 + inputs[|inputs| - 1].bytes).0);
      CleanReads(d, front);
    }
  }

  /** A stream that breaks the opening at some read is broken for good, with the same fault. */
  lemma {:induction false} BrokenStays(cfg: H.Config, d: Decoder<H.Msg>, outgoing: bool, inputs: seq<Input>, k: nat)
    requires PrefixStable(d) && k <= |inputs| && !Law.Opening(cfg, outgoing, HeardIn(d, inputs[..k]))
    ensures !Law.Opening(cfg, outgoing, HeardIn(d, inputs))
    ensures Law.Fault(cfg, outgoing, HeardIn(d, inputs)) == Law.Fault(cfg, outgoing, HeardIn(d, inputs[..k]))
    decreases |inputs|
  {
    hide LastEvent, Law.Opening, Law.Fault, PrefixStable, Law.Tagged;
    if k == |inputs| {
      assert inputs[..k] == inputs;
    } else {
      var front := inputs[..|inputs| - 1];
      assert front[..k] == inputs[..k];
      BrokenStays(cfg, d, outgoing, front, k);
      var e := LastEvent(d, [], inputs);
      Law.OpeningPrefix(cfg, outgoing, HeardIn(d, front), Law.Tagged(e.msgs, e.height, !e.malformed && !e.closed));
    }
  }

  /**
   * What the dispatcher receives of a well-formed stream, however it is split and whatever the
   * heights: with a version that suits at its read and a verack as the first two messages, the
   * announcement and all later messages in order; otherwise nothing but a disconnection.
   */
  lemma DeliveryClosed(cfg: H.Config, d: Decoder<H.Msg>, outgoing: bool, inputs: seq<Input>)
    requires PrefixStable(d) && inputs != [] && (forall i :: 0 <= i < |inputs| ==> inputs[i].bytes != [])
    requires Clean(Frames(d, Joined(Bytes(inputs))))
    ensures var hs := HeardIn(d, inputs);
            var msgs := Messages(Frames(d, Joined(Bytes(inputs))));
            var c := Conversation(cfg, d, H.NewConn(outgoing), [], inputs);
            && Law.MessagesOf(hs) == msgs
            && if Law.Completes(cfg, outgoing, hs)
               then c == H.Conn(Some(Law.Greeting(cfg, outgoing, 0, hs)), [H.Connected] + H.Incomings(msgs[2..]))
               else if Law.Opening(cfg, outgoing, hs) then c == H.Conn(Some(Law.Greeting(cfg, outgoing, 0, hs)), [])
               else c == H.Conn(None, [H.Disconnected(Law.Fault(cfg, outgoing, hs))])
  {
    hide Conversation, Frames, Joined, Arrivals, Bytes, Messages, HeardIn, MalformedReads, Ended, Law.Opening, Law.Greeting, Law.Fault, H.Incomings;
    assert [] + Joined(Bytes(inputs)) == Joined(Bytes(inputs));
    AllArrived(d, [], Bytes(inputs));
    CleanReads(d, inputs);
    HeardIsArrived(d, inputs);
    var k := StreamLaw(cfg, d, outgoing, inputs);
    hide PrefixStable;
    var hs := HeardIn(d, inputs);
    Law.CompleteOpening(cfg, outgoing, hs);
    if Law.Completes(cfg, outgoing, hs) {
      Law.DeliveredAll(hs[2..]);
      assert Law.MessagesOf(hs)[2..] == Law.MessagesOf(hs[2..]);
    }
    if !Survives(cfg, d, outgoing, inputs) {
      CleanPrefix(d, inputs, k);
      BrokenStays(cfg, d, outgoing, inputs, k);
      Law.CompleteOpening(cfg, outgoing, HeardIn(d, inputs[..k]));
    }
  }

  lemma {:induction false} CleanPrefix(d: Decoder<H.Msg>, inputs: seq<Input>, k: nat)
    requires PrefixStable(d) && k <= |inputs| && MalformedReads(d, inputs) == 0 && !Ended(d, inputs)
    ensures MalformedReads(d, inputs[..k]) == 0 && !Ended(d, inputs[..k])
    decreases |inputs|
  {
    hide LastEvent, PrefixStable;
    if k == |inputs| {
      assert inputs[..k] == inputs;
    } else {
      assert inputs[..|inputs| - 1][..k] == inputs[..k];
      CleanPrefix(d, inputs[..|inputs| - 1], k);
    }
  }

  /**
   * For every prefix-stable decoder and every two ways the network may split the same well-formed
   * byte stream, the peer ends in the same state and the dispatcher has received the same events in
   * the same order. Heights matter only for an outgoing connection, and there only those at which
   * the first two messages arrive.
   */
  lemma DeliveryIndependentOfSplitting(cfg: H.Config, d: Decoder<H.Msg>, outgoing: bool, inputs: seq<Input>, inputs': seq<Input>)
    requires PrefixStable(d) && inputs != [] && inputs' != [] && Joined(Bytes(inputs)) == Joined(Bytes(inputs'))
    requires forall i :: 0 <= i < |inputs| ==> inputs[i].bytes != []
    requires forall i :: 0 <= i < |inputs'| ==> inputs'[i].bytes != []
    requires Clean(Frames(d, Joined(Bytes(inputs))))
    requires outgoing ==> var hs, hs' := HeardIn(d, inputs), HeardIn(d, inputs');
                          forall i :: 0 <= i < |hs| && i < |hs'| && i < 2 ==> hs[i].height == hs'[i].height
    ensures Conversation(cfg, d, H.NewConn(outgoing), [], inputs) == Conversation(cfg, d, H.NewConn(outgoing), [], inputs')
  {
    hide Conversation, Frames, Joined, Bytes, Messages, HeardIn, Law.Opening, Law.Completes, Law.Greeting, Law.Fault, H.Incomings, PrefixStable;
    DeliveryClosed(cfg, d, outgoing, inputs);
    DeliveryClosed(cfg, d, outgoing, inputs');
    var hs, hs' := HeardIn(d, inputs), HeardIn(d, inputs');
    assert forall i :: 0 <= i < |hs| ==> Law.MessagesOf(hs)[i] == Law.MessagesOf(hs')[i];
    Law.SameMessages(cfg, outgoing, hs, hs');
  }

  // ----- the code

  class PeerSession {
    const outgoing: bool
    const readBuffer: Buffer
    // in the peer map?
    var present: bool
    var version: Option<H.Version>
    var gotVerack: bool
    var connected: bool
    var ban: nat
    var replies: seq<H.Reply>
    // everything dispatched for this peer id
    var log: seq<H.Dispatch>

    ghost predicate Valid()
      reads this, readBuffer
    {
      present ==> readBuffer.Valid() && readBuffer.Contents().read == 0
    }

    ghost function Fields(): (p: H.Peer)
      reads this
    {
      H.Peer(version, gotVerack, connected, outgoing, ban, replies)
    }

    ghost function State(): (c: H.Conn)
      reads this
    {
      H.Conn(if present then Some(Fields()) else None, log)
    }

    constructor (outgoing: bool)
      ensures Valid() && fresh(readBuffer) && State() == H.NewConn(outgoing)
      ensures readBuffer.Valid() && readBuffer.Contents().kept == []
    {
      this.outgoing := outgoing;
      readBuffer := new Buffer();
      present := true;
      version := None;
      gotVerack := false;
      connected := false;
      ban := 0;
      replies := [];
      log := [];
    }

    method Disconnect(banned: bool)
      modifies this`log, this`present
      ensures Valid() && State() == H.Conn(None, old(log) + [H.Disconnected(banned)])
    {
      log := log + [H.Disconnected(banned)];
      present := false;
    }

    method Ban(increment: nat)
      requires Valid()
      modifies this`ban, this`log, this`present
      ensures Valid() && State() == H.Punish(old(State()), increment)
    {
      if present {
        if ban + increment >= H.BAN {
          Disconnect(true);
        } else {
          ban := ban + increment;
        }
      }
    }

    /** A version message before the handshake is complete. */
    method CheckVersion(cfg: H.Config, height: nat, v: H.Version) returns (verdict: H.Verdict)
      modifies this`version, this`replies
      ensures (Fields(), verdict) == H.OnVersion(cfg, height, old(Fields()), v)
    {
      hide Services.Serves;
      if version.Some? || v.nonce == cfg.nonce {
        return H.Drop(true);
      }
      if v.version < H.MIN_PROTOCOL_VERSION || !Services.Serves(v.services, cfg.needed) {
        return H.Drop(false);
      }
      if !outgoing {
        replies := replies + [H.OwnVersion(v.version)];
      } else if v.startHeight < height {
        return H.Drop(false);
      }
      assert replies == old(replies) + if outgoing then [] else [H.OwnVersion(v.version)];
      replies := replies + [H.OwnVerack];
      version := Some(v.(version := if v.version < cfg.maxVersion then v.version else cfg.maxVersion));
      verdict := H.GoOn;
    }

    /** One message before the handshake is complete. */
    method BeforeHandshake(cfg: H.Config, height: nat, m: H.Msg) returns (verdict: H.Verdict)
      requires !connected
      modifies this`version, this`gotVerack, this`connected, this`replies
      ensures (Fields(), verdict) == H.OnMessage(cfg, height, old(Fields()), m)
    {
      hide H.OnVersion;
      verdict := H.GoOn;
      if version.Some? && gotVerack {
        return;
      }
      match m {
        case VersionMsg(v) =>
          verdict := CheckVersion(cfg, height, v);
        case Verack =>
          if gotVerack {
            return H.Drop(true);
          }
          gotVerack := true;
        case Other(_) =>
          return H.Drop(true);
      }
      if verdict.GoOn? && version.Some? && gotVerack {
        connected := true;
      }
    }

    /** One message: collected after the handshake, part of it before. */
    method Handle(cfg: H.Config, height: nat, m: H.Msg, ghost l: H.Loop, incoming: seq<H.Msg>, handshake: bool)
      returns (verdict: H.Verdict, incoming': seq<H.Msg>, handshake': bool)
      requires l == H.Loop(Fields(), H.GoOn, handshake, incoming)
      modifies this`version, this`gotVerack, this`connected, this`replies
      ensures H.Turn(cfg, height, l, m) == H.Loop(Fields(), verdict, handshake', incoming')
    {
      verdict, incoming', handshake' := H.GoOn, incoming, handshake;
      if connected {
        incoming' := incoming + [m];
      } else {
        verdict := BeforeHandshake(cfg, height, m);
        handshake' := handshake || connected;
      }
    }

    /** One readable event with the bytes read. */
    method Readable(cfg: H.Config, d: Decoder<H.Msg>, bytes: seq<byte>, height: nat)
      requires Valid() && PrefixStable(d)
      modifies this, readBuffer
      ensures Valid()
      ensures State() == if old(present) then H.OnEvent(cfg, old(State()), EventOf(d, old(readBuffer.Contents().kept), bytes, height))
                         else old(State())
      ensures old(present) && present ==> readBuffer.Contents().kept == Burst(d, old(readBuffer.Contents().kept) + bytes).1
    {
      hide H.OnMessage, Flat, Index, At, Burst, PrefixStable, Messages;
      if !present {
        return;
      }
      var malformed, verdict, handshake, incoming := ReadLoop(cfg, d, bytes, height);
      if verdict.Drop? {
        Disconnect(verdict.ban);
      } else if malformed {
        Ban(10);
      } else if bytes == [] {
        Disconnect(false);
      } else {
        if handshake {
          log := log + [H.Connected];
        }
        assert handshake || old(log) + [] == old(log);
        log := log + H.Incomings(incoming);
      }
    }

    /** The read loop of the event: decodes and handles messages until it needs more bytes, a frame is malformed or the peer is dropped. */
    method ReadLoop(cfg: H.Config, d: Decoder<H.Msg>, bytes: seq<byte>, height: nat)
      returns (malformed: bool, verdict: H.Verdict, handshake: bool, incoming: seq<H.Msg>)
      requires present && Valid() && PrefixStable(d)
      modifies this`version, this`gotVerack, this`connected, this`replies, readBuffer
      ensures Valid()
      ensures var b := Burst(d, old(readBuffer.Contents().kept) + bytes);
              && H.Turns(cfg, height, H.Loop(old(Fields()), H.GoOn, false, []), Messages(b.0))
                 == H.Loop(Fields(), verdict, handshake, incoming)
              && (verdict.GoOn? ==> malformed == !Clean(b.0) && readBuffer.Contents().kept == b.1)
    {
      hide H.OnMessage, Flat, Index, At, Burst, PrefixStable, H.Turns, Messages;
      ghost var all := readBuffer.Contents().kept + bytes;
      ghost var start := H.Loop(Fields(), H.GoOn, false, []);
      var written := readBuffer.Write(bytes);
      malformed, verdict, handshake, incoming := false, H.GoOn, false, [];
      ghost var s := all;
      ghost var frames: seq<Frame<H.Msg>> := [];
      LoopStarts(cfg, height, start, Burst(d, all).0);
      while true
        invariant readBuffer.Valid() && readBuffer.Contents() == Queue(s, 0)
        invariant Burst(d, all) == (frames + Burst(d, s).0, Burst(d, s).1) && Clean(frames)
        invariant verdict.GoOn? && !malformed
        invariant H.Turns(cfg, height, start, Messages(frames)) == H.Loop(Fields(), verdict, handshake, incoming)
        decreases |s|
      {
        BurstStep(d, s, frames);
        var f := Decode(d, readBuffer);
        match f {
          case NeedMore =>
            return;
          case Malformed(_) =>
            malformed := true;
            MalformedLast(frames, f);
            return;
          case Message(m, size) =>
            OneMore(cfg, height, start, frames, f);
            ghost var l := H.Turns(cfg, height, start, Messages(frames));
            verdict, incoming, handshake := Handle(cfg, height, m, l, incoming, handshake);
            s := s[size..];
            if verdict.Drop? {
              RestIgnored(cfg, height, start, frames + [f], Burst(d, s).0);
              return;
            }
            frames := frames + [f];
        }
      }
    }
  }

  /** A new peer and a sequence of readable events: the object does what the conversation on values says. */
  method Converse(cfg: H.Config, d: Decoder<H.Msg>, outgoing: bool, inputs: seq<Input>) returns (peer: PeerSession)
    requires PrefixStable(d)
    ensures fresh(peer) && peer.Valid()
    ensures peer.State() == Conversation(cfg, d, H.NewConn(outgoing), [], inputs)
  {
    hide H.OnEvent, Flat, Index, At, Burst, PrefixStable, Messages, Bytes, EventOf;
    peer := new PeerSession(outgoing);
    NothingArrived(d);
    assert inputs[..0] == [] && inputs[..|inputs|] == inputs;
    for i := 0 to |inputs|
      invariant fresh(peer) && fresh(peer.readBuffer) && peer.Valid()
      invariant peer.State() == Conversation(cfg, d, H.NewConn(outgoing), [], inputs[..i])
      invariant peer.present ==> peer.readBuffer.Contents().kept == Arrivals(d, [], Bytes(inputs[..i])).1
    {
      var now := inputs[..i + 1];
      assert now[..i] == inputs[..i];
      BytesLast(now);
      ArrivalsLast(d, [], Bytes(now));
      hide Arrivals;
      ghost var before := peer.State();
      if before.peer.None? {
        Law.GoneStays(cfg, before, LastEvent(d, [], now));
      }
      peer.Readable(cfg, d, inputs[i].bytes, inputs[i].height);
    }
  }

  lemma NothingArrived(d: Decoder<H.Msg>)
    requires PrefixStable(d)
    ensures Arrivals(d, [], Bytes([])).1 == []
  {
  }

  lemma LoopStarts(cfg: H.Config, height: nat, start: H.Loop, fs: seq<Frame<H.Msg>>)
    ensures [] + fs == fs && H.Turns(cfg, height, start, Messages([])) == start
  {
  }

  lemma MalformedLast(frames: seq<Frame<H.Msg>>, f: Frame<H.Msg>)
    requires f.Malformed?
    ensures Messages(frames + [f]) == Messages(frames) && !Clean(frames + [f])
  {
    assert (frames + [f])[..|frames|] == frames;
    assert (frames + [f])[|frames|].Malformed?;
  }

  lemma OneMore(cfg: H.Config, height: nat, start: H.Loop, frames: seq<Frame<H.Msg>>, f: Frame<H.Msg>)
    requires f.Message?
    ensures Clean(frames) ==> Clean(frames + [f])
    ensures H.Turns(cfg, height, start, Messages(frames + [f]))
         == H.Turn(cfg, height, H.Turns(cfg, height, start, Messages(frames)), f.msg)
  {
    assert (frames + [f])[..|frames|] == frames;
    var ms := Messages(frames + [f]);
    assert ms == Messages(frames) + [f.msg];
    assert ms[..|ms| - 1] == Messages(frames);
  }

  /** Messages left in the buffer do not matter to a peer that is dropped. */
  lemma RestIgnored(cfg: H.Config, height: nat, start: H.Loop, done: seq<Frame<H.Msg>>, rest: seq<Frame<H.Msg>>)
    requires H.Turns(cfg, height, start, Messages(done)).verdict.Drop?
    ensures H.Turns(cfg, height, start, Messages(done + rest)) == H.Turns(cfg, height, start, Messages(done))
  {
    MessagesConcat(done, rest);
    H.TurnsConcat(cfg, height, start, Messages(done), Messages(rest));
    H.DroppedStays(cfg, height, H.Turns(cfg, height, start, Messages(done)), Messages(rest));
  }
}
