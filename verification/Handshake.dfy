/**
 * The readable branch of `event_processor` for one peer, from decoded messages to dispatched
 * events: the version/verack handshake, the ban score, and what reaches the dispatcher.
 */
module Handshake {
  import opened Wrappers
  import opened Services

  const MIN_PROTOCOL_VERSION: nat := 70001
  const BAN: nat := 100

  datatype Version = Version(version: nat, services: bv64, nonce: nat, startHeight: nat)

  datatype Msg = VersionMsg(v: Version) | Verack | Other(id: nat)

  /** This node's side: its nonce, its highest protocol version, the services it insists on. */
  datatype Config = Config(nonce: nat, maxVersion: nat, needed: bv64)

  /** Messages put in the peer's outgoing channel by the handshake. */
  datatype Reply = OwnVersion(limit: nat) | OwnVerack

  datatype Peer = Peer(version: Option<Version>, gotVerack: bool, connected: bool, outgoing: bool, ban: nat, replies: seq<Reply>)

  /** What reaches the dispatcher. */
  datatype Dispatch = Connected | Incoming(msg: Msg) | Disconnected(banned: bool)

  /** A peer id: the peer while it is in the peer map, and everything dispatched for it. */
  datatype Conn = Conn(peer: Option<Peer>, log: seq<Dispatch>)

  datatype Event =
    | Read(msgs: seq<Msg>, malformed: bool, closed: bool, height: nat)
      // messages decoded from one read, whether a malformed frame follows them, whether the read had length 0
    | ReadError
    | HungUp
    | BanRequest(score: nat)

  function NewConn(outgoing: bool): (c: Conn)
  {
    Conn(Some(Peer(None, false, false, outgoing, 0, [])), [])
  }

  // ----- one message

  predicate Suitable(cfg: Config, outgoing: bool, height: nat, v: Version) {
    && v.nonce != cfg.nonce
    && v.version >= MIN_PROTOCOL_VERSION
    && Serves(v.services, cfg.needed)
    && (outgoing ==> v.startHeight >= height)
  }

  /** The verdict on one message: go on, or drop the peer, with or without a ban. */
  datatype Verdict = GoOn | Drop(ban: bool)

  function OnVersion(cfg: Config, height: nat, p: Peer, v: Version): (r: (Peer, Verdict))
  {
    if p.version.Some? then (p, Drop(true))
    else if v.nonce == cfg.nonce then (p, Drop(true))
    else if v.version < MIN_PROTOCOL_VERSION || !Serves(v.services, cfg.needed) then (p, Drop(false))
    else if p.outgoing && v.startHeight < height then (p, Drop(false))
    else
      var own := if p.outgoing then [] else [OwnVersion(v.version)];
      var seen := v.(version := if v.version < cfg.maxVersion then v.version else cfg.maxVersion);
      (p.(version := Some(seen), replies := p.replies + own + [OwnVerack]), GoOn)
  }

  function OnMessage(cfg: Config, height: nat, p: Peer, m: Msg): (r: (Peer, Verdict))
  {
    if p.connected || (p.version.Some? && p.gotVerack) then (p, GoOn)
    else
      var r := match m
        case VersionMsg(v) => OnVersion(cfg, height, p, v)
        case Verack => if p.gotVerack then (p, Drop(true)) else (p.(gotVerack := true), GoOn)
        case Other(_) => (p, Drop(true));
      if r.1.GoOn? && r.0.version.Some? && r.0.gotVerack then (r.0.(connected := true), GoOn) else r
  }

  // ----- one read event

  /** State of the read loop: the peer, a verdict to drop it, a completed handshake, collected messages. */
  datatype Loop = Loop(peer: Peer, verdict: Verdict, handshake: bool, incoming: seq<Msg>)

  function Turn(cfg: Config, height: nat, l: Loop, m: Msg): (l': Loop)
  {
    if l.verdict.Drop? then l
    else if l.peer.connected then l.(incoming := l.incoming + [m])
    else
      var r := OnMessage(cfg, height, l.peer, m);
      Loop(r.0, r.1, l.handshake || r.0.connected, l.incoming)
  }

  function Turns(cfg: Config, height: nat, l: Loop, msgs: seq<Msg>): (l': Loop)
  {
    if msgs == [] then l else Turn(cfg, height, Turns(cfg, height, l, msgs[..|msgs| - 1]), msgs[|msgs| - 1])
  }

  function Incomings(msgs: seq<Msg>): (ds: seq<Dispatch>)
  {
    if msgs == [] then [] else Incomings(msgs[..|msgs| - 1]) + [Incoming(msgs[|msgs| - 1])]
  }

  /** Raises the ban score and drops the peer at the limit. */
  function Punish(c: Conn, score: nat): (c': Conn)
  {
    if c.peer.None? then c
    else if c.peer.value.ban + score >= BAN then Conn(None, c.log + [Disconnected(true)])
    else c.(peer := Some(c.peer.value.(ban := c.peer.value.ban + score)))
  }

  /** The end of the read loop: an undecodable rest costs ban score and drops what was collected. */
  function Finish(c: Conn, l: Loop, malformed: bool, closed: bool): (c': Conn)
  {
    if l.verdict.Drop? then Conn(None, c.log + [Disconnected(l.verdict.ban)])
    else if malformed then Punish(Conn(Some(l.peer), c.log), 10)
    else if closed then Conn(None, c.log + [Disconnected(false)])
    else Conn(Some(l.peer), c.log + (if l.handshake then [Connected] else []) + Incomings(l.incoming))
  }

  function OnEvent(cfg: Config, c: Conn, e: Event): (c': Conn)
  {
    match e
    case Read(msgs, malformed, closed, height) =>
      if c.peer.None? then c
      else Finish(c, Turns(cfg, height, Loop(c.peer.value, GoOn, false, []), msgs), malformed, closed)
    case ReadError => if c.peer.None? then c else Conn(None, c.log + [Disconnected(false)])
    case HungUp => Conn(None, c.log + [Disconnected(false)])
    case BanRequest(score) => Punish(c, score)
  }

  ghost function OnEvents(cfg: Config, c: Conn, events: seq<Event>): (c': Conn)
  {
    if events == [] then c else OnEvent(cfg, OnEvents(cfg, c, events[..|events| - 1]), events[|events| - 1])
  }

  // ----- the read loop

  ghost predicate PeerOk(p: Peer) {
    p.connected <==> p.version.Some? && p.gotVerack
  }

  /** What this node asks of a peer's version: another node, a protocol of at least 70001, every needed service, and no less height if it was called. */
  ghost predicate Meets(cfg: Config, outgoing: bool, height: nat, v: Version) {
    && v.nonce != cfg.nonce
    && v.version >= 70001
    && (forall i: nat :: i < 64 && HasService(cfg.needed, i) ==> HasService(v.services, i))
    && (outgoing ==> v.startHeight >= height)
  }

  lemma SuitableIff(cfg: Config, outgoing: bool, height: nat, v: Version)
    ensures Suitable(cfg, outgoing, height, v) <==> Meets(cfg, outgoing, height, v)
  {
    hide Serves, HasService;
    ServesIff(v.services, cfg.needed);
  }

  /** A version message is accepted exactly when it is the first and meets the demands; a refused one changes nothing. */
  lemma VersionAcceptedIff(cfg: Config, height: nat, p: Peer, v: Version)
    ensures OnVersion(cfg, height, p, v).1.GoOn? <==> p.version.None? && Meets(cfg, p.outgoing, height, v)
    ensures OnVersion(cfg, height, p, v).1.Drop? ==> OnVersion(cfg, height, p, v).0 == p
  {
    hide Serves, Meets;
    SuitableIff(cfg, p.outgoing, height, v);
  }

  /** A node that needs the network and witness services refuses a peer that offers only the first. */
  lemma ServiceMissing(cfg: Config, height: nat, p: Peer, v: Version)
    requires cfg.needed == 9 && v.services == 1 && p.version.None? && v.nonce != cfg.nonce
    ensures HasService(9, 0) && HasService(9, 3) && HasService(1, 0) && !HasService(1, 3)
    ensures OnVersion(cfg, height, p, v) == (p, Drop(false))
  {
    assert One(1) == 2 && One(2) == 4 && One(3) == 8;
  }

  lemma OnMessageOk(cfg: Config, height: nat, p: Peer, m: Msg)
    requires PeerOk(p)
    ensures PeerOk(OnMessage(cfg, height, p, m).0)
    ensures p.connected ==> OnMessage(cfg, height, p, m) == (p, GoOn)
    ensures OnMessage(cfg, height, p, m).1.Drop? ==> OnMessage(cfg, height, p, m).0.connected == p.connected
  {
    hide Serves;
  }

  /** Only a connected peer has messages collected or a handshake to announce, and it is never dropped by a message. */
  ghost predicate LoopOk(was: bool, l: Loop) {
    && PeerOk(l.peer)
    && (l.incoming != [] ==> l.peer.connected)
    && (l.handshake <==> l.peer.connected && !was)
    && (l.verdict.Drop? ==> !l.peer.connected)
    && (was ==> l.peer.connected)
  }

  lemma {:induction false} TurnsOk(cfg: Config, height: nat, l: Loop, was: bool, msgs: seq<Msg>)
    requires LoopOk(was, l)
    ensures LoopOk(was, Turns(cfg, height, l, msgs))
    decreases |msgs|
  {
    hide OnMessage;
    if msgs != [] {
      TurnsOk(cfg, height, l, was, msgs[..|msgs| - 1]);
      OnMessageOk(cfg, height, Turns(cfg, height, l, msgs[..|msgs| - 1]).peer, msgs[|msgs| - 1]);
    }
  }

  lemma {:induction false} IncomingsShape(msgs: seq<Msg>)
    ensures |Incomings(msgs)| == |msgs|
    ensures forall i :: 0 <= i < |msgs| ==> Incomings(msgs)[i] == Incoming(msgs[i])
    decreases |msgs|
  {
    if msgs != [] {
      IncomingsShape(msgs[..|msgs| - 1]);
    }
  }

  // ----- reads may be split anywhere between messages

  lemma {:induction false} TurnsConcat(cfg: Config, height: nat, l: Loop, a: seq<Msg>, b: seq<Msg>)
    ensures Turns(cfg, height, l, a + b) == Turns(cfg, height, Turns(cfg, height, l, a), b)
    decreases |b|
  {
    if b == [] {
      assert a + b == a;
    } else {
      assert (a + b)[..|a + b| - 1] == a + b[..|b| - 1];
      TurnsConcat(cfg, height, l, a, b[..|b| - 1]);
    }
  }

  /** The loop only adds to what it started with. */
  lemma {:induction false} TurnsFrom(cfg: Config, height: nat, p: Peer, h: bool, inc: seq<Msg>, msgs: seq<Msg>)
    ensures var r := Turns(cfg, height, Loop(p, GoOn, false, []), msgs);
            Turns(cfg, height, Loop(p, GoOn, h, inc), msgs) == Loop(r.peer, r.verdict, h || r.handshake, inc + r.incoming)
    decreases |msgs|
  {
    hide OnMessage;
    if msgs == [] {
      assert inc + [] == inc;
    } else {
      TurnsFrom(cfg, height, p, h, inc, msgs[..|msgs| - 1]);
      var r := Turns(cfg, height, Loop(p, GoOn, false, []), msgs[..|msgs| - 1]);
      var m := msgs[|msgs| - 1];
      assert inc + (r.incoming + [m]) == inc + r.incoming + [m];
    }
  }

  lemma {:induction false} IncomingsConcat(a: seq<Msg>, b: seq<Msg>)
    ensures Incomings(a + b) == Incomings(a) + Incomings(b)
    decreases |b|
  {
    if b == [] {
      assert a + b == a;
    } else {
      assert (a + b)[..|a + b| - 1] == a + b[..|b| - 1];
      IncomingsConcat(a, b[..|b| - 1]);
    }
  }

  function CleanRead(msgs: seq<Msg>, height: nat): (e: Event)
  {
    Read(msgs, false, false, height)
  }

  /** Two clean reads do what one read of both message sequences does. */
  lemma TwoReads(cfg: Config, c: Conn, height: nat, a: seq<Msg>, b: seq<Msg>)
    requires c.peer.Some? ==> PeerOk(c.peer.value)
    ensures OnEvent(cfg, OnEvent(cfg, c, CleanRead(a, height)), CleanRead(b, height)) == OnEvent(cfg, c, CleanRead(a + b, height))
  {
    hide Turns, Incomings, PeerOk;
    if c.peer.Some? {
      var was := c.peer.value.connected;
      var start := Loop(c.peer.value, GoOn, false, []);
      TurnsConcat(cfg, height, start, a, b);
      TurnsOk(cfg, height, start, was, a);
      var l := Turns(cfg, height, start, a);
      if l.verdict.Drop? {
        DroppedStays(cfg, height, l, b);
      } else {
        var next := Loop(l.peer, GoOn, false, []);
        TurnsFrom(cfg, height, l.peer, l.handshake, l.incoming, b);
        TurnsOk(cfg, height, next, l.peer.connected, b);
        var r := Turns(cfg, height, next, b);
        JoinLogs(c, was, l, r);
      }
    }
  }

  lemma {:induction false} DroppedStays(cfg: Config, height: nat, l: Loop, msgs: seq<Msg>)
    requires l.verdict.Drop?
    ensures Turns(cfg, height, l, msgs) == l
    decreases |msgs|
  {
    if msgs != [] {
      DroppedStays(cfg, height, l, msgs[..|msgs| - 1]);
    }
  }

  lemma JoinLogs(c: Conn, was: bool, l: Loop, r: Loop)
    requires c.peer.Some? && LoopOk(was, l) && l.verdict.GoOn?
    requires LoopOk(l.peer.connected, r)
    ensures Finish(Finish(c, l, false, false), r, false, false)
         == Finish(c, Loop(r.peer, r.verdict, l.handshake || r.handshake, l.incoming + r.incoming), false, false)
  {
    hide PeerOk;
    IncomingsConcat(l.incoming, r.incoming);
    if l.peer.connected {
      var log := c.log + (if l.handshake then [Connected] else []);
      assert log + Incomings(l.incoming) + [] + Incomings(r.incoming) == log + (Incomings(l.incoming) + Incomings(r.incoming));
    } else {
      assert l.incoming == [] && Incomings([]) == [];
      assert c.log + [] + [] == c.log;
    }
  }

  function CleanReads(batches: seq<seq<Msg>>, height: nat): (es: seq<Event>)
  {
    if batches == [] then [] else CleanReads(batches[..|batches| - 1], height) + [CleanRead(batches[|batches| - 1], height)]
  }

  function Merged(batches: seq<seq<Msg>>): (ms: seq<Msg>)
  {
    if batches == [] then [] else Merged(batches[..|batches| - 1]) + batches[|batches| - 1]
  }

  /**
   * How messages are spread over reads makes no difference: any sequence of clean reads leaves the
   * same peer and the same log as one read of all the messages.
   */
  lemma {:induction false} ReadsMerge(cfg: Config, outgoing: bool, height: nat, batches: seq<seq<Msg>>)
    ensures OnEvents(cfg, NewConn(outgoing), CleanReads(batches, height))
         == OnEvent(cfg, NewConn(outgoing), CleanRead(Merged(batches), height))
    decreases |batches|
  {
    var c := NewConn(outgoing);
    if batches == [] {
      var start := Loop(c.peer.value, GoOn, false, []);
      assert Turns(cfg, height, start, []) == start;
      assert c.log + [] + [] == c.log;
    } else {
      var front := batches[..|batches| - 1];
      var es := CleanReads(batches, height);
      assert es[..|es| - 1] == CleanReads(front, height);
      hide OnEvent;
      ReadsMerge(cfg, outgoing, height, front);
      TwoReads(cfg, c, height, Merged(front), batches[|batches| - 1]);
    }
  }
}
