/**
 * The handshake over whole runs, stated on the messages a peer sent: which ones make it connected,
 * which one drops it, and what reaches the dispatcher.
 */
module HandshakeLaws {
  import opened Wrappers
  import opened Services
  import opened Handshake

  /** A message that arrived while the peer was in the peer map, the height at that time, and whether its read ended cleanly. */
  datatype Heard = Heard(msg: Msg, height: nat, delivered: bool)

  function Tagged(msgs: seq<Msg>, height: nat, delivered: bool): (hs: seq<Heard>)
    ensures |hs| == |msgs|
    ensures forall i :: 0 <= i < |msgs| ==> hs[i] == Heard(msgs[i], height, delivered)
  {
    seq(|msgs|, i requires 0 <= i < |msgs| => Heard(msgs[i], height, delivered))
  }

  /** Everything heard of a new peer over a run. */
  ghost function History(cfg: Config, outgoing: bool, events: seq<Event>): (hs: seq<Heard>)
  {
    if events == [] then []
    else
      var front, e := events[..|events| - 1], events[|events| - 1];
      History(cfg, outgoing, front)
      + if e.Read? && OnEvents(cfg, NewConn(outgoing), front).peer.Some?
        then Tagged(e.msgs, e.height, !e.malformed && !e.closed) else []
  }

  // ----- what the messages alone decide

  /** A verack, or a version that suits this node when it arrives. */
  predicate Opens(cfg: Config, outgoing: bool, h: Heard) {
    h.msg.Verack? || (h.msg.VersionMsg? && Suitable(cfg, outgoing, h.height, h.msg.v))
  }

  /** The first two messages are a suitable version and a verack, in either order. */
  predicate Completes(cfg: Config, outgoing: bool, hs: seq<Heard>) {
    |hs| >= 2 && Opens(cfg, outgoing, hs[0]) && Opens(cfg, outgoing, hs[1]) && hs[0].msg.Verack? != hs[1].msg.Verack?
  }

  /** So far the peer has done nothing but complete, or start, the handshake. */
  predicate Opening(cfg: Config, outgoing: bool, hs: seq<Heard>) {
    hs == [] || (|hs| == 1 && Opens(cfg, outgoing, hs[0])) || Completes(cfg, outgoing, hs)
  }

  function VersionHeard(hs: seq<Heard>): (v: Option<Version>)
  {
    if |hs| >= 1 && hs[0].msg.VersionMsg? then Some(hs[0].msg.v)
    else if |hs| >= 2 && hs[1].msg.VersionMsg? then Some(hs[1].msg.v)
    else None
  }

  function Capped(cfg: Config, v: Version): (v': Version)
  {
    v.(version := if v.version < cfg.maxVersion then v.version else cfg.maxVersion)
  }

  /** The peer that these messages make: greeted once, with this node's version first if the peer called. */
  function Greeting(cfg: Config, outgoing: bool, ban: nat, hs: seq<Heard>): (p: Peer)
  {
    match VersionHeard(hs)
    case None => Peer(None, hs != [], |hs| >= 2, outgoing, ban, [])
    case Some(v) => Peer(Some(Capped(cfg, v)), |hs| >= 2, |hs| >= 2, outgoing, ban,
                         (if outgoing then [] else [OwnVersion(v.version)]) + [OwnVerack])
  }

  /** Is the first message out of order worth a ban? Only a first version from another node that merely does not suit is not. */
  predicate Harmful(cfg: Config, m: Msg) {
    !(m.VersionMsg? && m.v.nonce != cfg.nonce)
  }

  predicate Fault(cfg: Config, outgoing: bool, hs: seq<Heard>)
    requires !Opening(cfg, outgoing, hs)
  {
    if !Opens(cfg, outgoing, hs[0]) then Harmful(cfg, hs[0].msg)
    else (hs[0].msg.VersionMsg? && hs[1].msg.VersionMsg?) || Harmful(cfg, hs[1].msg)
  }

  function Delivered(hs: seq<Heard>): (msgs: seq<Msg>)
  {
    if hs == [] then []
    else
      var last := hs[|hs| - 1];
      Delivered(hs[..|hs| - 1]) + if last.delivered then [last.msg] else []
  }

  /** What reaches the dispatcher: the announcement, if the read of the second message ended cleanly, and every later message of such a read. */
  function Dispatched(cfg: Config, outgoing: bool, hs: seq<Heard>): (ds: seq<Dispatch>)
  {
    if !Completes(cfg, outgoing, hs) then []
    else (if hs[1].delivered then [Connected] else []) + Incomings(Delivered(hs[2..]))
  }

  // ----- one read

  /** Messages collected by a read, given how many came before it. */
  function AfterTwo(before: nat, msgs: seq<Msg>): (ms: seq<Msg>)
  {
    if before >= 2 then msgs else if before + |msgs| < 2 then [] else msgs[2 - before..]
  }

  /** One message more: still an opening, with the peer it makes, or the fault of the first message out of order. */
  lemma OneMessage(cfg: Config, outgoing: bool, ban: nat, hs: seq<Heard>, h: Heard)
    requires Opening(cfg, outgoing, hs) && |hs| < 2
    ensures var r := OnMessage(cfg, h.height, Greeting(cfg, outgoing, ban, hs), h.msg);
            if Opening(cfg, outgoing, hs + [h]) then r == (Greeting(cfg, outgoing, ban, hs + [h]), GoOn)
            else r.1 == Drop(Fault(cfg, outgoing, hs + [h]))
  {
    hide Serves;
    var all := hs + [h];
    assert all[|hs|] == h && (|hs| == 1 ==> all[0] == hs[0]);
    if h.msg.VersionMsg? {
      var own := if outgoing then [] else [OwnVersion(h.msg.v.version)];
      assert [] + own + [OwnVerack] == own + [OwnVerack];
    }
  }

  /** Once the opening is complete or broken, later messages do not change that. */
  lemma OpeningPrefix(cfg: Config, outgoing: bool, hs: seq<Heard>, more: seq<Heard>)
    ensures Opening(cfg, outgoing, hs + more) ==> Opening(cfg, outgoing, hs)
    ensures Completes(cfg, outgoing, hs) ==> Completes(cfg, outgoing, hs + more)
    ensures !Opening(cfg, outgoing, hs) ==> Fault(cfg, outgoing, hs + more) == Fault(cfg, outgoing, hs)
    ensures |hs| >= 2 ==> forall ban :: Greeting(cfg, outgoing, ban, hs + more) == Greeting(cfg, outgoing, ban, hs)
  {
    hide Suitable;
    var all := hs + more;
    assert |hs| >= 1 ==> all[0] == hs[0];
    assert |hs| >= 2 ==> all[1] == hs[1];
  }

  /** The read loop in closed form: what it makes of the peer, what it collects, or how it drops the peer. */
  lemma {:induction false} TurnsClosed(cfg: Config, outgoing: bool, ban: nat, height: nat, hs: seq<Heard>, delivered: bool, msgs: seq<Msg>)
    requires Opening(cfg, outgoing, hs)
    ensures var all := hs + Tagged(msgs, height, delivered);
            var l := Turns(cfg, height, Loop(Greeting(cfg, outgoing, ban, hs), GoOn, false, []), msgs);
            if Opening(cfg, outgoing, all)
            then l == Loop(Greeting(cfg, outgoing, ban, all), GoOn, |hs| < 2 <= |all|, AfterTwo(|hs|, msgs))
            else l.verdict == Drop(Fault(cfg, outgoing, all))
    decreases |msgs|
  {
    hide Opening, Greeting, Fault, Turn, Tagged;
    if msgs == [] {
      assert hs + Tagged(msgs, height, delivered) == hs;
    } else {
      var front, m := msgs[..|msgs| - 1], msgs[|msgs| - 1];
      var start := Loop(Greeting(cfg, outgoing, ban, hs), GoOn, false, []);
      assert Turns(cfg, height, start, msgs) == Turn(cfg, height, Turns(cfg, height, start, front), m);
      hide AfterTwo, Turns;
      TurnsClosed(cfg, outgoing, ban, height, hs, delivered, front);
      var before := hs + Tagged(front, height, delivered);
      var h := Heard(m, height, delivered);
      TaggedLast(hs, msgs, height, delivered);
      if Opening(cfg, outgoing, before) {
        OpenTurn(cfg, outgoing, ban, before, h, |hs|, front);
      } else {
        OpeningPrefix(cfg, outgoing, before, [h]);
        DroppedTurn(cfg, height, Turns(cfg, height, start, front), m);
      }
    }
  }

  lemma TaggedLast(hs: seq<Heard>, msgs: seq<Msg>, height: nat, delivered: bool)
    requires msgs != []
    ensures var front, m := msgs[..|msgs| - 1], msgs[|msgs| - 1];
            && hs + Tagged(msgs, height, delivered) == hs + Tagged(front, height, delivered) + [Heard(m, height, delivered)]
            && front + [m] == msgs
  {
    hide Tagged;
    var front, m := msgs[..|msgs| - 1], msgs[|msgs| - 1];
    assert Tagged(msgs, height, delivered) == Tagged(front, height, delivered) + [Heard(m, height, delivered)];
  }

  lemma DroppedTurn(cfg: Config, height: nat, l: Loop, m: Msg)
    requires l.verdict.Drop?
    ensures Turn(cfg, height, l, m) == l
  {
  }

  /** One turn of the loop on an opening so far. */
  lemma OpenTurn(cfg: Config, outgoing: bool, ban: nat, hs: seq<Heard>, h: Heard, before: nat, front: seq<Msg>)
    requires Opening(cfg, outgoing, hs) && |hs| == before + |front|
    ensures var l := Loop(Greeting(cfg, outgoing, ban, hs), GoOn, before < 2 <= |hs|, AfterTwo(before, front));
            var l' := Turn(cfg, h.height, l, h.msg);
            if Opening(cfg, outgoing, hs + [h])
            then l' == Loop(Greeting(cfg, outgoing, ban, hs + [h]), GoOn, before < 2 <= |hs| + 1, AfterTwo(before, front + [h.msg]))
            else l'.verdict == Drop(Fault(cfg, outgoing, hs + [h]))
  {
    hide OnMessage, Suitable;
    if |hs| < 2 {
      OneMessage(cfg, outgoing, ban, hs, h);
      if |hs| == 1 {
        assert (front + [h.msg])[2 - before..] == [];
      }
    } else {
      OpeningPrefix(cfg, outgoing, hs, [h]);
      assert before < 2 ==> front[2 - before..] + [h.msg] == (front + [h.msg])[2 - before..];
    }
  }

  // ----- the log

  lemma {:induction false} DeliveredConcat(a: seq<Heard>, b: seq<Heard>)
    ensures Delivered(a + b) == Delivered(a) + Delivered(b)
    decreases |b|
  {
    if b == [] {
      assert a + b == a;
    } else {
      assert (a + b)[..|a + b| - 1] == a + b[..|b| - 1];
      DeliveredConcat(a, b[..|b| - 1]);
    }
  }

  function MessagesOf(hs: seq<Heard>): (ms: seq<Msg>)
    ensures |ms| == |hs|
    ensures forall i :: 0 <= i < |hs| ==> ms[i] == hs[i].msg
  {
    seq(|hs|, i requires 0 <= i < |hs| => hs[i].msg)
  }

  lemma MessagesOfMore(hs: seq<Heard>, msgs: seq<Msg>, height: nat, delivered: bool)
    ensures MessagesOf(hs + Tagged(msgs, height, delivered)) == MessagesOf(hs) + msgs
  {
  }

  lemma {:induction false} DeliveredAll(hs: seq<Heard>)
    requires forall i :: 0 <= i < |hs| ==> hs[i].delivered
    ensures Delivered(hs) == MessagesOf(hs)
    decreases |hs|
  {
    if hs != [] {
      DeliveredAll(hs[..|hs| - 1]);
      assert MessagesOf(hs)[..|hs| - 1] == MessagesOf(hs[..|hs| - 1]);
    }
  }

  lemma {:induction false} DeliveredTagged(msgs: seq<Msg>, height: nat, delivered: bool)
    ensures Delivered(Tagged(msgs, height, delivered)) == if delivered then msgs else []
    decreases |msgs|
  {
    if msgs != [] {
      var front := msgs[..|msgs| - 1];
      DeliveredTagged(front, height, delivered);
      assert Tagged(msgs, height, delivered)[..|msgs| - 1] == Tagged(front, height, delivered);
    }
  }

  /** What one more read adds to the dispatched events. */
  lemma DispatchedGrows(cfg: Config, outgoing: bool, hs: seq<Heard>, msgs: seq<Msg>, height: nat, delivered: bool)
    requires Opening(cfg, outgoing, hs)
    ensures var all := hs + Tagged(msgs, height, delivered);
            Dispatched(cfg, outgoing, all)
            == if Opening(cfg, outgoing, all) && delivered
               then Dispatched(cfg, outgoing, hs) + (if |hs| < 2 <= |all| then [Connected] else []) + Incomings(AfterTwo(|hs|, msgs))
               else Dispatched(cfg, outgoing, hs)
  {
    hide Opens, Incomings, Delivered, Tagged;
    var tagged := Tagged(msgs, height, delivered);
    var all := hs + tagged;
    IncomingsShape([]);
    if Completes(cfg, outgoing, hs) {
      assert all[0] == hs[0] && all[1] == hs[1] && all[2..] == hs[2..] + tagged;
      DeliveredConcat(hs[2..], tagged);
      DeliveredTagged(msgs, height, delivered);
      IncomingsConcat(Delivered(hs[2..]), if delivered then msgs else []);
      assert Incomings(Delivered(hs[2..])) + [] == Incomings(Delivered(hs[2..]));
      var first := if hs[1].delivered then [Connected] else [];
      assert first + (Incomings(Delivered(hs[2..])) + Incomings(msgs)) == first + Incomings(Delivered(hs[2..])) + [] + Incomings(msgs);
    } else if Completes(cfg, outgoing, all) {
      var rest := msgs[2 - |hs|..];
      assert all[2..] == Tagged(rest, height, delivered);
      DeliveredTagged(rest, height, delivered);
      assert all[1].delivered == delivered;
    }
  }

  /** The log without its disconnections. */
  function Announcements(log: seq<Dispatch>): (r: seq<Dispatch>)
  {
    if log == [] then []
    else Announcements(log[..|log| - 1]) + if log[|log| - 1].Disconnected? then [] else [log[|log| - 1]]
  }

  lemma {:induction false} AnnouncementsAll(log: seq<Dispatch>)
    requires forall i :: 0 <= i < |log| ==> !log[i].Disconnected?
    ensures Announcements(log) == log
    decreases |log|
  {
    if log != [] {
      AnnouncementsAll(log[..|log| - 1]);
    }
  }

  lemma DispatchedKinds(cfg: Config, outgoing: bool, hs: seq<Heard>)
    ensures var ds := Dispatched(cfg, outgoing, hs);
            && (forall i :: 0 <= i < |ds| ==> !ds[i].Disconnected?)
            && (forall i :: 1 <= i < |ds| ==> ds[i].Incoming?)
            && (ds != [] && ds[0].Connected? <==> Completes(cfg, outgoing, hs) && hs[1].delivered)
  {
    hide Completes, Incomings, Delivered;
    if Completes(cfg, outgoing, hs) {
      CompletesTwo(cfg, outgoing, hs);
      IncomingsShape(Delivered(hs[2..]));
    }
  }

  /** The state of a connection against everything heard of the peer. */
  ghost predicate Lawful(cfg: Config, outgoing: bool, c: Conn, hs: seq<Heard>) {
    && Announcements(c.log) == Dispatched(cfg, outgoing, hs)
    && (c.peer.Some? ==> && Opening(cfg, outgoing, hs)
                         && c.peer.value == Greeting(cfg, outgoing, c.peer.value.ban, hs)
                         && c.log == Dispatched(cfg, outgoing, hs))
    && (c.peer.None? ==> c.log != [] && c.log[|c.log| - 1].Disconnected?)
  }

  /** A peer its messages make, with the log they dispatch, is lawful. */
  lemma LawfulOpen(cfg: Config, outgoing: bool, ban: nat, hs: seq<Heard>)
    requires Opening(cfg, outgoing, hs)
    ensures Lawful(cfg, outgoing, Conn(Some(Greeting(cfg, outgoing, ban, hs)), Dispatched(cfg, outgoing, hs)), hs)
  {
    hide Opening, Greeting, Dispatched, Announcements;
    GreetingBan(cfg, outgoing, ban, hs);
    DispatchedKinds(cfg, outgoing, hs);
    AnnouncementsAll(Dispatched(cfg, outgoing, hs));
  }

  lemma LawfulEnd(cfg: Config, outgoing: bool, log: seq<Dispatch>, hs: seq<Heard>, banned: bool)
    requires Announcements(log) == Dispatched(cfg, outgoing, hs)
    ensures Lawful(cfg, outgoing, Conn(None, log + [Disconnected(banned)]), hs)
  {
    assert (log + [Disconnected(banned)])[..|log|] == log;
  }

  lemma LawfulPunish(cfg: Config, outgoing: bool, c: Conn, hs: seq<Heard>, score: nat)
    requires Lawful(cfg, outgoing, c, hs)
    ensures Lawful(cfg, outgoing, Punish(c, score), hs)
  {
    hide Dispatched, Announcements, Opening;
    LawfulEnd(cfg, outgoing, c.log, hs, true);
  }

  /** A read in closed form: the peer the messages make, what is dispatched, or the fault that drops the peer. */
  lemma ReadClosed(cfg: Config, outgoing: bool, c: Conn, hs: seq<Heard>, msgs: seq<Msg>, malformed: bool, closed: bool, height: nat)
    requires Lawful(cfg, outgoing, c, hs) && c.peer.Some?
    ensures var all := hs + Tagged(msgs, height, !malformed && !closed);
            var c' := OnEvent(cfg, c, Read(msgs, malformed, closed, height));
            && Lawful(cfg, outgoing, c', all)
            && (!Opening(cfg, outgoing, all) ==> c' == Conn(None, c.log + [Disconnected(Fault(cfg, outgoing, all))]))
            && (Opening(cfg, outgoing, all) && !malformed ==>
                  if closed then c' == Conn(None, c.log + [Disconnected(false)])
                  else c' == Conn(Some(Greeting(cfg, outgoing, c.peer.value.ban, all)), Dispatched(cfg, outgoing, all)))
            && (Opening(cfg, outgoing, all) && malformed ==>
                  c' == Punish(Conn(Some(Greeting(cfg, outgoing, c.peer.value.ban, all)), c.log), 10))
  {
    hide Opening, Greeting, Fault, Turns, Dispatched, Announcements, AfterTwo, Incomings, Tagged;
    var delivered := !malformed && !closed;
    var all := hs + Tagged(msgs, height, delivered);
    TurnsClosed(cfg, outgoing, c.peer.value.ban, height, hs, delivered, msgs);
    DispatchedGrows(cfg, outgoing, hs, msgs, height, delivered);
    DispatchedKinds(cfg, outgoing, all);
    AnnouncementsAll(Dispatched(cfg, outgoing, all));
    if !Opening(cfg, outgoing, all) {
      LawfulEnd(cfg, outgoing, c.log, all, Fault(cfg, outgoing, all));
    } else {
      GreetingBan(cfg, outgoing, c.peer.value.ban, all);
      if malformed {
        LawfulPunish(cfg, outgoing, Conn(Some(Greeting(cfg, outgoing, c.peer.value.ban, all)), c.log), all, 10);
      } else if closed {
        LawfulEnd(cfg, outgoing, c.log, all, false);
      }
    }
  }

  lemma GreetingBan(cfg: Config, outgoing: bool, ban: nat, hs: seq<Heard>)
    ensures Greeting(cfg, outgoing, ban, hs).ban == ban
    ensures forall b: nat :: Greeting(cfg, outgoing, ban, hs).(ban := b) == Greeting(cfg, outgoing, b, hs)
  {
  }

  /**
   * The handshake over every sequence of events. While the peer is there it is exactly the peer its
   * messages make, and the log is exactly what those messages dispatch; afterwards the log is that,
   * and disconnections.
   */
  lemma {:induction false} HandshakeLaw(cfg: Config, outgoing: bool, events: seq<Event>)
    ensures Lawful(cfg, outgoing, OnEvents(cfg, NewConn(outgoing), events), History(cfg, outgoing, events))
    decreases |events|
  {
    hide OnEvent, Lawful, Punish;
    if events == [] {
      NewLawful(cfg, outgoing);
    } else {
      var front, e := events[..|events| - 1], events[|events| - 1];
      HandshakeLaw(cfg, outgoing, front);
      LawfulStep(cfg, outgoing, OnEvents(cfg, NewConn(outgoing), front), History(cfg, outgoing, front), e);
      assert History(cfg, outgoing, front) + [] == History(cfg, outgoing, front);
    }
  }

  lemma NewLawful(cfg: Config, outgoing: bool)
    ensures Lawful(cfg, outgoing, NewConn(outgoing), [])
  {
  }

  lemma LawfulStep(cfg: Config, outgoing: bool, c: Conn, hs: seq<Heard>, e: Event)
    requires Lawful(cfg, outgoing, c, hs)
    ensures Lawful(cfg, outgoing, OnEvent(cfg, c, e),
                   if e.Read? && c.peer.Some? then hs + Tagged(e.msgs, e.height, !e.malformed && !e.closed) else hs)
  {
    hide Turns, Dispatched, Announcements, Opening, Greeting, Tagged, Finish, Punish;
    match e
    case Read(msgs, malformed, closed, height) =>
      if c.peer.Some? {
        ReadClosed(cfg, outgoing, c, hs, msgs, malformed, closed, height);
      }
    case BanRequest(score) => LawfulPunish(cfg, outgoing, c, hs, score);
    case ReadError => LawfulEnd(cfg, outgoing, c.log, hs, false);
    case HungUp => LawfulEnd(cfg, outgoing, c.log, hs, false);
  }

  /**
   * Read off the law, for a peer that is still there: it has the verack flag exactly if a verack was
   * heard, a version exactly if one was heard, which is the one kept, capped, and suited this node at
   * the height of that time; it is connected exactly with both; and a connected peer's log is the
   * announcement, if due, and the delivered messages from the third on.
   */
  lemma HandshakeSafe(cfg: Config, outgoing: bool, events: seq<Event>)
    ensures var c := OnEvents(cfg, NewConn(outgoing), events);
            var hs := History(cfg, outgoing, events);
            c.peer.Some? ==>
              var p := c.peer.value;
              && (p.gotVerack <==> exists i :: 0 <= i < |hs| && hs[i].msg.Verack?)
              && (p.version.Some? <==> exists i :: 0 <= i < |hs| && hs[i].msg.VersionMsg?)
              && (p.version.Some? ==> exists i :: 0 <= i < |hs| && i < 2 && hs[i].msg.VersionMsg?
                                        && p.version.value == Capped(cfg, hs[i].msg.v)
                                        && Meets(cfg, outgoing, hs[i].height, hs[i].msg.v))
              && (p.connected <==> p.version.Some? && p.gotVerack)
              && (p.connected <==> |hs| >= 2)
              && (p.connected ==> c.log == (if hs[1].delivered then [Connected] else []) + Incomings(Delivered(hs[2..])))
              && (!p.connected ==> c.log == [])
  {
    HandshakeLaw(cfg, outgoing, events);
    hide OnEvents, History, Suitable, Meets, Delivered, Incomings, Announcements;
    var c := OnEvents(cfg, NewConn(outgoing), events);
    var hs := History(cfg, outgoing, events);
    forall i | 0 <= i < |hs| && hs[i].msg.VersionMsg?
      ensures Suitable(cfg, outgoing, hs[i].height, hs[i].msg.v) <==> Meets(cfg, outgoing, hs[i].height, hs[i].msg.v)
    {
      SuitableIff(cfg, outgoing, hs[i].height, hs[i].msg.v);
    }
    if c.peer.Some? {
      assert |hs| >= 2 ==> (hs[0].msg.Verack? || hs[1].msg.Verack?) && (hs[0].msg.VersionMsg? || hs[1].msg.VersionMsg?);
    }
  }

  /** A log is what the messages dispatch, followed by disconnections, of which there is one exactly if the peer is gone. */
  ghost predicate LogOf(c: Conn, ds: seq<Dispatch>) {
    && |ds| <= |c.log| && c.log[..|ds|] == ds
    && (forall i :: |ds| <= i < |c.log| ==> c.log[i].Disconnected?)
    && (c.peer.None? <==> |ds| < |c.log|)
  }

  /** One more event: what was dispatched stays, and after a disconnection only disconnections come. */
  lemma LogStep(cfg: Config, outgoing: bool, c: Conn, hs: seq<Heard>, e: Event)
    requires Lawful(cfg, outgoing, c, hs) && LogOf(c, Dispatched(cfg, outgoing, hs))
    ensures var all := if e.Read? && c.peer.Some? then hs + Tagged(e.msgs, e.height, !e.malformed && !e.closed) else hs;
            LogOf(OnEvent(cfg, c, e), Dispatched(cfg, outgoing, all))
  {
    hide Turns, Dispatched, Announcements, Opening, Greeting, Tagged, Incomings;
    LawfulStep(cfg, outgoing, c, hs, e);
    var c' := OnEvent(cfg, c, e);
    var all := if e.Read? && c.peer.Some? then hs + Tagged(e.msgs, e.height, !e.malformed && !e.closed) else hs;
    if c.peer.Some? && c'.peer.None? {
      var last := c'.log[|c'.log| - 1];
      assert c'.log == c.log + [last];
      assert (c.log + [last])[..|c.log|] == c.log;
      DispatchedKinds(cfg, outgoing, hs);
      AnnouncementsAll(c.log);
      AnnouncementsLast(c.log, last);
    }
  }

  lemma AnnouncementsLast(log: seq<Dispatch>, last: Dispatch)
    requires last.Disconnected?
    ensures Announcements(log + [last]) == Announcements(log)
  {
    assert (log + [last])[..|log|] == log;
  }

  /**
   * The log over every sequence of events, whether the peer is there or gone: the announcement, if
   * due, then the delivered messages from the third on, then disconnections. So a connection is
   * announced at most once, nothing but disconnections follows a disconnection, and the peer is
   * gone exactly when there is one.
   */
  lemma {:induction false} LogLaw(cfg: Config, outgoing: bool, events: seq<Event>)
    ensures var c := OnEvents(cfg, NewConn(outgoing), events);
            && LogOf(c, Dispatched(cfg, outgoing, History(cfg, outgoing, events)))
            && (forall i, j :: 0 <= i < j < |c.log| ==> !(c.log[i].Connected? && c.log[j].Connected?))
    decreases |events|
  {
    hide OnEvent, Dispatched, Lawful;
    var c, hs := OnEvents(cfg, NewConn(outgoing), events), History(cfg, outgoing, events);
    if events == [] {
      NothingHeard(cfg, outgoing);
    } else {
      var front, e := events[..|events| - 1], events[|events| - 1];
      LogLaw(cfg, outgoing, front);
      HandshakeLaw(cfg, outgoing, front);
      LogStep(cfg, outgoing, OnEvents(cfg, NewConn(outgoing), front), History(cfg, outgoing, front), e);
      assert History(cfg, outgoing, front) + [] == History(cfg, outgoing, front);
    }
    DispatchedKinds(cfg, outgoing, hs);
    forall i, j | 0 <= i < j < |c.log|
      ensures !(c.log[i].Connected? && c.log[j].Connected?)
    {
      var ds := Dispatched(cfg, outgoing, hs);
      assert j < |ds| ==> c.log[j] == ds[j];
    }
  }

  lemma NothingHeard(cfg: Config, outgoing: bool)
    ensures Dispatched(cfg, outgoing, []) == []
  {
  }

  /** Whether the event that costs a peer its place is reported as a ban, given everything heard up to it. */
  ghost predicate Blamed(cfg: Config, outgoing: bool, e: Event, all: seq<Heard>) {
    match e
    case Read(_, malformed, _, _) => if Opening(cfg, outgoing, all) then malformed else Fault(cfg, outgoing, all)
    case BanRequest(_) => true
    case ReadError => false
    case HungUp => false
  }

  /**
   * How a present peer goes, over every run: a hang-up and a read error always drop it without ban;
   * a ban request raises its score, and drops it as banned exactly from 100 on; whatever drops it adds
   * one disconnection, with the ban it deserves.
   */
  lemma HowPeersGo(cfg: Config, outgoing: bool, events: seq<Event>, e: Event)
    requires OnEvents(cfg, NewConn(outgoing), events).peer.Some?
    ensures var c := OnEvents(cfg, NewConn(outgoing), events);
            var c' := OnEvent(cfg, c, e);
            && (e.HungUp? || e.ReadError? ==> c' == Conn(None, c.log + [Disconnected(false)]))
            && (e.BanRequest? ==> if c.peer.value.ban + e.score >= 100 then c' == Conn(None, c.log + [Disconnected(true)])
                                  else c' == Conn(Some(c.peer.value.(ban := c.peer.value.ban + e.score)), c.log))
            && (c'.peer.None? ==>
                  c'.log == c.log + [Disconnected(Blamed(cfg, outgoing, e, History(cfg, outgoing, events + [e])))])
  {
    var c, hs := OnEvents(cfg, NewConn(outgoing), events), History(cfg, outgoing, events);
    assert (events + [e])[..|events|] == events;
    HandshakeLaw(cfg, outgoing, events);
    if e.Read? {
      hide OnEvent, Lawful, Opening, Fault, Greeting, Dispatched, Tagged, OnEvents, History;
      ReadClosed(cfg, outgoing, c, hs, e.msgs, e.malformed, e.closed, e.height);
      HistoryRead(cfg, outgoing, events, e);
    }
  }

  lemma HistoryRead(cfg: Config, outgoing: bool, events: seq<Event>, e: Event)
    requires OnEvents(cfg, NewConn(outgoing), events).peer.Some? && e.Read?
    ensures History(cfg, outgoing, events + [e])
         == History(cfg, outgoing, events) + Tagged(e.msgs, e.height, !e.malformed && !e.closed)
  {
    assert (events + [e])[..|events|] == events;
  }

  // ----- announcement before messages

  /** Every incoming message comes after the announcement of the connection. */
  ghost predicate AnnouncedFirst(log: seq<Dispatch>) {
    forall i :: 0 <= i < |log| && log[i].Incoming? ==> Connected in log[..i]
  }

  /** That is: the first announcement, if any, is the connection. */
  lemma {:induction false} AnnouncedFirstHead(log: seq<Dispatch>)
    ensures Connected in Announcements(log) <==> Connected in log
    ensures AnnouncedFirst(log) <==> (Announcements(log) != [] ==> Announcements(log)[0].Connected?)
    decreases |log|
  {
    if log != [] {
      var front, last := log[..|log| - 1], log[|log| - 1];
      AnnouncedFirstHead(front);
      assert log == front + [last];
      assert forall i :: 0 <= i < |front| ==> log[..i] == front[..i];
      assert AnnouncedFirst(log) <==> AnnouncedFirst(front) && (last.Incoming? ==> Connected in front) by {
        assert log[|front|] == last && log[..|front|] == front;
        assert forall i :: 0 <= i < |front| ==> log[i] == front[i];
      }
    }
  }

  /**
   * Over every run: every incoming message follows the announcement, unless the read that completed
   * the handshake ended malformed or closed and a later read of the still present peer ended cleanly
   * with a message in it.
   */
  lemma AnnouncedFirstIff(cfg: Config, outgoing: bool, events: seq<Event>)
    ensures var hs := History(cfg, outgoing, events);
            AnnouncedFirst(OnEvents(cfg, NewConn(outgoing), events).log) <==>
              !(&& Completes(cfg, outgoing, hs) && !hs[1].delivered
                && exists i :: 2 <= i < |hs| && hs[i].delivered)
  {
    hide OnEvents, History, Completes, AnnouncedFirst, Announcements, Delivered, Incomings;
    HandshakeLaw(cfg, outgoing, events);
    var log := OnEvents(cfg, NewConn(outgoing), events).log;
    var hs := History(cfg, outgoing, events);
    AnnouncedFirstHead(log);
    DispatchedKinds(cfg, outgoing, hs);
    if Completes(cfg, outgoing, hs) {
      CompletesTwo(cfg, outgoing, hs);
      DeliveredNone(hs[2..]);
      IncomingsShape(Delivered(hs[2..]));
      assert forall i :: 2 <= i < |hs| ==> hs[i] == hs[2..][i - 2];
    }
  }

  lemma CompletesTwo(cfg: Config, outgoing: bool, hs: seq<Heard>)
    requires Completes(cfg, outgoing, hs)
    ensures |hs| >= 2
  {
  }

  lemma {:induction false} DeliveredNone(hs: seq<Heard>)
    ensures Delivered(hs) == [] <==> forall i :: 0 <= i < |hs| ==> !hs[i].delivered
    decreases |hs|
  {
    if hs != [] {
      DeliveredNone(hs[..|hs| - 1]);
    }
  }

  /** Such a run: version, verack and a malformed frame in one read, then a ping in the next. */
  lemma UnannouncedConnection(cfg: Config, v: Version)
    requires Suitable(cfg, true, 0, v)
    ensures OnEvents(cfg, NewConn(true), [Read([VersionMsg(v), Verack], true, false, 0), Read([Other(0)], false, false, 0)]).log
         == [Incoming(Other(0))]
  {
    var e1 := Read([VersionMsg(v), Verack], true, false, 0);
    var e2 := Read([Other(0)], false, false, 0);
    var start := Loop(NewConn(true).peer.value, GoOn, false, []);
    assert [VersionMsg(v), Verack][..1] == [VersionMsg(v)];
    assert Turns(cfg, 0, start, []) == start;
    assert Turns(cfg, 0, start, [VersionMsg(v)]).peer.version.Some?;
    var l := Turns(cfg, 0, start, e1.msgs);
    assert l.peer.connected && l.verdict.GoOn?;
    var c1 := OnEvent(cfg, NewConn(true), e1);
    assert [e1, e2][..1] == [e1] && [e1][..0] == [];
    assert OnEvents(cfg, NewConn(true), [e1]) == c1 && c1.log == [];
    var next := Loop(c1.peer.value, GoOn, false, []);
    assert e2.msgs[..0] == [] && Turns(cfg, 0, next, []) == next;
    assert next.peer.connected;
    assert Turns(cfg, 0, next, e2.msgs) == next.(incoming := [] + [Other(0)]);
    IncomingsShape([Other(0)]);
    assert [] + [Other(0)] == [Other(0)];
    assert OnEvent(cfg, c1, e2).log == [] + [] + Incomings([Other(0)]);
  }

  // ----- one clean read of everything

  /**
   * A whole conversation in one clean read: if the first two messages are a suitable version and a
   * verack, in either order, the connection is announced and all later messages follow; otherwise
   * nothing but a disconnection is dispatched.
   */
  lemma CleanReadClosed(cfg: Config, outgoing: bool, msgs: seq<Msg>, height: nat)
    ensures var hs := Tagged(msgs, height, true);
            var c := OnEvent(cfg, NewConn(outgoing), CleanRead(msgs, height));
            if Completes(cfg, outgoing, hs)
            then c == Conn(Some(Greeting(cfg, outgoing, 0, hs)), [Connected] + Incomings(msgs[2..]))
            else if Opening(cfg, outgoing, hs) then c == Conn(Some(Greeting(cfg, outgoing, 0, hs)), [])
            else c == Conn(None, [Disconnected(Fault(cfg, outgoing, hs))])
  {
    hide OnEvent, Greeting, Fault, Incomings, Delivered, Opens;
    NewLawful(cfg, outgoing);
    ReadClosed(cfg, outgoing, NewConn(outgoing), [], msgs, false, false, height);
    var hs := Tagged(msgs, height, true);
    assert [] + hs == hs;
    if Completes(cfg, outgoing, hs) {
      assert hs[2..] == Tagged(msgs[2..], height, true);
      DeliveredTagged(msgs[2..], height, true);
    }
  }

  /** The messages decide, and for an outgoing connection the heights of the first two. */
  lemma SameMessages(cfg: Config, outgoing: bool, hs: seq<Heard>, hs': seq<Heard>)
    requires |hs| == |hs'| && forall i :: 0 <= i < |hs| ==> hs[i].msg == hs'[i].msg
    requires outgoing ==> forall i :: 0 <= i < |hs| && i < 2 ==> hs[i].height == hs'[i].height
    ensures Opening(cfg, outgoing, hs) <==> Opening(cfg, outgoing, hs')
    ensures Completes(cfg, outgoing, hs) <==> Completes(cfg, outgoing, hs')
    ensures forall ban :: Greeting(cfg, outgoing, ban, hs) == Greeting(cfg, outgoing, ban, hs')
    ensures !Opening(cfg, outgoing, hs) ==> Fault(cfg, outgoing, hs) == Fault(cfg, outgoing, hs')
  {
    hide Serves;
  }

  lemma CompleteOpening(cfg: Config, outgoing: bool, hs: seq<Heard>)
    ensures Completes(cfg, outgoing, hs) ==> Opening(cfg, outgoing, hs)
  {
  }

  lemma GoneStays(cfg: Config, c: Conn, e: Event)
    requires c.peer.None? && e.Read?
    ensures OnEvent(cfg, c, e) == c
  {
  }
}
