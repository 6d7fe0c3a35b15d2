/**
 * The two users of the shared `Timeout`, the header download and the ping thread, as one system of
 * interleaved steps. Each step is one critical section of the shared lock, so the other thread may
 * run between a thread's busy test and the request it then records. The clock never goes back.
 */
module ReplyAccounting {
  import opened Wrappers
  import opened ReplyLedger

  /** Where a thread stands: idle, or between its busy test of a peer and its request to that peer. */
  datatype Pc = Idle | Asking(peer: PeerId)

  /** A peer was asked for a reply, or sent one it owed, at some time. */
  datatype Activity = Activity(time: nat, peer: PeerId)

  datatype System = System(ledger: Ledger, download: Pc, ping: Pc, asked: map<PeerId, nat>, history: seq<Activity>, now: nat)

  datatype Step =
    | DownloadTest(peer: PeerId)      // get_headers: already waiting for headers?
    | DownloadAsk                     // get_headers: expect one Headers reply
    | DownloadGiveUp                  // get_headers: no locator to send
    | DownloadReceived(peer: PeerId)  // a headers message arrived
    | DownloadCheck                   // ban peers late with headers
    | PingForget(peer: PeerId)        // a peer disconnected
    | PingPong(peer: PeerId, nonce: nat)
    | PingCheck                       // ban peers late with a pong
    | PingTest(peer: PeerId)          // ping round: busy with anything?
    | PingAsk(nonce: nat)             // ping round: expect one Pong reply

  function Begin(): (s: System)
  {
    System(Ledger(map[], map[]), Idle, Idle, map[], [], 0)
  }

  function ExpectOne(s: System, peer: PeerId, what: Reply): (s': System)
  {
    s.(ledger := Expect(s.ledger, s.now, peer, 1, what), history := s.history + [Activity(s.now, peer)])
  }

  function ReceiveOne(s: System, peer: PeerId, what: Reply): (s': System)
  {
    s.(ledger := Received(s.ledger, s.now, peer, 1, what),
       history := if Count(s.ledger, peer, what) > 0 then s.history + [Activity(s.now, peer)] else s.history)
  }

  function BanLate(s: System, what: Reply): (s': System)
  {
    s.(ledger := Drop(s.ledger, Late(s.ledger, s.now, {what})))
  }

  /** One step at the current time; a step its thread cannot take changes nothing. */
  function Next(s: System, step: Step): (s': System)
  {
    match step
    case DownloadTest(peer) =>
      if s.download.Idle? && !IsBusyWith(s.ledger, peer, Headers) then s.(download := Asking(peer)) else s
    case DownloadAsk =>
      if s.download.Asking? then ExpectOne(s.(download := Idle), s.download.peer, Headers) else s
    case DownloadGiveUp => s.(download := Idle)
    case DownloadReceived(peer) =>
      if s.download.Idle? then ReceiveOne(s, peer, Headers) else s
    case DownloadCheck =>
      if s.download.Idle? then BanLate(s, Headers) else s
    case PingForget(peer) =>
      if s.ping.Idle? then s.(ledger := Forget(s.ledger, peer), asked := s.asked - {peer}) else s
    case PingPong(peer, nonce) =>
      if s.ping.Idle? && peer in s.asked then
        var s1 := s.(asked := s.asked - {peer});
        if s.asked[peer] == nonce then ReceiveOne(s1, peer, Pong) else s1
      else s
    case PingCheck =>
      if s.ping.Idle? then BanLate(s, Pong) else s
    case PingTest(peer) =>
      if s.ping.Idle? && !IsBusy(s.ledger, peer) then s.(ping := Asking(peer)) else s
    case PingAsk(nonce) =>
      if s.ping.Asking? then
        ExpectOne(s.(ping := Idle, asked := s.asked[s.ping.peer := nonce]), s.ping.peer, Pong)
      else s
  }

  /** Steps with the time passed since the step before. */
  ghost function Behave(s: System, steps: seq<(nat, Step)>): (s': System)
    decreases |steps|
  {
    if steps == [] then s
    else Behave(Next(s.(now := s.now + steps[0].0), steps[0].1), steps[1..])
  }

  lemma {:induction false} BehaveConcat(s: System, first: seq<(nat, Step)>, second: seq<(nat, Step)>)
    ensures Behave(s, first + second) == Behave(Behave(s, first), second)
    decreases |first|
  {
    hide Next;
    if first == [] {
      assert first + second == second;
    } else {
      assert (first + second)[1..] == first[1..] + second;
      BehaveConcat(Next(s.(now := s.now + first[0].0), first[0].1), first[1..], second);
    }
  }

  /** A step at once, before the others. */
  lemma BehaveFirst(s: System, step: Step, steps: seq<(nat, Step)>)
    ensures Behave(s, [(0, step)] + steps) == Behave(Next(s, step), steps)
  {
    hide Next;
    assert s.(now := s.now + 0) == s;
    assert ([(0, step)] + steps)[1..] == steps;
  }

  lemma BehaveTwo(s: System, a: Step, b: Step)
    ensures Behave(s, [(0, a), (0, b)]) == Next(Next(s, a), b)
  {
    BehaveFirst(s, a, [(0, b)]);
    BehaveFirst(Next(s, a), b, []);
    hide Next;
    assert [(0, a)] + [(0, b)] == [(0, a), (0, b)] && [(0, b)] + [] == [(0, b)];
  }

  // ----- the invariant

  /** Some count of the peer is positive. */
  ghost predicate Owing(l: Ledger, peer: PeerId) {
    exists w :: Count(l, peer, w) > 0
  }

  /** A peer has a timer exactly when it owes a reply. */
  ghost predicate TimedIffOwing(l: Ledger) {
    forall p :: p in l.timeouts <==> Owing(l, p)
  }

  /** At most one headers and one pong reply outstanding per peer, and nothing else. */
  ghost predicate AtMostOne(l: Ledger) {
    forall p, w :: Count(l, p, w) <= if w == Headers || w == Pong then 1 else 0
  }

  /** Time of the peer's latest activity. */
  ghost function Latest(history: seq<Activity>, peer: PeerId): (t: Option<nat>)
  {
    if history == [] then None
    else
      var last := history[|history| - 1];
      if last.peer == peer then Some(last.time) else Latest(history[..|history| - 1], peer)
  }

  ghost predicate InOrder(history: seq<Activity>, now: nat) {
    && (forall i, j :: 0 <= i < j < |history| ==> history[i].time <= history[j].time)
    && (forall i :: 0 <= i < |history| ==> history[i].time <= now)
  }

  /** Every timer was set by the peer's latest activity. */
  ghost predicate Stamped(s: System) {
    forall p :: p in s.ledger.timeouts ==>
      Latest(s.history, p).Some? && s.ledger.timeouts[p] == Latest(s.history, p).value + TIMEOUT
  }

  ghost predicate Inv(s: System) {
    && TimedIffOwing(s.ledger)
    && AtMostOne(s.ledger)
    && (s.download.Asking? ==> Count(s.ledger, s.download.peer, Headers) == 0)
    && (s.ping.Asking? ==> Count(s.ledger, s.ping.peer, Pong) == 0)
    && InOrder(s.history, s.now)
    && Stamped(s)
  }

  // ----- counts and timers after each ledger operation

  lemma SettledIff(l: Ledger, peer: PeerId)
    ensures Settled(l, peer) <==> !Owing(l, peer)
  {
    if !Settled(l, peer) {
      var w :| w in l.expected[peer] && l.expected[peer][w] != 0;
      assert Count(l, peer, w) > 0;
    }
  }

  lemma ExpectLedger(l: Ledger, now: nat, peer: PeerId, n: nat, what: Reply)
    requires TimedIffOwing(l) && n > 0
    ensures var l' := Expect(l, now, peer, n, what);
            && TimedIffOwing(l')
            && l'.timeouts == l.timeouts[peer := now + TIMEOUT]
            && forall p, w :: Count(l', p, w) == Count(l, p, w) + if p == peer && w == what then n else 0
  {
    var l' := Expect(l, now, peer, n, what);
    forall p, w
      ensures Count(l', p, w) == Count(l, p, w) + if p == peer && w == what then n else 0
    {
      CountAfterSet(l, peer, what, Count(l, peer, what) + n, p, w);
    }
    OwingMoves(l, l', peer);
    assert Count(l', peer, what) > 0;
  }

  /** If only one peer's counts change, only that peer's owing can change. */
  lemma OwingMoves(l: Ledger, l': Ledger, peer: PeerId)
    requires forall p, w :: p != peer ==> Count(l', p, w) == Count(l, p, w)
    ensures forall p :: p != peer ==> (Owing(l', p) <==> Owing(l, p))
  {
    forall p | p != peer
      ensures Owing(l', p) <==> Owing(l, p)
    {
      if Owing(l, p) {
        var w :| Count(l, p, w) > 0;
        assert Count(l', p, w) > 0;
      }
    }
  }

  lemma ReceivedCounts(l: Ledger, now: nat, peer: PeerId, n: nat, what: Reply)
    ensures var l' := Received(l, now, peer, n, what);
            var m := Count(l, peer, what);
            && (forall p, w :: Count(l', p, w) == if p == peer && w == what then (if m > n then m - n else 0) else Count(l, p, w))
            && (peer in l'.timeouts <==> Owing(l', peer) && (m > 0 || peer in l.timeouts))
  {
    var m := Count(l, peer, what);
    var left := SetCount(l, peer, what, if n < m then m - n else 0);
    var l' := Received(l, now, peer, n, what);
    assert l'.expected == left.expected;
    hide Received, SetCount;
    forall p, w
      ensures Count(l', p, w) == if p == peer && w == what then (if m > n then m - n else 0) else Count(l, p, w)
    {
      CountAfterSet(l, peer, what, if n < m then m - n else 0, p, w);
    }
    SettledIff(left, peer);
    assert Settled(left, peer) <==> Settled(l', peer);
    SettledIff(l', peer);
  }

  lemma ReceivedLedger(l: Ledger, now: nat, peer: PeerId, n: nat, what: Reply)
    requires TimedIffOwing(l)
    ensures var l' := Received(l, now, peer, n, what);
            var m := Count(l, peer, what);
            && TimedIffOwing(l')
            && (forall p :: p in l'.timeouts ==>
                  (p in l.timeouts && l'.timeouts[p] == if p == peer && m > 0 then now + TIMEOUT else l.timeouts[p]))
            && forall p, w :: Count(l', p, w) == if p == peer && w == what then (if m > n then m - n else 0) else Count(l, p, w)
  {
    hide Count, SetCount, Settled;
    ReceivedCounts(l, now, peer, n, what);
    var l' := Received(l, now, peer, n, what);
    OwingMoves(l, l', peer);
    if Owing(l', peer) {
      var w :| Count(l', peer, w) > 0;
      assert Count(l, peer, w) > 0;
    }
  }

  lemma DropLedger(l: Ledger, gone: set<PeerId>)
    requires TimedIffOwing(l)
    ensures var l' := Drop(l, gone);
            && TimedIffOwing(l')
            && (forall p :: p in l'.timeouts <==> p in l.timeouts && p !in gone)
            && (forall p :: p in l'.timeouts ==> l'.timeouts[p] == l.timeouts[p])
            && forall p, w :: Count(l', p, w) == if p in gone then 0 else Count(l, p, w)
  {
    var l' := Drop(l, gone);
    forall p
      ensures p in l'.timeouts <==> Owing(l', p)
    {
      if p !in gone && Owing(l, p) {
        var w :| Count(l, p, w) > 0;
        assert Count(l', p, w) > 0;
      }
      if Owing(l', p) {
        var w :| Count(l', p, w) > 0;
        assert Count(l, p, w) > 0;
      }
    }
  }

  // ----- every step keeps the invariant

  lemma LatestAppend(history: seq<Activity>, a: Activity, peer: PeerId)
    ensures Latest(history + [a], peer) == if a.peer == peer then Some(a.time) else Latest(history, peer)
  {
    assert (history + [a])[..|history|] == history;
  }

  /** Recording an activity of one peer and stamping its timer keeps all timers stamped. */
  lemma StampOne(s: System, s': System, peer: PeerId)
    requires Stamped(s) && s'.history == s.history + [Activity(s.now, peer)]
    requires forall p :: p in s'.ledger.timeouts ==>
               if p == peer then s'.ledger.timeouts[p] == s.now + TIMEOUT
               else p in s.ledger.timeouts && s'.ledger.timeouts[p] == s.ledger.timeouts[p]
    ensures Stamped(s')
  {
    forall p | p in s'.ledger.timeouts
      ensures Latest(s'.history, p).Some? && s'.ledger.timeouts[p] == Latest(s'.history, p).value + TIMEOUT
    {
      LatestAppend(s.history, Activity(s.now, peer), p);
    }
  }

  /** A peer without timer has no count, so recording one request leaves at most one. */
  lemma ExpectKeeps(s: System, peer: PeerId, what: Reply)
    requires Inv(s) && (what == Headers || what == Pong) && Count(s.ledger, peer, what) == 0
    requires what == Headers ==> s.download.Idle?
    requires what == Pong ==> s.ping.Idle?
    ensures Inv(ExpectOne(s, peer, what))
  {
    hide Expect, Count, Latest;
    ExpectLedger(s.ledger, s.now, peer, 1, what);
    StampOne(s, ExpectOne(s, peer, what), peer);
  }

  lemma ReceiveKeeps(s: System, peer: PeerId, what: Reply)
    requires Inv(s)
    ensures Inv(ReceiveOne(s, peer, what))
  {
    hide Received, Count, Latest;
    ReceivedLedger(s.ledger, s.now, peer, 1, what);
    if Count(s.ledger, peer, what) > 0 {
      StampOne(s, ReceiveOne(s, peer, what), peer);
    }
  }

  lemma DropKeeps(s: System, gone: set<PeerId>)
    requires Inv(s)
    ensures Inv(s.(ledger := Drop(s.ledger, gone)))
  {
    hide Drop, Count, Latest;
    DropLedger(s.ledger, gone);
  }

  lemma InvStep(s: System, step: Step)
    requires Inv(s)
    ensures Inv(Next(s, step))
  {
    hide Expect, Received, Drop, Latest, InOrder, Late;
    match step
    case DownloadTest(peer) =>
      assert Count(s.ledger, peer, Headers) > 0 ==> Owing(s.ledger, peer);
    case DownloadAsk =>
      if s.download.Asking? {
        ExpectKeeps(s.(download := Idle), s.download.peer, Headers);
      }
    case DownloadGiveUp =>
    case DownloadReceived(peer) =>
      ReceiveKeeps(s, peer, Headers);
    case DownloadCheck =>
      DropKeeps(s, Late(s.ledger, s.now, {Headers}));
    case PingForget(peer) =>
      DropKeeps(s.(asked := s.asked - {peer}), {peer});
    case PingPong(peer, nonce) =>
      ReceiveKeeps(s.(asked := s.asked - {peer}), peer, Pong);
    case PingCheck =>
      DropKeeps(s, Late(s.ledger, s.now, {Pong}));
    case PingTest(peer) =>
      assert Count(s.ledger, peer, Pong) > 0 ==> Owing(s.ledger, peer);
    case PingAsk(nonce) =>
      if s.ping.Asking? {
        ExpectKeeps(s.(ping := Idle, asked := s.asked[s.ping.peer := nonce]), s.ping.peer, Pong);
      }
  }

  /**
   * Reply accounting over every interleaving: a peer has a timer exactly when it owes a reply, it
   * never owes more than one headers and one pong reply, and its timer runs from its latest activity.
   */
  lemma {:induction false} AccountingHolds(s: System, steps: seq<(nat, Step)>)
    requires Inv(s)
    ensures Inv(Behave(s, steps))
    decreases |steps|
  {
    hide Next, Inv;
    if steps != [] {
      TimePasses(s, steps[0].0);
      var s1 := s.(now := s.now + steps[0].0);
      InvStep(s1, steps[0].1);
      AccountingHolds(Next(s1, steps[0].1), steps[1..]);
    }
  }

  lemma TimePasses(s: System, elapsed: nat)
    requires Inv(s)
    ensures Inv(s.(now := s.now + elapsed))
  {
  }

  lemma BeginInv()
    ensures Inv(Begin())
  {
  }

  lemma {:induction false} LatestIsLast(history: seq<Activity>, now: nat, peer: PeerId, i: nat)
    requires InOrder(history, now) && i < |history| && history[i].peer == peer
    ensures Latest(history, peer).Some? && history[i].time <= Latest(history, peer).value
    decreases |history|
  {
    var last := |history| - 1;
    if history[last].peer != peer {
      LatestIsLast(history[..last], now, peer, i);
    }
  }

  /** A check bans exactly the peers that owe the reply and had no activity in the last sixty seconds. */
  lemma BansOnlyTheSilent(steps: seq<(nat, Step)>, what: Reply, peer: PeerId)
    ensures var s := Behave(Begin(), steps);
            peer in Late(s.ledger, s.now, {what}) <==>
              && Count(s.ledger, peer, what) > 0
              && forall i :: 0 <= i < |s.history| && s.history[i].peer == peer ==> s.history[i].time + 60 < s.now
  {
    hide Behave, Count;
    BeginInv();
    AccountingHolds(Begin(), steps);
    var s := Behave(Begin(), steps);
    if Count(s.ledger, peer, what) > 0 {
      assert Owing(s.ledger, peer);
      var t := LatestExists(s.history, peer);
      forall i | 0 <= i < |s.history| && s.history[i].peer == peer
        ensures s.history[i].time <= s.history[t].time
      {
        LatestIsLast(s.history, s.now, peer, i);
      }
      assert what in {what};
    }
  }

  lemma {:induction false} LatestExists(history: seq<Activity>, peer: PeerId) returns (i: nat)
    requires Latest(history, peer).Some?
    ensures i < |history| && history[i].peer == peer && history[i].time == Latest(history, peer).value
    decreases |history|
  {
    if history[|history| - 1].peer == peer {
      i := |history| - 1;
    } else {
      i := LatestExists(history[..|history| - 1], peer);
    }
  }
}
