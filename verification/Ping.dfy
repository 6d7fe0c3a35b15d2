/** `Ping` as an object: the nonces it sent and its use of the shared `Timeout`. */
module Ping {
  import L = ReplyLedger
  import R = ReplyAccounting
  import TO = Timeout

  /** Peers pinged in a round: those not busy, each of which then expects a pong. */
  function Round(l: L.Ledger, now: nat, peers: seq<L.PeerId>): (l': L.Ledger)
  {
    if peers == [] then l
    else
      var before := Round(l, now, peers[..|peers| - 1]);
      var peer := peers[|peers| - 1];
      if L.IsBusy(before, peer) then before else L.Expect(before, now, peer, 1, L.Pong)
  }

  /** The pings of a round, each with the nonce drawn for it. */
  function Pings(l: L.Ledger, now: nat, peers: seq<L.PeerId>, nonces: seq<nat>): (pings: seq<(L.PeerId, nat)>)
    requires |nonces| == |peers|
  {
    if peers == [] then []
    else
      var last := |peers| - 1;
      Pings(l, now, peers[..last], nonces[..last])
      + if L.IsBusy(Round(l, now, peers[..last]), peers[last]) then [] else [(peers[last], nonces[last])]
  }

  /** The nonces remembered after some pings. */
  function Recorded(asked: map<L.PeerId, nat>, pings: seq<(L.PeerId, nat)>): (asked': map<L.PeerId, nat>)
  {
    if pings == [] then asked
    else
      var last := pings[|pings| - 1];
      Recorded(asked, pings[..|pings| - 1])[last.0 := last.1]
  }

  lemma RecordedOne(asked: map<L.PeerId, nat>, pings: seq<(L.PeerId, nat)>, ping: (L.PeerId, nat))
    ensures Recorded(asked, pings + [ping]) == Recorded(asked, pings)[ping.0 := ping.1]
  {
    assert (pings + [ping])[..|pings|] == pings;
  }

  predicate Pinged(pings: seq<(L.PeerId, nat)>, peer: L.PeerId) {
    exists i :: 0 <= i < |pings| && pings[i].0 == peer
  }

  /** After a round exactly the peers that had a timer before and those of the round have one. */
  lemma {:induction false} RoundBusy(l: L.Ledger, now: nat, peers: seq<L.PeerId>, peer: L.PeerId)
    ensures peer in Round(l, now, peers).timeouts <==> peer in l.timeouts || peer in peers
    decreases |peers|
  {
    if peers != [] {
      var front, last := peers[..|peers| - 1], peers[|peers| - 1];
      assert peers == front + [last];
      RoundBusy(l, now, front, peer);
    }
  }

  /** A round pings exactly its peers without a timer, */
  lemma {:induction false} PingedIff(l: L.Ledger, now: nat, peers: seq<L.PeerId>, nonces: seq<nat>, peer: L.PeerId)
    requires |nonces| == |peers|
    ensures Pinged(Pings(l, now, peers, nonces), peer) <==> peer in peers && peer !in l.timeouts
    decreases |peers|
  {
    if peers != [] {
      var last := |peers| - 1;
      var front, before := peers[..last], Pings(l, now, peers[..last], nonces[..last]);
      assert peers == front + [peers[last]];
      PingedIff(l, now, front, nonces[..last], peer);
      RoundBusy(l, now, front, peers[last]);
      hide Round;
      var pings := Pings(l, now, peers, nonces);
      assert pings[..|before|] == before;
      if Pinged(before, peer) {
        var i :| 0 <= i < |before| && before[i].0 == peer;
        assert pings[i].0 == peer;
      }
      if |pings| > |before| {
        assert pings[|before|].0 == peers[last];
      }
    }
  }

  /** each of them once, and the nonce it was sent is the one remembered; other nonces stay. */
  lemma {:induction false} PingedOnce(l: L.Ledger, now: nat, peers: seq<L.PeerId>, nonces: seq<nat>, asked: map<L.PeerId, nat>)
    requires |nonces| == |peers|
    ensures var pings := Pings(l, now, peers, nonces);
            && (forall i, j :: 0 <= i < j < |pings| ==> pings[i].0 != pings[j].0)
            && var asked' := Recorded(asked, pings);
            && (forall i :: 0 <= i < |pings| ==> pings[i].0 in asked' && asked'[pings[i].0] == pings[i].1)
            && (forall p :: !Pinged(pings, p) ==>
                  (p in asked' <==> p in asked) && (p in asked ==> asked'[p] == asked[p]))
    decreases |peers|
  {
    if peers != [] {
      var last := |peers| - 1;
      var front, before := peers[..last], Pings(l, now, peers[..last], nonces[..last]);
      PingedOnce(l, now, front, nonces[..last], asked);
      PingedIff(l, now, front, nonces[..last], peers[last]);
      RoundBusy(l, now, front, peers[last]);
      var pings := Pings(l, now, peers, nonces);
      if pings != before {
        var ping := (peers[last], nonces[last]);
        assert pings == before + [ping];
        hide Round, Pings, Recorded;
        RecordedOne(asked, before, ping);
        assert !Pinged(before, ping.0);
        forall p | !Pinged(pings, p)
          ensures p != ping.0 && !Pinged(before, p)
        {
          assert pings[|before|].0 == ping.0;
          assert forall i :: 0 <= i < |before| ==> pings[i] == before[i];
        }
      }
    }
  }

  // ----- a round as steps of the two-thread system

  /** A round with no time passing: each peer is tested, then asked if the test let it. */
  function RoundSteps(peers: seq<L.PeerId>, nonces: seq<nat>): (steps: seq<(nat, R.Step)>)
    requires |nonces| == |peers|
  {
    if peers == [] then []
    else
      var last := |peers| - 1;
      RoundSteps(peers[..last], nonces[..last]) + [(0, R.PingTest(peers[last])), (0, R.PingAsk(nonces[last]))]
  }

  /** The round of the ping thread is a behaviour of the system in which the other thread does not interfere. */
  lemma {:induction false} RoundIsBehaviour(s: R.System, peers: seq<L.PeerId>, nonces: seq<nat>)
    requires |nonces| == |peers| && s.ping.Idle?
    ensures var s' := R.Behave(s, RoundSteps(peers, nonces));
            && s'.ledger == Round(s.ledger, s.now, peers)
            && s'.asked == Recorded(s.asked, Pings(s.ledger, s.now, peers, nonces))
            && s'.ping.Idle? && s'.download == s.download && s'.now == s.now
    decreases |peers|
  {
    if peers != [] {
      var last := |peers| - 1;
      var front, before := peers[..last], Pings(s.ledger, s.now, peers[..last], nonces[..last]);
      RoundIsBehaviour(s, front, nonces[..last]);
      R.BehaveConcat(s, RoundSteps(front, nonces[..last]), [(0, R.PingTest(peers[last])), (0, R.PingAsk(nonces[last]))]);
      var s1 := R.Behave(s, RoundSteps(front, nonces[..last]));
      R.BehaveTwo(s1, R.PingTest(peers[last]), R.PingAsk(nonces[last]));
      OneBehaviour(s1, peers[last], nonces[last]);
      RecordedOne(s.asked, before, (peers[last], nonces[last]));
      hide L.Expect, L.IsBusy, R.Next, R.Behave, Recorded;
      assert before + [] == before;
    }
  }

  /** Testing and asking one peer. */
  lemma OneBehaviour(s: R.System, peer: L.PeerId, nonce: nat)
    requires s.ping.Idle?
    ensures var s' := R.Next(R.Next(s, R.PingTest(peer)), R.PingAsk(nonce));
            && s'.ledger == (if L.IsBusy(s.ledger, peer) then s.ledger else L.Expect(s.ledger, s.now, peer, 1, L.Pong))
            && s'.asked == (if L.IsBusy(s.ledger, peer) then s.asked else s.asked[peer := nonce])
            && s'.ping.Idle? && s'.download == s.download && s'.now == s.now
  {
    hide L.Expect, L.IsBusy;
  }

  /** A pong and a disconnection are single steps of the system: only the nonce last sent counts, and it is used up. */
  lemma RepliesAreSteps(s: R.System, peer: L.PeerId, nonce: nat)
    requires s.ping.Idle?
    ensures var s' := R.Next(s, R.PingPong(peer, nonce));
            && s'.asked == s.asked - {peer}
            && s'.ledger == if peer in s.asked && s.asked[peer] == nonce then L.Received(s.ledger, s.now, peer, 1, L.Pong) else s.ledger
    ensures var s' := R.Next(s, R.PingForget(peer));
            s'.asked == s.asked - {peer} && s'.ledger == L.Forget(s.ledger, peer)
  {
    hide L.Received;
    assert peer !in s.asked ==> s.asked - {peer} == s.asked;
  }

  /** A whole turn: ban the late, then ping the idle. */
  lemma TurnIsBehaviour(s: R.System, peers: seq<L.PeerId>, nonces: seq<nat>)
    requires |nonces| == |peers| && s.ping.Idle?
    ensures var s' := R.Behave(s, [(0, R.PingCheck)] + RoundSteps(peers, nonces));
            var checked := L.Drop(s.ledger, L.Late(s.ledger, s.now, {L.Pong}));
            && s'.ledger == Round(checked, s.now, peers)
            && s'.asked == Recorded(s.asked, Pings(checked, s.now, peers, nonces))
  {
    var s1 := R.Next(s, R.PingCheck);
    R.BehaveFirst(s, R.PingCheck, RoundSteps(peers, nonces));
    RoundIsBehaviour(s1, peers, nonces);
    hide R.Behave, Round, Pings, Recorded, RoundSteps, L.Late, L.Drop;
  }

  class Ping {
    const timeout: TO.Timeout
    var asked: map<L.PeerId, nat>
    // pings sent
    var sent: seq<(L.PeerId, nat)>

    constructor (timeout: TO.Timeout)
      ensures this.timeout == timeout && asked == map[] && sent == []
    {
      this.timeout := timeout;
      asked := map[];
      sent := [];
    }

    method Disconnected(peer: L.PeerId)
      modifies this`asked, timeout
      ensures timeout.State() == L.Forget(old(timeout.State()), peer) && asked == old(asked) - {peer}
    {
      timeout.Forget(peer);
      asked := asked - {peer};
    }

    /** Only the nonce last sent settles the ping; any pong uses the nonce up. */
    method Pong(now: nat, peer: L.PeerId, nonce: nat)
      modifies this`asked, timeout
      ensures asked == old(asked) - {peer}
      ensures timeout.State() ==
                if peer in old(asked) && old(asked)[peer] == nonce
                then L.Received(old(timeout.State()), now, peer, 1, L.Pong)
                else old(timeout.State())
    {
      var expected := peer in asked && asked[peer] == nonce;
      asked := asked - {peer};
      if expected {
        timeout.Received(now, peer, 1, L.Pong);
      }
    }

    /** Bans peers late with a pong, then pings every peer that owes nothing and remembers its nonce. */
    method PingRound(now: nat, peers: seq<L.PeerId>, nonces: seq<nat>)
      requires |nonces| == |peers|
      modifies this, timeout
      ensures var checked := L.Drop(old(timeout.State()), L.Late(old(timeout.State()), now, {L.Pong}));
              var pings := Pings(checked, now, peers, nonces);
              && timeout.State() == Round(checked, now, peers)
              && sent == old(sent) + pings
              && asked == Recorded(old(asked), pings)
    {
      hide L.Drop, L.Late, L.Expect;
      timeout.Check(now, [L.Pong]);
      assert (set k | k in [L.Pong]) == {L.Pong};
      ghost var start := timeout.State();
      assert peers[..|peers|] == peers && nonces[..|peers|] == nonces;
      for i := 0 to |peers|
        invariant timeout.State() == Round(start, now, peers[..i])
        invariant sent == old(sent) + Pings(start, now, peers[..i], nonces[..i])
        invariant asked == Recorded(old(asked), Pings(start, now, peers[..i], nonces[..i]))
      {
        assert peers[..i + 1][..i] == peers[..i] && nonces[..i + 1][..i] == nonces[..i];
        ghost var before := Pings(start, now, peers[..i], nonces[..i]);
        RecordedOne(old(asked), before, (peers[i], nonces[i]));
        var busy := timeout.IsBusy(peers[i]);
        assert Pings(start, now, peers[..i + 1], nonces[..i + 1]) == if busy then before else before + [(peers[i], nonces[i])];
        if !busy {
          asked := asked[peers[i] := nonces[i]];
          timeout.Expect(now, peers[i], 1, L.Pong);
          sent := sent + [(peers[i], nonces[i])];
        }
      }
    }
  }
}
