/** `Timeout` as an object, proved against the operations on values of module `ReplyLedger`. */
module Timeout {
  import L = ReplyLedger

  class Timeout {
    var timeouts: map<L.PeerId, nat>
    var expected: map<L.PeerId, map<L.Reply, nat>>
    // ban requests sent to the network layer
    var bans: seq<L.PeerId>

    ghost function State(): (l: L.Ledger)
      reads this
    {
      L.Ledger(timeouts, expected)
    }

    constructor ()
      ensures State() == L.Ledger(map[], map[]) && bans == []
    {
      timeouts := map[];
      expected := map[];
      bans := [];
    }

    method Expect(now: nat, peer: L.PeerId, n: nat, what: L.Reply)
      modifies this
      ensures State() == L.Expect(old(State()), now, peer, n, what) && bans == old(bans)
    {
      timeouts := timeouts[peer := now + L.TIMEOUT];
      var counts: map<L.Reply, nat> := if peer in expected then expected[peer] else map[];
      var m := if what in counts then counts[what] else 0;
      expected := expected[peer := counts[what := m + n]];
    }

    method Received(now: nat, peer: L.PeerId, n: nat, what: L.Reply)
      modifies this
      ensures State() == L.Received(old(State()), now, peer, n, what) && bans == old(bans)
    {
      if peer in expected && what in expected[peer] && expected[peer][what] > 0 {
        timeouts := timeouts[peer := now + L.TIMEOUT];
      }
      var counts: map<L.Reply, nat> := if peer in expected then expected[peer] else map[];
      var m := if what in counts then counts[what] else n;
      expected := expected[peer := counts[what := m - (if n < m then n else m)]];
      ghost var left := L.SetCount(old(State()), peer, what, expected[peer][what]);
      assert expected == left.expected;
      assert L.Settled(L.Ledger(timeouts, expected), peer) == L.Settled(left, peer);
      hide L.Settled, L.SetCount;
      if L.Settled(L.Ledger(timeouts, expected), peer) {
        timeouts := timeouts - {peer};
      }
    }

    method Forget(peer: L.PeerId)
      modifies this
      ensures State() == L.Forget(old(State()), peer) && bans == old(bans)
    {
      timeouts := timeouts - {peer};
      expected := expected - {peer};
    }

    method IsBusy(peer: L.PeerId) returns (b: bool)
      ensures b == L.IsBusy(State(), peer)
    {
      b := peer in timeouts;
    }

    method IsBusyWith(peer: L.PeerId, what: L.Reply) returns (b: bool)
      ensures b == L.IsBusyWith(State(), peer, what)
    {
      b := false;
      if peer in timeouts {
        if peer in expected {
          if what in expected[peer] {
            b := expected[peer][what] > 0;
          }
        }
      }
    }

    /** Does the peer owe one of these replies? */
    method Owes(peer: L.PeerId, kinds: seq<L.Reply>) returns (owes: bool)
      ensures owes == exists j :: 0 <= j < |kinds| && L.Count(State(), peer, kinds[j]) > 0
    {
      owes := false;
      for i := 0 to |kinds|
        invariant owes == exists j :: 0 <= j < i && L.Count(State(), peer, kinds[j]) > 0
      {
        owes := owes || (peer in expected && kinds[i] in expected[peer] && expected[peer][kinds[i]] > 0);
      }
    }

    /** Bans each late peer exactly once and forgets it; nobody else is touched. */
    method Check(now: nat, kinds: seq<L.Reply>)
      modifies this
      ensures var late := L.Late(old(State()), now, set k | k in kinds);
              && State() == L.Drop(old(State()), late)
              && |old(bans)| <= |bans| && bans[..|old(bans)|] == old(bans)
              && (forall p :: p in late <==> p in bans[|old(bans)|..])
              && (forall i, j :: |old(bans)| <= i < j < |bans| ==> bans[i] != bans[j])
    {
      ghost var late := L.Late(State(), now, set k | k in kinds);
      hide L.Late;
      var banned := FindLate(now, kinds);
      bans := bans + banned;
      for i := 0 to |banned|
        invariant State() == L.ForgetAll(old(State()), banned[..i]) && bans == old(bans) + banned
      {
        assert banned[..i + 1][..i] == banned[..i];
        timeouts := timeouts - {banned[i]};
        expected := expected - {banned[i]};
      }
      assert banned[..|banned|] == banned;
      L.ForgetAllIsDrop(old(State()), banned, late);
      assert bans[|old(bans)|..] == banned;
    }

    /** Collects every late peer once, visiting the timers in no particular order. */
    method FindLate(now: nat, kinds: seq<L.Reply>) returns (banned: seq<L.PeerId>)
      ensures forall i, j :: 0 <= i < j < |banned| ==> banned[i] != banned[j]
      ensures forall p :: p in L.Late(State(), now, set k | k in kinds) <==> p in banned
    {
      hide L.Late;
      ghost var late := L.Late(State(), now, set k | k in kinds);
      var todo := timeouts.Keys;
      banned := [];
      L.LateTimed(State(), now, set k | k in kinds);
      while todo != {}
        invariant todo <= timeouts.Keys
        invariant forall p :: p in banned <==> p in late && p !in todo
        invariant forall i, j :: 0 <= i < j < |banned| ==> banned[i] != banned[j]
        decreases |todo|
      {
        var p :| p in todo;
        todo := todo - {p};
        var owes := Owes(p, kinds);
        L.LateIff(State(), now, kinds, p);
        if timeouts[p] < now && owes {
          banned := banned + [p];
        }
      }
    }
  }
}
