/** What each peer owes and until when: the operations of `Timeout` on values. The clock reading is a parameter. */
module ReplyLedger {
  type PeerId = nat

  datatype Reply = Block | Headers | Pong | FilterHeader | FilterCheckpoints | Filter

  const TIMEOUT: nat := 60

  datatype Ledger = Ledger(timeouts: map<PeerId, nat>, expected: map<PeerId, map<Reply, nat>>)

  /** Number of outstanding replies of one kind. */
  function Count(l: Ledger, peer: PeerId, what: Reply): (n: nat)
  {
    if peer in l.expected && what in l.expected[peer] then l.expected[peer][what] else 0
  }

  predicate IsBusy(l: Ledger, peer: PeerId) {
    peer in l.timeouts
  }

  predicate IsBusyWith(l: Ledger, peer: PeerId, what: Reply) {
    peer in l.timeouts && Count(l, peer, what) > 0
  }

  function SetCount(l: Ledger, peer: PeerId, what: Reply, n: nat): (l': Ledger)
  {
    var counts: map<Reply, nat> := if peer in l.expected then l.expected[peer] else map[];
    l.(expected := l.expected[peer := counts[what := n]])
  }

  lemma CountAfterSet(l: Ledger, peer: PeerId, what: Reply, n: nat, p: PeerId, w: Reply)
    ensures Count(SetCount(l, peer, what, n), p, w) == if p == peer && w == what then n else Count(l, p, w)
  {
  }

  function Expect(l: Ledger, now: nat, peer: PeerId, n: nat, what: Reply): (l': Ledger)
  {
    SetCount(l, peer, what, Count(l, peer, what) + n).(timeouts := l.timeouts[peer := now + TIMEOUT])
  }

  /** Every recorded count of the peer is zero. */
  predicate Settled(l: Ledger, peer: PeerId) {
    peer in l.expected ==> forall w :: w in l.expected[peer] ==> l.expected[peer][w] == 0
  }

  function Received(l: Ledger, now: nat, peer: PeerId, n: nat, what: Reply): (l': Ledger)
  {
    var m := Count(l, peer, what);
    var timeouts := if m > 0 then l.timeouts[peer := now + TIMEOUT] else l.timeouts;
    var left := SetCount(l, peer, what, if n < m then m - n else 0);
    left.(timeouts := if Settled(left, peer) then timeouts - {peer} else timeouts)
  }

  function Drop(l: Ledger, peers: set<PeerId>): (l': Ledger)
  {
    Ledger(l.timeouts - peers, l.expected - peers)
  }

  function Forget(l: Ledger, peer: PeerId): (l': Ledger)
  {
    Drop(l, {peer})
  }

  function ForgetAll(l: Ledger, peers: seq<PeerId>): (l': Ledger)
  {
    if peers == [] then l else Forget(ForgetAll(l, peers[..|peers| - 1]), peers[|peers| - 1])
  }

  lemma {:induction false} ForgetAllIsDrop(l: Ledger, peers: seq<PeerId>, gone: set<PeerId>)
    requires forall p :: p in gone <==> p in peers
    ensures ForgetAll(l, peers) == Drop(l, gone)
  {
    if peers == [] {
      assert gone == {};
    } else {
      var front := peers[..|peers| - 1];
      var last := peers[|peers| - 1];
      assert peers == front + [last];
      var rest := set p | p in gone && p in front;
      ForgetAllIsDrop(l, front, rest);
      assert gone == rest + {last};
      assert l.timeouts - rest - {last} == l.timeouts - gone && l.expected - rest - {last} == l.expected - gone;
    }
  }

  /** The peers whose timer ran out while they owe one of the given replies. */
  function Late(l: Ledger, now: nat, kinds: set<Reply>): (peers: set<PeerId>)
  {
    set p | p in l.timeouts && l.timeouts[p] < now && exists k :: k in kinds && Count(l, p, k) > 0
  }

  lemma LateIff(l: Ledger, now: nat, kinds: seq<Reply>, p: PeerId)
    requires p in l.timeouts
    ensures p in Late(l, now, set k | k in kinds) <==>
            l.timeouts[p] < now && exists j :: 0 <= j < |kinds| && Count(l, p, kinds[j]) > 0
  {
    var wanted := set k | k in kinds;
    if j :| 0 <= j < |kinds| && Count(l, p, kinds[j]) > 0 {
      assert kinds[j] in wanted;
    }
  }

  lemma LateTimed(l: Ledger, now: nat, kinds: set<Reply>)
    ensures Late(l, now, kinds) <= l.timeouts.Keys
  {
  }
}
