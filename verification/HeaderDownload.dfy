/** `HeaderDownload` as an object: the nested queue loops over a received headers message, proved to be a plain fold. */
module HeaderDownload {
  import opened Wrappers
  import opened HeaderTree
  import opened Consensus
  import T = Trunk
  import S = ChainStore
  import I = Intake
  import L = ReplyLedger
  import R = ReplyAccounting
  import D = ChainDb
  import TO = Timeout
  import Loc = Locator
  import N = TrunkNotices
  import Soundness
  import Runs

  /** A request to the network layer. */
  datatype Control = Ban(peer: L.PeerId, score: nat) | GetHeaders(peer: L.PeerId, locator: seq<Hash>, stop: Hash) | Height(height: nat)

  /** The ledger after `get_headers`: one more reply expected, unless one is already or there is nothing to ask about. */
  function AfterAsking(l: L.Ledger, now: nat, peer: L.PeerId, trunk: seq<Hash>): (l': L.Ledger)
  {
    if L.IsBusyWith(l, peer, L.Headers) || trunk == [] then l else L.Expect(l, now, peer, 1, L.Headers)
  }

  /**
   * The request of `get_headers`: one getheaders message with the locator of the trunk and the own
   * tip as stop hash, exactly when a reply is newly expected.
   */
  function Request(l: L.Ledger, peer: L.PeerId, trunk: seq<Hash>): (sent: seq<Control>)
  {
    if L.IsBusyWith(l, peer, L.Headers) || trunk == [] then [] else [GetHeaders(peer, Loc.Entries(trunk, 0), T.Last(trunk))]
  }

  /** The requests after a batch without error: more headers, if anything was new, then the new height, if the tip moved. */
  function FollowUps(l: L.Ledger, peer: L.PeerId, trunk: seq<Hash>, stored: seq<T.Added>): (sent: seq<Control>)
  {
    (if stored == [] then [] else Request(l, peer, trunk))
    + if I.MovesTip(stored) then [Height(I.LastHeight(0, stored))] else []
  }

  /** One getheaders message for every reply newly expected of the peer: with the locator of the trunk and the trunk's last hash. */
  ghost predicate OnePerReply(l: L.Ledger, l': L.Ledger, peer: L.PeerId, trunk: seq<Hash>, added: seq<Control>) {
    && |added| <= 1
    && L.Count(l', peer, L.Headers) == L.Count(l, peer, L.Headers) + |added|
    && (added != [] ==> && trunk != [] && added[0].GetHeaders? && added[0].peer == peer
                        && Loc.Names(trunk, added[0].locator) && added[0].stop == trunk[|trunk| - 1])
  }

  /** A peer is asked unless it has a timer and owes headers already, or there is no trunk. */
  ghost predicate MustAsk(l: L.Ledger, peer: L.PeerId, trunk: seq<Hash>) {
    trunk != [] && (peer in l.timeouts ==> L.Count(l, peer, L.Headers) == 0)
  }

  lemma RequestLaw(l: L.Ledger, now: nat, peer: L.PeerId, trunk: seq<Hash>)
    ensures OnePerReply(l, AfterAsking(l, now, peer, trunk), peer, trunk, Request(l, peer, trunk))
    ensures Request(l, peer, trunk) != [] <==> MustAsk(l, peer, trunk)
  {
    L.CountAfterSet(l, peer, L.Headers, L.Count(l, peer, L.Headers) + 1, peer, L.Headers);
    Loc.NamesIff(trunk, Loc.Entries(trunk, 0));
    hide Loc.Names, Loc.Entries, L.SetCount;
  }

  /** A request for more exactly if something was new and the peer must be asked, then the height of the last stored header exactly if one moved the tip. */
  ghost predicate FollowsUp(l: L.Ledger, l': L.Ledger, peer: L.PeerId, trunk: seq<Hash>, stored: seq<T.Added>, added: seq<Control>) {
    var n := if stored != [] && MustAsk(l, peer, trunk) then 1 else 0;
    && n <= |added| && OnePerReply(l, l', peer, trunk, added[..n])
    && added[n..] == if exists i :: 0 <= i < |stored| && stored[i].forwards.Some? then [Height(stored[|stored| - 1].stored.height)] else []
  }

  lemma FollowUpsLaw(l: L.Ledger, now: nat, peer: L.PeerId, trunk: seq<Hash>, stored: seq<T.Added>)
    ensures var l' := if stored == [] then l else AfterAsking(l, now, peer, trunk);
            FollowsUp(l, l', peer, trunk, stored, FollowUps(l, peer, trunk, stored))
    ensures Ban(peer, 100) !in FollowUps(l, peer, trunk, stored)
  {
    RequestLaw(l, now, peer, trunk);
    hide Request, MustAsk, L.Count, AfterAsking;
    var asked := if stored == [] then [] else Request(l, peer, trunk);
    assert FollowUps(l, peer, trunk, stored)[..|asked|] == asked;
  }

  /** The steps of `get_headers` in the two-thread system. */
  function AskSteps(peer: L.PeerId, trunk: seq<Hash>): (steps: seq<(nat, R.Step)>)
  {
    [(0, R.DownloadTest(peer)), (0, if trunk == [] then R.DownloadGiveUp else R.DownloadAsk)]
  }

  /** Asking for headers is a behaviour of the system in which the other thread does not interfere, */
  lemma AskIsBehaviour(s: R.System, peer: L.PeerId, trunk: seq<Hash>)
    requires s.download.Idle?
    ensures var s' := R.Behave(s, AskSteps(peer, trunk));
            && s'.ledger == AfterAsking(s.ledger, s.now, peer, trunk)
            && s'.download.Idle? && s'.ping == s.ping && s'.asked == s.asked && s'.now == s.now
  {
    var steps := AskSteps(peer, trunk);
    R.BehaveTwo(s, steps[0].1, steps[1].1);
    hide R.Behave, L.Expect, L.IsBusyWith;
  }

  /** and so is the ledger's part of a headers message that brought something new. */
  lemma MessageIsBehaviour(s: R.System, peer: L.PeerId, trunk: seq<Hash>)
    requires s.download.Idle?
    ensures var s' := R.Behave(s, [(0, R.DownloadReceived(peer))] + AskSteps(peer, trunk));
            s'.ledger == AfterAsking(L.Received(s.ledger, s.now, peer, 1, L.Headers), s.now, peer, trunk)
  {
    R.BehaveFirst(s, R.DownloadReceived(peer), AskSteps(peer, trunk));
    AskIsBehaviour(R.Next(s, R.DownloadReceived(peer)), peer, trunk);
    hide R.Behave, AfterAsking, AskSteps, L.Received, L.Count;
  }

  /** The check for late peers is one step. */
  lemma CheckIsStep(s: R.System)
    requires s.download.Idle?
    ensures R.Next(s, R.DownloadCheck) == s.(ledger := L.Drop(s.ledger, L.Late(s.ledger, s.now, {L.Headers})))
  {
  }

  class HeaderDownload {
    const chaindb: D.ChainDB
    const timeout: TO.Timeout
    // requests sent to the network layer
    var sent: seq<Control>
    // calls made to the downstream module
    var notes: seq<I.Note>

    ghost predicate Valid()
      reads this, chaindb, chaindb.cache
    {
      chaindb.Valid()
    }

    constructor (chaindb: D.ChainDB, timeout: TO.Timeout)
      requires chaindb.Valid()
      ensures Valid() && this.chaindb == chaindb && this.timeout == timeout && sent == [] && notes == []
    {
      this.chaindb := chaindb;
      this.timeout := timeout;
      sent := [];
      notes := [];
    }

    /** Asks a peer for headers unless it already owes some; one request, one expected reply. */
    method GetHeadersFrom(now: nat, peer: L.PeerId)
      requires Valid()
      modifies this`sent, timeout
      ensures Valid() && timeout.bans == old(timeout.bans)
      ensures timeout.State() == AfterAsking(old(timeout.State()), now, peer, chaindb.cache.trunk)
      ensures sent == old(sent) + Request(old(timeout.State()), peer, chaindb.cache.trunk)
      ensures OnePerReply(old(timeout.State()), timeout.State(), peer, chaindb.cache.trunk, sent[|old(sent)|..])
      ensures |old(sent)| < |sent| <==> MustAsk(old(timeout.State()), peer, chaindb.cache.trunk)
    {
      hide L.Expect, L.IsBusyWith, Loc.Entries, OnePerReply, MustAsk;
      RequestLaw(timeout.State(), now, peer, chaindb.cache.trunk);
      var busy := timeout.IsBusyWith(peer, L.Headers);
      if busy {
        return;
      }
      var locator := chaindb.cache.LocatorHashes();
      assert locator != [] ==> Loc.Offset(0) < |chaindb.cache.trunk|;
      if |locator| > 0 {
        timeout.Expect(now, peer, 1, L.Headers);
        sent := sent + [GetHeaders(peer, locator, locator[0])];
      }
    }

    /** Asks for headers, as `get_headers` does, exactly when an announced block is unknown. */
    method Inv(now: nat, blocks: seq<Hash>, peer: L.PeerId)
      requires Valid()
      modifies this`sent, timeout
      ensures Valid()
      ensures var unknown := exists i :: 0 <= i < |blocks| && blocks[i] !in chaindb.cache.headers;
              && timeout.State() == (if unknown then AfterAsking(old(timeout.State()), now, peer, chaindb.cache.trunk)
                                     else old(timeout.State()))
              && sent == old(sent) + (if unknown then Request(old(timeout.State()), peer, chaindb.cache.trunk) else [])
              && OnePerReply(old(timeout.State()), timeout.State(), peer, chaindb.cache.trunk, sent[|old(sent)|..])
              && (|old(sent)| < |sent| <==> unknown && MustAsk(old(timeout.State()), peer, chaindb.cache.trunk))
    {
      var ask := false;
      for i := 0 to |blocks|
        invariant ask == exists j :: 0 <= j < i && blocks[j] !in chaindb.cache.headers
      {
        if blocks[i] !in chaindb.cache.headers {
          ask := true;
        }
      }
      if ask {
        GetHeadersFrom(now, peer);
      }
    }

    /** When no more messages are waiting: bans every peer late with headers. */
    method CheckLate(now: nat)
      modifies timeout
      ensures timeout.State() == L.Drop(old(timeout.State()), L.Late(old(timeout.State()), now, {L.Headers}))
      ensures |old(timeout.bans)| <= |timeout.bans|
      ensures forall p :: p in L.Late(old(timeout.State()), now, {L.Headers}) <==> p in timeout.bans[|old(timeout.bans)|..]
    {
      hide L.Late, L.Drop;
      assert (set k | k in [L.Headers]) == {L.Headers};
      timeout.Check(now, [L.Headers]);
    }

    /**
     * One pass under the lock: takes headers off the queue until it is empty, an error occurs, or
     * a header re-organises the trunk.
     */
    method Drain(queue: seq<BlockHeader>) returns (left: seq<BlockHeader>, batch: seq<T.Added>, failure: Option<Error>)
      requires Valid()
      modifies chaindb, chaindb.cache
      ensures Valid()
      ensures |left| <= |queue| && (queue != [] && failure.None? ==> |left| < |queue|)
      ensures var rest := I.Fold(old(chaindb.State()), queue);
              if failure.Some? then rest == I.Intake(chaindb.State(), batch, failure) && I.Quiet(batch)
              else rest == I.Prepend(batch, I.Fold(chaindb.State(), left))
      ensures failure.None? ==> (I.Quiet(batch) && left == []) || I.Reorganised(batch)
    {
      hide S.AddStored;
      ghost var whole := I.Fold(chaindb.State(), queue);
      left, batch, failure := queue, [], None;
      I.PrependNone(whole);
      while left != []
        invariant Valid() && |left| <= |queue| && I.Quiet(batch)
        invariant whole == I.Prepend(batch, I.Fold(chaindb.State(), left))
        decreases |left|
      {
        var header := left[0];
        left := left[1..];
        ghost var before := chaindb.State();
        var r := chaindb.AddHeader(header);
        match r {
          case Ok(Some(added)) =>
            I.PrependTwice(batch, [added], I.Fold(chaindb.State(), left));
            ghost var quiet := batch;
            batch := batch + [added];
            if added.unwinds.Some? {
              assert batch[..|batch| - 1] == quiet;
              return;
            }
          case Ok(None) =>
          case Err(e) =>
            failure := Some(e);
            assert batch + [] == batch;
            return;
        }
      }
    }

    /** The calls downstream after a pass, outside the lock. */
    method Announce(batch: seq<T.Added>)
      modifies this`notes
      ensures notes == old(notes) + I.BatchNotes(batch)
    {
      notes := notes + I.Disconnects(batch) + I.Connects(batch);
    }

    /**
     * Processes a headers message. The chain ends as a plain fold of `add_header` over the message
     * up to the first error would leave it; the downstream calls are those of `Notices`; an invalid
     * proof of work of its first refused header, and nothing else, costs the peer a ban; only without
     * error is the peer asked for more.
     */
    method Headers(now: nat, headers: seq<BlockHeader>, peer: L.PeerId) returns (r: Result<(), Error>)
      requires Valid()
      modifies this, chaindb, chaindb.cache, timeout
      ensures Valid()
      ensures headers == [] || old(chaindb.cache.trunk) == [] ==>
                && chaindb.State() == old(chaindb.State()) && notes == old(notes) && sent == old(sent)
                && timeout.State() == L.Received(old(timeout.State()), now, peer, 1, L.Headers)
                && r == if headers == [] then Ok(()) else Err(NoTip)
      ensures headers != [] && old(chaindb.cache.trunk) != [] ==>
                var whole := I.Fold(old(chaindb.State()), headers);
                && r == Ok(())
                && chaindb.State() == whole.store
                && notes == old(notes) + I.Notices([], whole.stored, whole.failure.None?)
                && timeout.State() ==
                     (var l := L.Received(old(timeout.State()), now, peer, 1, L.Headers);
                      if whole.failure.Some? || whole.stored == [] then l else AfterAsking(l, now, peer, chaindb.cache.trunk))
                && (whole.failure.Some? ==>
                      sent == old(sent) + if whole.failure == Some(SpvBadProofOfWork) then [Ban(peer, 100)] else [])
                && (whole.failure.None? ==>
                      var l := L.Received(old(timeout.State()), now, peer, 1, L.Headers);
                      && sent == old(sent) + FollowUps(l, peer, chaindb.cache.trunk, whole.stored)
                      && FollowsUp(l, timeout.State(), peer, chaindb.cache.trunk, whole.stored, sent[|old(sent)|..]))
      ensures headers != [] && old(Soundness.Sound(chaindb.State().cache) && Runs.NoSecondRoot(chaindb.cache.trunk[0], headers)) ==>
                (Ban(peer, 100) in sent[|old(sent)|..] <==> old(N.BadWork(chaindb.State().cache, headers)))
    {
      ghost var start := chaindb.State();
      assert Soundness.Sound(start.cache) ==> start.cache.trunk != [];
      hide I.Fold, I.Notices, L.Received, FollowUps, FollowsUp, AfterAsking, N.BadWork, Soundness.Sound, Runs.NoSecondRoot;
      timeout.Received(now, peer, 1, L.Headers);
      r := Ok(());
      if |headers| == 0 {
        return;
      }
      var tip := chaindb.cache.Tip();
      if tip.None? {
        return Err(NoTip);
      }
      if Soundness.Sound(start.cache) && Runs.NoSecondRoot(start.cache.trunk[0], headers) {
        N.BadWorkIff(start, headers);
      }
      var stored, failure := Process(headers);
      if failure.Some? {
        if failure == Some(SpvBadProofOfWork) {
          sent := sent + [Ban(peer, 100)];
        }
        return;
      }
      FollowUp(now, peer, stored);
    }

    /** After a batch without error: ask for more if anything was new, and publish the height if the tip moved. */
    method FollowUp(now: nat, peer: L.PeerId, stored: seq<T.Added>)
      requires Valid()
      modifies this`sent, timeout
      ensures sent == old(sent) + FollowUps(old(timeout.State()), peer, chaindb.cache.trunk, stored)
      ensures FollowsUp(old(timeout.State()), timeout.State(), peer, chaindb.cache.trunk, stored, sent[|old(sent)|..])
      ensures Ban(peer, 100) !in sent[|old(sent)|..]
      ensures timeout.State() == if stored == [] then old(timeout.State())
                                 else AfterAsking(old(timeout.State()), now, peer, chaindb.cache.trunk)
    {
      hide AfterAsking, OnePerReply, MustAsk, FollowsUp, Request;
      FollowUpsLaw(timeout.State(), now, peer, chaindb.cache.trunk, stored);
      if stored != [] {
        GetHeadersFrom(now, peer);
      }
      if exists i :: 0 <= i < |stored| && stored[i].forwards.Some? {
        sent := sent + [Height(stored[|stored| - 1].stored.height)];
      }
      assert sent == old(sent) + FollowUps(old(timeout.State()), peer, chaindb.cache.trunk, stored);
    }

    /** The outer loop: passes over the queue, each followed by its announcements. */
    method Process(headers: seq<BlockHeader>) returns (stored: seq<T.Added>, failure: Option<Error>)
      requires Valid()
      modifies this`notes, chaindb, chaindb.cache
      ensures Valid()
      ensures I.Fold(old(chaindb.State()), headers) == I.Intake(chaindb.State(), stored, failure)
      ensures notes == old(notes) + I.Notices([], stored, failure.None?)
    {
      hide I.Fold, I.Notices, I.BatchNotes;
      ghost var whole := I.Fold(chaindb.State(), headers);
      ghost var rest := whole;
      var queue := headers;
      stored, failure := [], None;
      I.PrependNone(whole);
      while queue != []
        invariant Valid()
        invariant rest == I.Fold(chaindb.State(), queue) && whole == I.Prepend(stored, rest)
        invariant old(notes) + I.Notices([], whole.stored, whole.failure.None?)
               == notes + I.Notices([], rest.stored, rest.failure.None?)
        decreases |queue|
      {
        var left, batch, failed := Drain(queue);
        if failed.Some? {
          I.NoticesLast(batch, false);
          return stored + batch, failed;
        }
        ghost var next := I.Fold(chaindb.State(), left);
        I.FoldNone(chaindb.State());
        I.PrependTwice(stored, batch, next);
        I.Announced(batch, left == [], next);
        Announce(batch);
        stored := stored + batch;
        queue, rest := left, next;
      }
      I.FoldNone(chaindb.State());
      assert stored + [] == stored;
    }
  }
}
