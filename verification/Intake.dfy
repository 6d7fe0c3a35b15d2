/**
 * What a batch of received headers comes to, on values: a plain fold over `AddStored` up to the
 * first error, and the notifications the header download sends for it.
 */
module Intake {
  import opened Wrappers
  import opened HeaderTree
  import opened Consensus
  import opened Trunk
  import opened Runs
  import opened ChainStore

  /** The store after the batch, what each newly stored header reported, and the error that ended it, if any. */
  datatype Intake = Intake(store: Store, stored: seq<Added>, failure: Option<Error>)

  function Fold(s: Store, hs: seq<BlockHeader>): (r: Intake)
    requires WellFormed(s.cache)
    ensures WellFormed(r.store.cache)
    decreases |hs|
  {
    if hs == [] then Intake(s, [], None)
    else
      var o := AddStored(s, hs[0]);
      AddHeaderWellFormed(AsWritten, s.cache, hs[0]);
      match o.result
      case Err(e) => Intake(o.store, [], Some(e))
      case Ok(None) => Fold(o.store, hs[1..])
      case Ok(Some(added)) => Prepend([added], Fold(o.store, hs[1..]))
  }

  function Prepend(batch: seq<Added>, r: Intake): (r': Intake)
  {
    r.(stored := batch + r.stored)
  }

  lemma PrependTwice(a: seq<Added>, b: seq<Added>, r: Intake)
    ensures Prepend(a, Prepend(b, r)) == Prepend(a + b, r)
  {
    assert a + (b + r.stored) == a + b + r.stored;
  }

  lemma PrependNone(r: Intake)
    ensures Prepend([], r) == r
  {
    assert [] + r.stored == r.stored;
  }

  /** The fold offers headers in order up to the first error, and leaves the cache that offering them one by one leaves. */
  lemma {:induction false} FoldIsRun(s: Store, hs: seq<BlockHeader>) returns (k: nat)
    requires WellFormed(s.cache)
    ensures k <= |hs| && Fold(s, hs).store.cache == Run(AsWritten, s.cache, hs[..k])
    ensures Fold(s, hs).failure.None? ==> k == |hs|
    ensures Fold(s, hs).failure.Some? ==>
              k > 0 && AddHeader(AsWritten, Run(AsWritten, s.cache, hs[..k - 1]), hs[k - 1]).result == Err(Fold(s, hs).failure.value)
    decreases |hs|
  {
    hide AddHeader;
    if hs == [] {
      k := 0;
    } else {
      var o := AddStored(s, hs[0]);
      AddHeaderWellFormed(AsWritten, s.cache, hs[0]);
      if o.result.Err? {
        k := 1;
        assert hs[..1] == [hs[0]] && hs[..1][1..] == [] && hs[..0] == [];
        assert Run(AsWritten, o.store.cache, []) == o.store.cache;
      } else {
        var j := FoldIsRun(o.store, hs[1..]);
        k := j + 1;
        assert hs[..k][1..] == hs[1..][..j];
        if j > 0 {
          assert hs[..k - 1][1..] == hs[1..][..j - 1];
        }
      }
    }
  }

  /** A batch keeps cache, database and stored tip in step, whatever error ends it. */
  lemma {:induction false} PersistedFold(s: Store, hs: seq<BlockHeader>)
    requires Persisted(s) && Consistent(s, Offers(hs))
    ensures Persisted(Fold(s, hs).store)
    decreases |hs|
  {
    hide AddStored, Tree, Weighed, Heaviest, SingleRoot, Backs, Consistent;
    if hs != [] {
      assert Offers(hs)[1..] == Offers(hs[1..]);
      LifeStep(s, Offers(hs));
      var o := AddStored(s, hs[0]);
      if o.result.Ok? {
        PersistedFold(o.store, hs[1..]);
      }
    }
  }

  /** The headers of a batch as events of the store. */
  function Offers(hs: seq<BlockHeader>): (events: seq<Event>)
    ensures |events| == |hs|
  {
    seq(|hs|, i requires 0 <= i < |hs| => Offer(hs[i]))
  }

  // ----- notifications

  /** A call to the downstream module: `block_disconnected` or `header_connected`. */
  datatype Note = Disconnected(id: Hash) | Connected(id: Hash, height: nat)

  function Disconnects(batch: seq<Added>): (notes: seq<Note>)
  {
    if batch == [] then []
    else
      var last := batch[|batch| - 1];
      Disconnects(batch[..|batch| - 1])
      + if last.unwinds.Some? then seq(|last.unwinds.value|, i requires 0 <= i < |last.unwinds.value| => Disconnected(last.unwinds.value[i])) else []
  }

  function Connects(batch: seq<Added>): (notes: seq<Note>)
  {
    if batch == [] then []
    else
      var last := batch[|batch| - 1].stored;
      Connects(batch[..|batch| - 1]) + [Connected(last.header.hash, last.height)]
  }

  /** One locked pass over the queue: first everything taken off the trunk, then everything stored. */
  function BatchNotes(batch: seq<Added>): (notes: seq<Note>)
  {
    Disconnects(batch) + Connects(batch)
  }

  /**
   * All notifications for a run of stored headers: a pass ends after each re-organisation, and at
   * the end; if an error ends the run, what was stored since the last re-organisation is not announced.
   */
  function Notices(pending: seq<Added>, stored: seq<Added>, complete: bool): (notes: seq<Note>)
    decreases |stored|
  {
    if stored == [] then if complete then BatchNotes(pending) else []
    else if stored[0].unwinds.Some? then BatchNotes(pending + [stored[0]]) + Notices([], stored[1..], complete)
    else Notices(pending + [stored[0]], stored[1..], complete)
  }

  ghost predicate Quiet(batch: seq<Added>) {
    forall i :: 0 <= i < |batch| ==> batch[i].unwinds.None?
  }

  /** The batch ends in its only re-organisation. */
  ghost predicate Reorganised(batch: seq<Added>) {
    batch != [] && Quiet(batch[..|batch| - 1]) && batch[|batch| - 1].unwinds.Some?
  }

  /** Headers stored without re-organisation only wait. */
  lemma {:induction false} NoticesQuiet(pending: seq<Added>, batch: seq<Added>, rest: seq<Added>, complete: bool)
    requires Quiet(batch)
    ensures Notices(pending, batch + rest, complete) == Notices(pending + batch, rest, complete)
    decreases |batch|
  {
    if batch == [] {
      assert batch + rest == rest && pending + batch == pending;
    } else {
      var all := batch + rest;
      assert all[0] == batch[0] && all[1..] == batch[1..] + rest;
      NoticesQuiet(pending + [batch[0]], batch[1..], rest, complete);
      assert pending + [batch[0]] + batch[1..] == pending + batch;
    }
  }

  /** A pass that ends in a re-organisation is announced as one batch. */
  lemma NoticesReorganised(batch: seq<Added>, rest: seq<Added>, complete: bool)
    requires Reorganised(batch)
    ensures Notices([], batch + rest, complete) == BatchNotes(batch) + Notices([], rest, complete)
  {
    var front, last := batch[..|batch| - 1], batch[|batch| - 1];
    assert batch + rest == front + ([last] + rest);
    NoticesQuiet([], front, [last] + rest, complete);
    assert ([last] + rest)[1..] == rest;
    assert [] + front + [last] == batch;
  }

  /** The last pass of a batch without error is announced whole. */
  lemma NoticesLast(batch: seq<Added>, complete: bool)
    requires Quiet(batch)
    ensures Notices([], batch, complete) == if complete then BatchNotes(batch) else []
  {
    NoticesQuiet([], batch, [], complete);
    assert batch + [] == batch && [] + batch == batch;
  }

  /** The height of the last report, and whether any report moved the tip. */
  function LastHeight(height: nat, stored: seq<Added>): (h: nat)
  {
    if stored == [] then height else stored[|stored| - 1].stored.height
  }

  predicate MovesTip(stored: seq<Added>) {
    exists i :: 0 <= i < |stored| && stored[i].forwards.Some?
  }

  lemma NothingStored()
    ensures Notices([], [], true) == []
  {
  }

  lemma FoldNone(s: Store)
    requires WellFormed(s.cache)
    ensures Fold(s, []) == Intake(s, [], None)
    ensures Notices([], [], true) == []
  {
  }

  /** Announcing a pass is what `Notices` says first; the rest is left for later passes. */
  lemma Announced(batch: seq<Added>, last: bool, next: Intake)
    requires (Quiet(batch) && last) || Reorganised(batch)
    requires last ==> next.stored == [] && next.failure.None?
    ensures Notices([], Prepend(batch, next).stored, next.failure.None?)
         == BatchNotes(batch) + Notices([], next.stored, next.failure.None?)
  {
    if Reorganised(batch) {
      NoticesReorganised(batch, next.stored, next.failure.None?);
    } else {
      NoticesLast(batch, true);
      assert batch + next.stored == batch;
      NoticesLast([], true);
      assert BatchNotes(batch) + [] == BatchNotes(batch) && BatchNotes([]) == [];
    }
  }

  function Only(notes: seq<Note>, disconnected: bool): (r: seq<Note>)
  {
    if notes == [] then []
    else
      var last := notes[|notes| - 1];
      Only(notes[..|notes| - 1], disconnected) + if last.Disconnected? == disconnected then [last] else []
  }

  lemma {:induction false} OnlyConcat(a: seq<Note>, b: seq<Note>, d: bool)
    ensures Only(a + b, d) == Only(a, d) + Only(b, d)
    decreases |b|
  {
    if b == [] {
      assert a + b == a;
    } else {
      assert (a + b)[..|a + b| - 1] == a + b[..|b| - 1];
      OnlyConcat(a, b[..|b| - 1], d);
    }
  }

  lemma {:induction false} OnlySame(notes: seq<Note>, d: bool)
    requires forall i :: 0 <= i < |notes| ==> notes[i].Disconnected? == d
    ensures Only(notes, d) == notes && Only(notes, !d) == []
    decreases |notes|
  {
    if notes != [] {
      OnlySame(notes[..|notes| - 1], d);
    }
  }

  lemma {:induction false} KindsOfNotes(batch: seq<Added>)
    ensures forall i :: 0 <= i < |Disconnects(batch)| ==> Disconnects(batch)[i].Disconnected?
    ensures forall i :: 0 <= i < |Connects(batch)| ==> Connects(batch)[i].Connected?
    decreases |batch|
  {
    if batch != [] {
      KindsOfNotes(batch[..|batch| - 1]);
    }
  }

  lemma BatchNotesKinds(batch: seq<Added>)
    ensures Only(BatchNotes(batch), true) == Disconnects(batch) && Only(BatchNotes(batch), false) == Connects(batch)
  {
    KindsOfNotes(batch);
    OnlySame(Disconnects(batch), true);
    OnlySame(Connects(batch), false);
    OnlyConcat(Disconnects(batch), Connects(batch), true);
    OnlyConcat(Disconnects(batch), Connects(batch), false);
  }

  /** All hashes reported as taken off the trunk, in order. */
  function Unwound(batch: seq<Added>): (ids: seq<Hash>)
  {
    if batch == [] then []
    else Unwound(batch[..|batch| - 1]) + if batch[|batch| - 1].unwinds.Some? then batch[|batch| - 1].unwinds.value else []
  }

  lemma {:induction false} DisconnectsAre(batch: seq<Added>)
    ensures |Disconnects(batch)| == |Unwound(batch)|
    ensures forall i :: 0 <= i < |Unwound(batch)| ==> Disconnects(batch)[i] == Disconnected(Unwound(batch)[i])
    decreases |batch|
  {
    if batch != [] {
      DisconnectsAre(batch[..|batch| - 1]);
    }
  }

  lemma {:induction false} ConnectsAre(batch: seq<Added>)
    ensures |Connects(batch)| == |batch|
    ensures forall i :: 0 <= i < |batch| ==> Connects(batch)[i] == Connected(batch[i].stored.header.hash, batch[i].stored.height)
    decreases |batch|
  {
    if batch != [] {
      ConnectsAre(batch[..|batch| - 1]);
    }
  }

  /** In every pass first the hashes taken off the trunk are disconnected, in the order reported, then the stored headers are connected, in the order stored. */
  lemma PassOrder(batch: seq<Added>)
    ensures var notes, n := BatchNotes(batch), |Unwound(batch)|;
            && |notes| == n + |batch|
            && (forall i :: 0 <= i < n ==> notes[i] == Disconnected(Unwound(batch)[i]))
            && (forall i :: 0 <= i < |batch| ==> notes[n + i] == Connected(batch[i].stored.header.hash, batch[i].stored.height))
  {
    hide Unwound;
    DisconnectsAre(batch);
    ConnectsAre(batch);
  }

  lemma {:induction false} NotesConcat(a: seq<Added>, b: seq<Added>)
    ensures Disconnects(a + b) == Disconnects(a) + Disconnects(b)
    ensures Connects(a + b) == Connects(a) + Connects(b)
    decreases |b|
  {
    if b == [] {
      assert a + b == a;
    } else {
      assert (a + b)[..|a + b| - 1] == a + b[..|b| - 1];
      NotesConcat(a, b[..|b| - 1]);
    }
  }

  /**
   * When the whole batch was taken, the `block_disconnected` calls are exactly the reported unwinds
   * in order, and there is one `header_connected` call per newly stored header, in order, whether or
   * not it joined the trunk.
   */
  lemma {:induction false} CompleteNotices(pending: seq<Added>, stored: seq<Added>)
    ensures Only(Notices(pending, stored, true), true) == Disconnects(pending + stored)
    ensures Only(Notices(pending, stored, true), false) == Connects(pending + stored)
    decreases |stored|
  {
    if stored == [] {
      assert pending + stored == pending;
      BatchNotesKinds(pending);
    } else if stored[0].unwinds.Some? {
      var batch := pending + [stored[0]];
      CompleteNotices([], stored[1..]);
      assert [] + stored[1..] == stored[1..];
      assert batch + stored[1..] == pending + stored;
      NoticesAdd(batch, stored[1..]);
    } else {
      CompleteNotices(pending + [stored[0]], stored[1..]);
      assert pending + [stored[0]] + stored[1..] == pending + stored;
    }
  }

  /** When an error ends the batch, exactly the headers stored since the last re-organisation go unannounced. */
  lemma {:induction false} IncompleteNotices(stored: seq<Added>) returns (k: nat)
    ensures k <= |stored| && Quiet(stored[k..]) && (k > 0 ==> stored[k - 1].unwinds.Some?)
    ensures Notices([], stored, false) == Notices([], stored[..k], true)
    decreases |stored|
  {
    hide Notices, Quiet, BatchNotes;
    if Quiet(stored) {
      k := 0;
      NoticesLast(stored, false);
      NothingStored();
      assert stored[0..] == stored && stored[..0] == [];
    } else {
      var i := FirstReorganisation(stored);
      var batch, rest := stored[..i + 1], stored[i + 1..];
      assert batch[..|batch| - 1] == stored[..i];
      NoticesReorganised(batch, rest, false);
      assert stored == batch + rest;
      var j := IncompleteNotices(rest);
      k := i + 1 + j;
      assert stored[k..] == rest[j..] && stored[..k] == batch + rest[..j];
      NoticesReorganised(batch, rest[..j], true);
    }
  }

  lemma {:induction false} FirstReorganisation(stored: seq<Added>) returns (i: nat)
    requires !Quiet(stored)
    ensures i < |stored| && stored[i].unwinds.Some? && Quiet(stored[..i])
    decreases |stored|
  {
    var front := stored[..|stored| - 1];
    if Quiet(front) {
      i := |stored| - 1;
    } else {
      i := FirstReorganisation(front);
      assert front[..i] == stored[..i];
    }
  }

  lemma NoticesAdd(batch: seq<Added>, rest: seq<Added>)
    requires Only(Notices([], rest, true), true) == Disconnects(rest)
    requires Only(Notices([], rest, true), false) == Connects(rest)
    ensures var notes := BatchNotes(batch) + Notices([], rest, true);
            Only(notes, true) == Disconnects(batch + rest) && Only(notes, false) == Connects(batch + rest)
  {
    hide Only, Notices, BatchNotes, Disconnects, Connects;
    BatchNotesKinds(batch);
    OnlyConcat(BatchNotes(batch), Notices([], rest, true), true);
    OnlyConcat(BatchNotes(batch), Notices([], rest, true), false);
    NotesConcat(batch, rest);
  }

  /** Every stored header is announced exactly if the notices are complete, nothing was stored, or the last report is a re-organisation. */
  lemma NoticesWhole(stored: seq<Added>, complete: bool)
    ensures Only(Notices([], stored, complete), false) == Connects(stored)
            <==> complete || stored == [] || stored[|stored| - 1].unwinds.Some?
  {
    hide Only, Notices, Connects;
    assert [] + stored == stored;
    CompleteNotices([], stored);
    if !complete {
      var k := IncompleteNotices(stored);
      CompleteNotices([], stored[..k]);
      assert [] + stored[..k] == stored[..k];
      ConnectsAre(stored);
      ConnectsAre(stored[..k]);
      if k == |stored| {
        assert stored[..k] == stored;
      } else {
        assert stored[k..][|stored| - 1 - k] == stored[|stored| - 1];
      }
    }
  }
}
