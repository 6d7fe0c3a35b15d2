/**
 * What the listeners are told about a batch against what happened to the trunk: exact conditions,
 * on the cache and the headers offered to it, for the promises of the downstream interface and of
 * the published height.
 */
module TrunkNotices {
  import opened Wrappers
  import opened HeaderTree
  import opened Consensus
  import opened Trunk
  import opened Linkage
  import opened Soundness
  import opened Runs
  import opened ChainStore
  import opened Intake

  // ----- what can be said of a header before it is offered

  /** On top of its known parent the header has more work than the tip. */
  ghost predicate Heavier(c: Cache, h: BlockHeader)
    requires WellFormed(c) && h.prev in c.headers
  {
    c.headers[Last(c.trunk)].work < StoredAs(c.headers, h).work
  }

  ghost predicate Joins(c: Cache, h: BlockHeader)
    requires WellFormed(c) && h.prev in c.headers
  {
    Heavier(c, h) && h.prev in c.trunk
  }

  ghost predicate Reorganises(c: Cache, h: BlockHeader)
    requires WellFormed(c) && h.prev in c.headers
  {
    Heavier(c, h) && h.prev !in c.trunk
  }

  /** Neither known nor acceptable: the header ends its batch. */
  ghost predicate Refused(c: Cache, h: BlockHeader)
    requires WellFormed(c)
  {
    h.hash !in c.headers && !Accepts(c, h)
  }

  ghost function Next(c: Cache, h: BlockHeader): (c': Cache)
    requires WellFormed(c)
    ensures WellFormed(c')
  {
    AddHeaderWellFormed(AsWritten, c, h);
    AddHeader(AsWritten, c, h).cache
  }

  /** The headers of a batch before the first refused one. */
  ghost function Taken(c: Cache, hs: seq<BlockHeader>): (taken: seq<BlockHeader>)
    requires WellFormed(c)
    decreases |hs|
  {
    if hs == [] || Refused(c, hs[0]) then [] else [hs[0]] + Taken(Next(c, hs[0]), hs[1..])
  }

  /** Every header accepted in the batch is, when offered, heavier than the tip with its parent on the trunk. */
  ghost predicate EachJoins(c: Cache, hs: seq<BlockHeader>)
    requires WellFormed(c)
    decreases |hs|
  {
    hs == [] || ((Accepts(c, hs[0]) ==> Joins(c, hs[0])) && EachJoins(Next(c, hs[0]), hs[1..]))
  }

  /** No header accepted in the batch is, when offered, heavier than the tip. */
  ghost predicate NoneMoves(c: Cache, hs: seq<BlockHeader>)
    requires WellFormed(c)
    decreases |hs|
  {
    hs == [] || ((Accepts(c, hs[0]) ==> !Heavier(c, hs[0])) && NoneMoves(Next(c, hs[0]), hs[1..]))
  }

  /** The last header accepted in the batch, with the cache it was offered to. */
  ghost function LastAccepted(c: Cache, hs: seq<BlockHeader>): (r: Option<(Cache, BlockHeader)>)
    requires WellFormed(c)
    ensures r.Some? ==> WellFormed(r.value.0) && Accepts(r.value.0, r.value.1)
    decreases |hs|
  {
    if hs == [] then None
    else
      var later := LastAccepted(Next(c, hs[0]), hs[1..]);
      if later.Some? then later else if Accepts(c, hs[0]) then Some((c, hs[0])) else None
  }

  // ----- one step

  /** Only the stored header itself went on the trunk. */
  predicate JoinReport(a: Added) {
    a.forwards == Some([a.stored.header.hash])
  }

  /** The report of one step on a sound cache. */
  lemma StepReport(c: Cache, h: BlockHeader)
    requires Sound(c) && Accepts(c, h)
    ensures h.hash !in c.headers && h.prev in c.headers && h.prev != NO_HASH
    ensures var o := AddHeader(AsWritten, c, h);
            && o.result.Ok? && o.result.value.Some?
            && var a := o.result.value.value;
            && a.stored == StoredAs(c.headers, h)
            && (a.forwards.Some? <==> Heavier(c, h))
            && (a.unwinds.Some? <==> Reorganises(c, h))
            && (JoinReport(a) <==> Joins(c, h))
            && (a.forwards.Some? ==> a.forwards.value != [] && (JoinReport(a) || a.forwards.value[0] in c.trunk))
            && (a.forwards.None? ==> o.cache.trunk == c.trunk)
  {
    hide AddHeader, BlockWork, Weighed, InRange, TipHeaviest;
    AddUnfolds(AsWritten, c, h);
    var stored := StoredAs(c.headers, h);
    var headers := c.headers[h.hash := stored];
    assert Last(c.trunk) in c.headers;
    hide Accepts;
    if Heavier(c, h) {
      MoveReport(c, headers, stored);
    }
  }

  lemma MoveReport(c: Cache, headers: HeaderMap, stored: CachedHeader)
    requires WellFormed(c) && Rooted(c) && stored.header.hash !in c.headers && stored.header.prev in c.headers
    requires Tree(headers) && headers == c.headers[stored.header.hash := stored]
    ensures var r := MoveTrunk(AsWritten, headers, c.trunk, stored);
            && r.Ok?
            && var a := r.value.1;
            && a.stored == stored
            && a.forwards.Some? && a.forwards.value != []
            && (JoinReport(a) <==> stored.header.prev in c.trunk)
            && (a.unwinds.Some? <==> stored.header.prev !in c.trunk)
            && (JoinReport(a) || a.forwards.value[0] in c.trunk)
  {
    hide Reverse, PosOnTrunk;
    MoveSucceeds(AsWritten, headers, c.trunk, stored);
    var parent := stored.header.prev;
    var visited := ForkWalk(headers, c.trunk, parent).value;
    var path := Reverse(visited[1..]) + [stored.header.hash];
    if parent in c.trunk {
      assert visited == [parent] && path == [stored.header.hash];
    } else {
      assert |visited| > 1 && path[0] == Last(visited);
    }
  }

  /** A step that accepts nothing, with a single root, changes nothing. */
  lemma QuietStep(c: Cache, h: BlockHeader)
    requires Sound(c) && !Accepts(c, h) && (h.prev != NO_HASH || h.hash in c.headers)
    ensures Next(c, h) == c
    ensures var r := AddHeader(AsWritten, c, h).result;
            if h.hash in c.headers then r == Ok(None) else r.Err?
  {
    hide Accepts, AddHeader;
    AddUnfolds(AsWritten, c, h);
  }

  /** Both kinds of step, seen from the reports of a run. */
  lemma ReportsFirst(c: Cache, hs: seq<BlockHeader>)
    requires Sound(c) && hs != [] && NoSecondRoot(c.trunk[0], hs)
    ensures Sound(Next(c, hs[0])) && NoSecondRoot(Next(c, hs[0]).trunk[0], hs[1..])
    ensures var rest := Reports(AsWritten, Next(c, hs[0]), hs[1..]);
            if Accepts(c, hs[0]) then
              var o := AddHeader(AsWritten, c, hs[0]);
              o.result.Ok? && o.result.value.Some? && Reports(AsWritten, c, hs) == [o.result.value.value] + rest
            else
              Reports(AsWritten, c, hs) == rest && Next(c, hs[0]) == c
  {
    hide Accepts, AddHeader, Weighed, InRange, TipHeaviest, Tree;
    SoundStep(AsWritten, c, hs[0]);
    var rest := Reports(AsWritten, Next(c, hs[0]), hs[1..]);
    assert [] + rest == rest;
  }

  // ----- the reports of a run

  /** All hashes reported as put on the trunk, in order. */
  function Forwards(rs: seq<Added>): (ids: seq<Hash>)
  {
    if rs == [] then [] else (if rs[0].forwards.Some? then rs[0].forwards.value else []) + Forwards(rs[1..])
  }

  function StoredIds(rs: seq<Added>): (ids: seq<Hash>)
    ensures |ids| == |rs|
  {
    if rs == [] then [] else [rs[0].stored.header.hash] + StoredIds(rs[1..])
  }

  lemma ConsReports(a: Added, rest: seq<Added>)
    ensures Forwards([a] + rest) == (if a.forwards.Some? then a.forwards.value else []) + Forwards(rest)
    ensures StoredIds([a] + rest) == [a.stored.header.hash] + StoredIds(rest)
  {
    assert ([a] + rest)[1..] == rest;
  }

  ghost predicate AllJoin(rs: seq<Added>) {
    forall i :: 0 <= i < |rs| ==> JoinReport(rs[i])
  }

  ghost predicate NoneForward(rs: seq<Added>) {
    forall i :: 0 <= i < |rs| ==> rs[i].forwards.None?
  }

  /** A header that moves the tip puts something on the trunk, and a re-organisation more than itself. */
  ghost predicate Shaped(rs: seq<Added>) {
    forall i :: 0 <= i < |rs| ==>
      && (rs[i].forwards.Some? ==> rs[i].forwards.value != [])
      && (rs[i].unwinds.Some? ==> rs[i].forwards.Some? && !JoinReport(rs[i]))
  }

  lemma FirstAndRest(a: Added, rest: seq<Added>)
    ensures AllJoin([a] + rest) <==> JoinReport(a) && AllJoin(rest)
    ensures NoneForward([a] + rest) <==> a.forwards.None? && NoneForward(rest)
    ensures Shaped([a] + rest) <==> Shaped([a]) && Shaped(rest)
  {
    hide JoinReport;
    var rs := [a] + rest;
    assert rs[0] == a && [a][0] == a;
    assert forall i :: 0 <= i < |rest| ==> rest[i] == rs[i + 1];
    assert forall i :: 1 <= i < |rs| ==> rs[i] == rest[i - 1];
  }

  /** The conditions on the headers offered, as conditions on the reports. */
  lemma {:induction false} ReportsSay(c: Cache, hs: seq<BlockHeader>)
    requires Sound(c) && NoSecondRoot(c.trunk[0], hs)
    ensures var rs := Reports(AsWritten, c, hs);
            Shaped(rs) && (EachJoins(c, hs) <==> AllJoin(rs)) && (NoneMoves(c, hs) <==> NoneForward(rs))
    decreases |hs|
  {
    hide Accepts, AddHeader, Next, Weighed, InRange, TipHeaviest, Tree, NoSecondRoot, JoinReport, AllJoin, NoneForward, Heavier;
    if hs == [] {
      NoReports();
    } else {
      ReportsFirst(c, hs);
      var rest := Reports(AsWritten, Next(c, hs[0]), hs[1..]);
      ReportsSay(Next(c, hs[0]), hs[1..]);
      hide Reports;
      if Accepts(c, hs[0]) {
        StepReport(c, hs[0]);
        FirstAndRest(AddHeader(AsWritten, c, hs[0]).result.value.value, rest);
      }
    }
  }

  lemma NoReports()
    ensures AllJoin([]) && NoneForward([]) && Shaped([]) && Forwards([]) == [] && StoredIds([]) == []
  {
  }

  /** The first hash a run puts on the trunk is already there, or new. */
  lemma {:induction false} FirstForward(c: Cache, hs: seq<BlockHeader>)
    requires Sound(c) && NoSecondRoot(c.trunk[0], hs)
    ensures var ids := Forwards(Reports(AsWritten, c, hs));
            ids != [] ==> ids[0] in c.trunk || ids[0] !in c.headers
    decreases |hs|
  {
    hide Accepts, AddHeader, Weighed, InRange, TipHeaviest, Tree, NoSecondRoot, Forwards, Heavier;
    if hs == [] {
      NoReports();
    } else {
      ReportsFirst(c, hs);
      var rest := Reports(AsWritten, Next(c, hs[0]), hs[1..]);
      FirstForward(Next(c, hs[0]), hs[1..]);
      hide Reports;
      if Accepts(c, hs[0]) {
        StepReport(c, hs[0]);
        SoundStep(AsWritten, c, hs[0]);
        var a := AddHeader(AsWritten, c, hs[0]).result.value.value;
        ConsReports(a, rest);
        if a.forwards.None? {
          assert [] + Forwards(rest) == Forwards(rest);
        }
      }
    }
  }

  /** The first k stored headers are exactly what went on the trunk if and only if they, and nothing else, joined it. */
  lemma {:induction false} FirstStoredJoin(c: Cache, hs: seq<BlockHeader>, k: nat)
    requires Sound(c) && NoSecondRoot(c.trunk[0], hs) && k <= |Reports(AsWritten, c, hs)|
    ensures var rs := Reports(AsWritten, c, hs);
            StoredIds(rs[..k]) == Forwards(rs) <==> AllJoin(rs[..k]) && NoneForward(rs[k..])
    decreases |hs|
  {
    hide Accepts, AddHeader, Weighed, InRange, TipHeaviest, Tree, NoSecondRoot, Forwards, AllJoin, NoneForward, Shaped, JoinReport, StoredIds, Heavier;
    var rs := Reports(AsWritten, c, hs);
    ReportsSay(c, hs);
    if k == 0 {
      assert rs[..0] == [] && rs[0..] == rs;
      NoReports();
      ForwardsNone(rs);
    } else {
      ReportsFirst(c, hs);
      var c1 := Next(c, hs[0]);
      var rest := Reports(AsWritten, c1, hs[1..]);
      if Accepts(c, hs[0]) {
        FirstStoredJoin(c1, hs[1..], k - 1);
        FirstForward(c1, hs[1..]);
        StepReport(c, hs[0]);
        SoundStep(AsWritten, c, hs[0]);
        hide Reports, Next;
        FirstDecides(c.trunk, c.headers, AddHeader(AsWritten, c, hs[0]).result.value.value, rest, k);
      } else {
        FirstStoredJoin(c1, hs[1..], k);
      }
    }
  }

  /** No forwards in all, exactly if none in each. */
  lemma {:induction false} ForwardsNone(rs: seq<Added>)
    requires Shaped(rs)
    ensures Forwards(rs) == [] <==> NoneForward(rs)
    decreases |rs|
  {
    if rs != [] {
      assert rs == [rs[0]] + rs[1..];
      FirstAndRest(rs[0], rs[1..]);
      hide NoneForward, JoinReport;
      ForwardsNone(rs[1..]);
    }
  }

  /** The first of some stored headers: if it is not alone on the trunk, the lists already differ in their first entry. */
  lemma FirstDecides(trunk: seq<Hash>, headers: HeaderMap, a: Added, rest: seq<Added>, k: nat)
    requires 0 < k <= |rest| + 1 && a.stored.header.hash !in headers && Known(headers, trunk)
    requires a.forwards.Some? ==> a.forwards.value != [] && (JoinReport(a) || a.forwards.value[0] in trunk)
    requires a.forwards.None? && Forwards(rest) != [] ==>
               Forwards(rest)[0] in trunk || Forwards(rest)[0] !in headers[a.stored.header.hash := a.stored]
    requires StoredIds(rest[..k - 1]) == Forwards(rest) <==> AllJoin(rest[..k - 1]) && NoneForward(rest[k - 1..])
    ensures var rs := [a] + rest;
            StoredIds(rs[..k]) == Forwards(rs) <==> AllJoin(rs[..k]) && NoneForward(rs[k..])
  {
    hide Forwards, StoredIds, AllJoin, NoneForward;
    var rs, id := [a] + rest, a.stored.header.hash;
    assert rs[..k] == [a] + rest[..k - 1] && rs[k..] == rest[k - 1..];
    FirstAndRest(a, rest[..k - 1]);
    ConsReports(a, rest[..k - 1]);
    ConsReports(a, rest);
    var ids, fs := StoredIds(rest[..k - 1]), Forwards(rest);
    if JoinReport(a) {
      SameTail(id, ids, fs);
    } else {
      assert ([id] + ids)[0] == id;
      assert a.forwards.None? ==> [] + fs == fs;
    }
  }

  lemma SameTail(id: Hash, a: seq<Hash>, b: seq<Hash>)
    ensures [id] + a == [id] + b <==> a == b
  {
    assert ([id] + a)[1..] == a && ([id] + b)[1..] == b;
  }

  // ----- the batch

  /** The fold takes the headers before the first refused one, and fails exactly if there is a refused one. */
  lemma {:induction false} FoldTakes(s: Store, hs: seq<BlockHeader>)
    requires Sound(s.cache) && NoSecondRoot(s.cache.trunk[0], hs)
    ensures var taken := Taken(s.cache, hs);
            var r := Fold(s, hs);
            && r.stored == Reports(AsWritten, s.cache, taken)
            && r.store.cache == Run(AsWritten, s.cache, taken)
            && NoSecondRoot(s.cache.trunk[0], taken)
            && (r.failure.None? <==> taken == hs)
    decreases |hs|
  {
    hide Accepts, AddHeader, Weighed, InRange, TipHeaviest, Tree;
    if hs != [] {
      var h := hs[0];
      SoundStep(AsWritten, s.cache, h);
      AddHeaderWellFormed(AsWritten, s.cache, h);
      var s1 := AddStored(s, h).store;
      if Refused(s.cache, h) {
        QuietStep(s.cache, h);
      } else {
        FoldTakes(s1, hs[1..]);
        var rest := Taken(s1.cache, hs[1..]);
        assert ([h] + rest)[1..] == rest;
        SameHead(h, rest, hs);
        var rs := Reports(AsWritten, s1.cache, rest);
        assert [] + rs == rs;
      }
    }
  }

  lemma SameHead(h: BlockHeader, rest: seq<BlockHeader>, hs: seq<BlockHeader>)
    requires hs != [] && hs[0] == h
    ensures [h] + rest == hs <==> rest == hs[1..]
  {
    assert hs == [h] + hs[1..];
    assert ([h] + rest)[1..] == rest;
  }

  /** The hashes named by some calls. */
  function Called(notes: seq<Note>): (ids: seq<Hash>)
    ensures |ids| == |notes|
  {
    seq(|notes|, i requires 0 <= i < |notes| => notes[i].id)
  }

  lemma {:induction false} ConnectsName(rs: seq<Added>)
    ensures Called(Connects(rs)) == StoredIds(rs)
    decreases |rs|
  {
    if rs != [] {
      var front, last := rs[..|rs| - 1], rs[|rs| - 1];
      ConnectsName(front);
      assert rs == front + [last];
      IdsLast(front, last);
    }
  }

  lemma {:induction false} IdsLast(front: seq<Added>, last: Added)
    ensures StoredIds(front + [last]) == StoredIds(front) + [last.stored.header.hash]
    decreases |front|
  {
    if front == [] {
      assert front + [last] == [last] && [last][1..] == [];
    } else {
      assert (front + [last])[1..] == front[1..] + [last];
      IdsLast(front[1..], last);
    }
  }

  /**
   * The promise of `header_connected`, to be called for headers added to the trunk: the calls for a
   * batch name, in order, exactly what the batch put on the trunk if and only if, in a batch without
   * refused header, every accepted one is, when offered, heavier than the tip with its parent on the
   * trunk; and, in a batch with one, no header accepted before it is heavier than the tip.
   */
  lemma ConnectedJoinedIff(s: Store, hs: seq<BlockHeader>)
    requires Sound(s.cache) && NoSecondRoot(s.cache.trunk[0], hs)
    ensures var r := Fold(s, hs);
            var taken := Taken(s.cache, hs);
            Called(Only(Notices([], r.stored, r.failure.None?), false)) == Forwards(r.stored)
            <==> if taken == hs then EachJoins(s.cache, hs) else NoneMoves(s.cache, taken)
  {
    hide Fold, Only, Notices, Called, Connects, Forwards, StoredIds, EachJoins, NoneMoves, Taken, Reports, Tree, Weighed, InRange, TipHeaviest, AllJoin, NoneForward;
    FoldTakes(s, hs);
    var taken := Taken(s.cache, hs);
    var rs := Fold(s, hs).stored;
    ReportsSay(s.cache, taken);
    CompleteNotices([], rs);
    assert [] + rs == rs;
    if taken == hs {
      FirstStoredJoin(s.cache, taken, |rs|);
      assert rs[..|rs|] == rs && rs[|rs|..] == [];
      NoReports();
      ConnectsName(rs);
    } else {
      var k := IncompleteNotices(rs);
      CompleteNotices([], rs[..k]);
      assert [] + rs[..k] == rs[..k];
      ConnectsName(rs[..k]);
      FirstStoredJoin(s.cache, taken, k);
      NothingAnnounced(rs, k);
    }
  }

  /** After an error only a re-organisation is announced, and it never joins alone. */
  lemma NothingAnnounced(rs: seq<Added>, k: nat)
    requires Shaped(rs) && k <= |rs| && (k > 0 ==> rs[k - 1].unwinds.Some?)
    ensures AllJoin(rs[..k]) && NoneForward(rs[k..]) <==> NoneForward(rs)
  {
    if k == 0 {
      assert rs[..0] == [] && rs[0..] == rs;
      NoReports();
    } else {
      assert rs[..k][k - 1] == rs[k - 1];
    }
  }

  // ----- the last accepted header

  /** The last report is that of the last accepted header, and nothing changes after it. */
  lemma {:induction false} LastReport(c: Cache, hs: seq<BlockHeader>)
    requires Sound(c) && NoSecondRoot(c.trunk[0], hs)
    ensures var rs := Reports(AsWritten, c, hs);
            match LastAccepted(c, hs)
            case None => rs == [] && Run(AsWritten, c, hs) == c
            case Some((k, h)) =>
              && Sound(k) && Accepts(k, h) && rs != []
              && var o := AddHeader(AsWritten, k, h);
                 o.cache == Run(AsWritten, c, hs) && o.result == Ok(Some(rs[|rs| - 1]))
    decreases |hs|
  {
    hide Accepts, AddHeader, Weighed, InRange, TipHeaviest, Tree, NoSecondRoot;
    if hs != [] {
      ReportsFirst(c, hs);
      LastReport(Next(c, hs[0]), hs[1..]);
    }
  }

  /**
   * Every stored header is announced if and only if no header of the batch was refused, none was
   * accepted before the refused one, or the last one accepted before it re-organised the trunk.
   */
  lemma AllAnnouncedIff(s: Store, hs: seq<BlockHeader>)
    requires Sound(s.cache) && NoSecondRoot(s.cache.trunk[0], hs)
    ensures var r := Fold(s, hs);
            var taken := Taken(s.cache, hs);
            var last := LastAccepted(s.cache, taken);
            Only(Notices([], r.stored, r.failure.None?), false) == Connects(r.stored)
            <==> taken == hs || last.None? || Reorganises(last.value.0, last.value.1)
  {
    hide Fold, Only, Notices, Connects, Taken, Reports, Tree, Weighed, InRange, TipHeaviest, Reorganises, AddHeader, Accepts, Run;
    FoldTakes(s, hs);
    var taken := Taken(s.cache, hs);
    var r := Fold(s, hs);
    LastReport(s.cache, taken);
    var last := LastAccepted(s.cache, taken);
    if last.Some? {
      StepReport(last.value.0, last.value.1);
    }
    NoticesWhole(r.stored, r.failure.None?);
  }

  /**
   * The height published after a batch without refused header that moved the tip is that of the
   * last accepted header: it is the tip's height if and only if that header was, when offered,
   * heavier than the tip, or is as high as the tip.
   */
  lemma PublishedHeightIff(s: Store, hs: seq<BlockHeader>)
    requires Sound(s.cache) && NoSecondRoot(s.cache.trunk[0], hs) && Taken(s.cache, hs) == hs
    ensures var r := Fold(s, hs);
            && r.failure.None?
            && (MovesTip(r.stored) <==> !NoneMoves(s.cache, hs))
            && var last := LastAccepted(s.cache, hs);
               MovesTip(r.stored) ==>
                 && last.Some? && last.value.1.prev in last.value.0.headers && Sound(r.store.cache)
                 && var (c, h) := last.value;
                    LastHeight(0, r.stored) == r.store.cache.headers[Last(r.store.cache.trunk)].height
                    <==> Heavier(c, h) || c.headers[h.prev].height + 1 == c.headers[Last(c.trunk)].height
  {
    hide Fold, Taken, Reports, AddHeader, Accepts, Run, Weighed, InRange, TipHeaviest, Tree, NoneMoves, Heavier;
    FoldTakes(s, hs);
    var r := Fold(s, hs);
    LastReport(s.cache, hs);
    ReportsSay(s.cache, hs);
    var last := LastAccepted(s.cache, hs);
    if last.Some? {
      var (c, h) := last.value;
      StepReport(c, h);
      SoundStep(AsWritten, c, h);
      TipAfter(c, h);
    }
  }

  lemma TipAfter(c: Cache, h: BlockHeader)
    requires Sound(c) && Accepts(c, h) && h.prev in c.headers
    ensures var c' := AddHeader(AsWritten, c, h).cache;
            Sound(c') && c'.headers[Last(c'.trunk)] == if Heavier(c, h) then StoredAs(c.headers, h) else c.headers[Last(c.trunk)]
  {
    StepReport(c, h);
    hide AddHeader, Weighed, InRange, TipHeaviest, Tree, Accepts;
    SoundStep(AsWritten, c, h);
  }

  // ----- what ends a batch

  /** The first refused header of a batch, with the cache it was offered to. */
  ghost function FirstRefused(c: Cache, hs: seq<BlockHeader>): (r: Option<(Cache, BlockHeader)>)
    requires WellFormed(c)
    ensures r.Some? ==> WellFormed(r.value.0) && Refused(r.value.0, r.value.1)
    decreases |hs|
  {
    if hs == [] then None
    else if Refused(c, hs[0]) then Some((c, hs[0]))
    else FirstRefused(Next(c, hs[0]), hs[1..])
  }

  /** The error of a batch is the verdict on its first refused header. */
  lemma {:induction false} FoldFailure(s: Store, hs: seq<BlockHeader>)
    requires Sound(s.cache) && NoSecondRoot(s.cache.trunk[0], hs)
    ensures var failure := Fold(s, hs).failure;
            match FirstRefused(s.cache, hs)
            case None => failure.None?
            case Some((c, h)) =>
              Sound(c) && h.prev != NO_HASH && failure.Some? && AddHeader(AsWritten, c, h).result == Err(failure.value)
    decreases |hs|
  {
    hide Accepts, AddHeader, Weighed, InRange, TipHeaviest, Tree;
    if hs != [] {
      SoundStep(AsWritten, s.cache, hs[0]);
      AddHeaderWellFormed(AsWritten, s.cache, hs[0]);
      if Refused(s.cache, hs[0]) {
        QuietStep(s.cache, hs[0]);
      } else {
        FoldFailure(AddStored(s, hs[0]).store, hs[1..]);
      }
    }
  }

  /** The first refused header of the batch has a known parent and fails its proof of work. */
  ghost predicate BadWork(c: Cache, hs: seq<BlockHeader>)
    requires WellFormed(c)
  {
    match FirstRefused(c, hs)
    case None => false
    case Some((k, h)) => h.prev in k.headers && FailsProofOfWork(k.network, Lineage(k.headers, h.prev), h)
  }

  /** A batch fails for its proof of work, for which its sender is banned, exactly if its first refused header does. */
  lemma BadWorkIff(s: Store, hs: seq<BlockHeader>)
    requires Sound(s.cache) && NoSecondRoot(s.cache.trunk[0], hs)
    ensures Fold(s, hs).failure == Some(SpvBadProofOfWork) <==> BadWork(s.cache, hs)
  {
    hide Fold, AddHeader, Accepts, FailsProofOfWork, FirstRefused, NoSecondRoot;
    FoldFailure(s, hs);
    var first := FirstRefused(s.cache, hs);
    if first.Some? {
      VerdictIff(AsWritten, first.value.0, first.value.1);
    }
  }
}
