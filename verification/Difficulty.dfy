/**
 * Difficulty over whole runs: which targets the cache ever stores, and what every retarget of a
 * stored header computed.
 */
module Difficulty {
  import opened Wrappers
  import opened Powers
  import opened Compact
  import opened HeaderTree
  import opened Consensus
  import opened Trunk
  import opened Soundness
  import opened Runs

  /** At most the difficulty-1 target, except in the first period of a chain whose genesis is easier than that. */
  predicate Allowed(easy: bool, target: nat, height: nat) {
    target <= MAX_TARGET || (easy && height < DIFFCHANGE_INTERVAL)
  }

  ghost predicate AllowedChain(easy: bool, chain: seq<BlockHeader>) {
    forall i {:trigger chain[i]} :: 0 <= i < |chain| ==> Allowed(easy, Target(chain[i].bits), i)
  }

  /** The scan for the last real difficulty never leaves the period it starts in. */
  lemma {:induction false} LastRealInPeriod(chain: seq<BlockHeader>, from: nat)
    requires from < |chain|
    ensures LastReal(chain, from) >= from - from % DIFFCHANGE_INTERVAL
    decreases from
  {
    hide Target;
    if !RealDifficulty(chain, from) {
      LastRealInPeriod(chain, from - 1);
    }
  }

  /** The consensus rule keeps targets allowed. */
  lemma ConsensusAllowed(easy: bool, network: Network, chain: seq<BlockHeader>, time: Word)
    requires chain != [] && Target(chain[|chain| - 1].bits) >= TWO_128
    requires forall i :: 0 <= i < |chain| ==> Admissible(Target(chain[i].bits))
    requires AllowedChain(easy, chain)
    ensures var r := ConsensusTarget(network, chain, time);
            r.Ok? && Allowed(easy, r.value, |chain|)
  {
    hide Target;
    var last := |chain| - 1;
    assert Allowed(easy, Target(chain[last].bits), last);
    if |chain| % DIFFCHANGE_INTERVAL == 0 {
      RetargetSafe(Target(chain[last].bits), Timespan(chain[last].time, chain[|chain| - DIFFCHANGE_INTERVAL].time));
    } else {
      hide Retarget;
      LastRealInPeriod(chain, last);
      var i := LastReal(chain, last);
      assert Allowed(easy, Target(chain[i].bits), i);
    }
  }

  // ----- every stored header obeys the rule

  /** The header was required, on the chain below it, to have the target it has. */
  ghost predicate Obeys(network: Network, headers: HeaderMap, id: Hash)
    requires Tree(headers) && id in headers
  {
    var h := headers[id].header;
    h.prev in headers ==> ConsensusTarget(network, Lineage(headers, h.prev), h.time) == Ok(Target(h.bits))
  }

  /** Every stored header obeys the rule and has an allowed target. */
  ghost predicate Regular(easy: bool, c: Cache)
    requires WellFormed(c)
  {
    forall id {:trigger Obeys(c.network, c.headers, id)} :: id in c.headers ==>
      Obeys(c.network, c.headers, id) && Allowed(easy, Target(c.headers[id].header.bits), c.headers[id].height)
  }

  lemma RegularChain(easy: bool, c: Cache, id: Hash)
    requires Sound(c) && Regular(easy, c) && id in c.headers
    ensures AllowedChain(easy, Lineage(c.headers, id))
    ensures forall i :: 0 <= i < |Lineage(c.headers, id)| ==> Admissible(Target(Lineage(c.headers, id)[i].bits))
  {
    hide Target, Lineage, Obeys;
    var chain := Lineage(c.headers, id);
    forall i | 0 <= i < |chain|
      ensures Allowed(easy, Target(chain[i].bits), i) && Admissible(Target(chain[i].bits))
    {
      LineagePrefix(c.headers, id, i);
      assert Fits(c.headers, chain[i].hash) && Obeys(c.network, c.headers, chain[i].hash);
    }
  }

  /** The step that stores a header stores it with the target its ancestors require, which is allowed. */
  lemma NewestRegular(easy: bool, c: Cache, h: BlockHeader)
    requires Sound(c) && Regular(easy, c) && Accepts(c, h)
    ensures h.hash !in c.headers && h.prev in c.headers
    ensures ConsensusTarget(c.network, Lineage(c.headers, h.prev), h.time) == Ok(Target(h.bits))
    ensures Allowed(easy, Target(h.bits), c.headers[h.prev].height + 1)
  {
    hide Target, ConsensusTarget, RequiredTarget, Obeys, Regular;
    AcceptsIffAcceptable(c, h);
    RegularChain(easy, c, h.prev);
    TargetLarge(c.headers, h.prev);
    ConsensusAllowed(easy, c.network, Lineage(c.headers, h.prev), h.time);
  }

  lemma RegularStep(rule: Rule, easy: bool, c: Cache, h: BlockHeader)
    requires Sound(c) && Regular(easy, c) && (h.prev != NO_HASH || h.hash in c.headers)
    ensures Sound(AddHeader(rule, c, h).cache) && Regular(easy, AddHeader(rule, c, h).cache)
  {
    hide AddHeader, Accepts, Target, BlockWork, ConsensusTarget, Weighed, InRange, TipHeaviest;
    SoundStep(rule, c, h);
    var c' := AddHeader(rule, c, h).cache;
    if Accepts(c, h) {
      NewestRegular(easy, c, h);
      assert Node(c.headers, h.prev);
      forall id | id in c'.headers
        ensures Obeys(c'.network, c'.headers, id) && Allowed(easy, Target(c'.headers[id].header.bits), c'.headers[id].height)
      {
        if id == h.hash {
          LineageStable(c.headers, c'.headers, h.prev);
        } else {
          assert Obeys(c.network, c.headers, id) && Node(c.headers, id);
          if c.headers[id].header.prev in c.headers {
            LineageStable(c.headers, c'.headers, c.headers[id].header.prev);
          }
        }
      }
    }
  }

  lemma {:induction false} RegularRun(rule: Rule, easy: bool, c: Cache, hs: seq<BlockHeader>)
    requires Sound(c) && Regular(easy, c) && NoSecondRoot(c.trunk[0], hs)
    ensures Sound(Run(rule, c, hs)) && Regular(easy, Run(rule, c, hs))
    decreases |hs|
  {
    hide AddHeader, Regular, Tree, Weighed, InRange, TipHeaviest;
    if hs != [] {
      RegularStep(rule, easy, c, hs[0]);
      SoundStep(rule, c, hs[0]);
      RegularRun(rule, easy, AddHeader(rule, c, hs[0]).cache, hs[1..]);
    }
  }

  // ----- the laws

  /**
   * Targets over every run with one root, on every network: a stored target is above the
   * difficulty-1 target only if the genesis target is, and then only in the first period.
   */
  lemma TargetsOverRuns(rule: Rule, network: Network, g: BlockHeader, hs: seq<BlockHeader>, id: Hash)
    requires GenesisHeader(g) && NoSecondRoot(g.hash, hs)
    ensures Sound(Start(network, g))
    ensures var c := Run(rule, Start(network, g), hs);
            && Sound(c) && Regular(Target(g.bits) > MAX_TARGET, c)
            && (id in c.headers && Target(c.headers[id].header.bits) > MAX_TARGET ==>
                  Target(g.bits) > MAX_TARGET && c.headers[id].height < 2016)
            && (id in c.headers && Target(g.bits) <= MAX_TARGET ==> Target(c.headers[id].header.bits) <= MAX_TARGET)
  {
    StartSound(rule, network, g);
    hide Target, BlockWork, Run, Weighed, InRange, TipHeaviest;
    var easy := Target(g.bits) > MAX_TARGET;
    RegularRun(rule, easy, Start(network, g), hs);
    var c := Run(rule, Start(network, g), hs);
    if id in c.headers {
      assert Obeys(c.network, c.headers, id);
    }
  }

  /** The new target, without loss of bits: the greatest expressible one not above the maximum and not above the old one scaled. */
  ghost predicate ExactRetarget(before: nat, timespan: nat, target: nat) {
    && before * timespan < TWO_256
    && Expressible(target) && target <= MAX_TARGET && target * 1_209_600 <= before * timespan
    && forall v: nat :: Expressible(v) && v <= MAX_TARGET && v * 1_209_600 <= before * timespan ==> v <= target
  }

  /** For the targets in range the scaled product keeps all its bits exactly up to the difficulty-1 target. */
  lemma ProductFitsIff(target: nat, timespan: nat)
    requires Admissible(target)
    requires DIFFCHANGE_TIMESPAN / 4 <= timespan <= DIFFCHANGE_TIMESPAN * 4
    ensures target * timespan < TWO_256 <==> target <= MAX_TARGET
  {
    if target <= MAX_TARGET {
      ProductFits(target, timespan);
    } else {
      MulMono(3, timespan, target);
    }
  }

  lemma RetargetIsExact(before: nat, timespan: nat)
    requires TWO_128 <= before <= MAX_TARGET
    requires DIFFCHANGE_TIMESPAN / 4 <= timespan <= DIFFCHANGE_TIMESPAN * 4
    ensures Retarget(before, timespan).Ok? && ExactRetarget(before, timespan, Retarget(before, timespan).value)
  {
    hide Retarget, Expressible;
    RetargetIsGreatest(before, timespan);
    ProductFits(before, timespan);
  }

  /** The greatest expressible target within the limit, as 256-bit arithmetic computes it. */
  ghost predicate Retargeted(before: nat, timespan: nat, target: nat) {
    && Expressible(target) && target <= Limit(before, timespan)
    && forall v: nat :: Expressible(v) && v <= Limit(before, timespan) ==> v <= target
  }

  /**
   * Retargets over every run: every stored header that opens a period carries the retarget of its
   * parent's target by the time between its parent and the header 2015 places before that. Unless
   * the genesis target is above the maximum and it opens the second period, no bits were lost.
   */
  lemma RetargetsOverRuns(rule: Rule, network: Network, g: BlockHeader, hs: seq<BlockHeader>, id: Hash)
    requires GenesisHeader(g) && NoSecondRoot(g.hash, hs)
    ensures Sound(Start(network, g))
    ensures var c := Run(rule, Start(network, g), hs);
            id in c.headers && c.headers[id].height % 2016 == 0 && c.headers[id].height > 0 ==>
              && WellFormed(c)
              && var chain := Lineage(c.headers, id);
              && |chain| > 2016
              && var parent, first, target := chain[|chain| - 2], chain[|chain| - 1 - 2016], Target(c.headers[id].header.bits);
              && Retargeted(Target(parent.bits), Timespan(parent.time, first.time), target)
              && (Target(g.bits) <= MAX_TARGET || c.headers[id].height > 2016 ==>
                    ExactRetarget(Target(parent.bits), Timespan(parent.time, first.time), target))
  {
    hide Target, Run, Obeys, Regular, ExactRetarget, Retargeted;
    TargetsOverRuns(rule, network, g, hs, id);
    var c := Run(rule, Start(network, g), hs);
    if id in c.headers && c.headers[id].height % 2016 == 0 && c.headers[id].height > 0 {
      assert Node(c.headers, id);
      TargetsOverRuns(rule, network, g, hs, c.headers[id].header.prev);
      RetargetOf(Target(g.bits) > MAX_TARGET, c, id);
    }
  }

  lemma RetargetOf(easy: bool, c: Cache, id: Hash)
    requires Sound(c) && Regular(easy, c) && id in c.headers
    requires c.headers[id].height % 2016 == 0 && c.headers[id].height > 0 && c.headers[id].header.prev in c.headers
    ensures var chain := Lineage(c.headers, id);
            && |chain| > 2016
            && var parent, first, target := chain[|chain| - 2], chain[|chain| - 1 - 2016], Target(c.headers[id].header.bits);
            && parent == c.headers[c.headers[id].header.prev].header
            && Retargeted(Target(parent.bits), Timespan(parent.time, first.time), target)
            && (Target(parent.bits) <= MAX_TARGET ==> ExactRetarget(Target(parent.bits), Timespan(parent.time, first.time), target))
  {
    hide Target, ExactRetarget, Retargeted, Retarget;
    assert Obeys(c.network, c.headers, id) && Node(c.headers, id);
    var prev := c.headers[id].header.prev;
    var below := Lineage(c.headers, prev);
    assert Lineage(c.headers, id) == below + [c.headers[id].header];
    TargetLarge(c.headers, prev);
    assert Fits(c.headers, prev);
    var parent, first := below[|below| - 1], below[|below| - 2016];
    RetargetIsWithin(Target(parent.bits), Timespan(parent.time, first.time));
    if Target(parent.bits) <= MAX_TARGET {
      RetargetIsExact(Target(parent.bits), Timespan(parent.time, first.time));
    }
  }

  lemma RetargetIsWithin(before: nat, timespan: nat)
    requires Admissible(before) && before >= TWO_128
    requires DIFFCHANGE_TIMESPAN / 4 <= timespan <= DIFFCHANGE_TIMESPAN * 4
    ensures Retarget(before, timespan).Ok? && Retargeted(before, timespan, Retarget(before, timespan).value)
  {
    hide Retarget, Expressible, Limit;
    RetargetIsGreatestWithin(before, timespan);
  }
}
