# Murmel: header chain, wire framing and peer protocol

Murmel is a lightweight Bitcoin node. This project models the logic it depends on most and proves
what that logic keeps over whole runs:

- the tree of block headers, the trunk that is meant to be the chain with most work, and the
  consensus arithmetic that decides which header is accepted;
- the database beside the cache, and the restart that rebuilds the cache from it;
- the batched processing of a headers message and what it announces downstream;
- the chunked rollback buffer, message framing, the write loop and the version handshake of a peer;
- the accounting of outstanding replies shared by the header download and the ping thread.

`dafny verify dfyconfig.toml` checks everything.

## How it is built

Code that computes a value is a function; code that updates fields or loops is a class with methods,
each proved equal to a step on values. The laws are lemmas about those steps and about runs of them.

| file | content |
|---|---|
| Powers, Compact | 256-bit arithmetic: targets, work, compact encoding |
| HeaderTree, Consensus | header tree and lineages; required target, by walking the map and by the chain alone |
| Trunk, Linkage, Soundness, Runs, MostWork, Difficulty, Deviations | adding a header; when the trunk is a path; the invariant; whole runs; the most-work chain of the headers offered; targets over whole runs; where the code departs from its comments |
| Locator, HeaderCache, ChainStore, ChainDb | locator; the cache object; cache with database and restarts; the database object |
| Intake, TrunkNotices, HeaderDownload | batches of headers and notifications; when notifications match the trunk; the download object |
| ReplyLedger, Timeout, ReplyAccounting, Ping | reply accounting on values, as an object, over all interleavings; the ping object |
| Buffer, BufferRuns, Framing, WriteLoop, Services, Handshake, HandshakeLaws, Session | buffer; framing; writing; service bits; handshake and its laws over whole runs; the read path of a peer from bytes to events |

## Abstractions

- A block hash is the number its bytes encode; a header carries its hash. The all-zero hash is no header's hash.
  Where lives or runs of the cache are compared, a hash stands for one header.
- Total work is an exact number; the source keeps its logarithm as a floating-point value. The assertion that it
  stays below 2^128 is kept.
- A failed assertion, an index out of range or an unsigned underflow in `add_header` is the result `Aborted`
  with the state unchanged.
- Timestamps wrap at 2^32 as in a release build. Heights and positions do not wrap.
- The database is a map and a tip cell; its operations succeed. The wire decoder is a parameter that never changes
  a verdict when more bytes arrive. Socket behaviour, clock readings and random nonces are parameters.

## Where the code and its comments disagree

The model follows the code. Each point has an example and the exact condition.

- The trunk is documented as the chain with most work from genesis to tip. A re-organisation puts the fork point on
  it twice and leaves out the new tip's parent, and a heavier child of a trunk entry below the tip is appended without
  cutting the trunk. `Runs.TrunkIsPathIffNeverBreaks` and `MostWork.TrunkIsMostWorkIff` say exactly which runs keep the promise,
  `Deviations.ReorganisationLosesParent` is a run that does not, and `Runs.IntendedRun` proves the promise for the rule
  `Intended`, which pushes before it steps and always cuts. Rule `Intended` is not the source's; it is there to be
  compared with it. A restart repairs the trunk (`ChainStore.RestartRepairs`).
- A header without parent is appended to the trunk whenever it is new, whatever its work
  (`Deviations.SoundIffNotSecondRoot`, `Deviations.SecondRootTip`, `Deviations.SecondRootExample`).
- After such a header an error can come after the header was stored
  (`Deviations.LateFailureIff`, `Deviations.LateFailureExample`).
- A handshake that completes in a read that ends with a malformed frame is never announced, yet later messages are
  dispatched (`HandshakeLaws.AnnouncedFirstIff`, `HandshakeLaws.UnannouncedConnection`).
- `header_connected` is documented for headers that join the trunk; it is called for every stored header, also for
  side blocks (`Deviations.SideBlockAnnounced`), and not for a side block that joins later
  (`Deviations.JoinedUnannounced`); `TrunkNotices.ConnectedJoinedIff` says when the calls match the trunk. Headers
  stored before an error in the same pass are not announced at all (`Deviations.StoredButUnannounced`,
  `TrunkNotices.AllAnnouncedIff`).
- The height published after a batch is meant to be that of the new tip; it is that of the last stored header, which
  may be a side block (`Deviations.SideHeightPublished`, `TrunkNotices.PublishedHeightIff`).

## Model

| member | source | states |
|---|---|---|
| Compact.TargetDecodes | src/headercache.rs:48-68 | the value of every nBits word: from exponent 3 on the mantissa times 256^(exponent - 3) modulo 2^256, or zero with the sign bit set; below 3 the mantissa without its low bytes |
| Compact.TargetShape | src/headercache.rs:48-68 | every nBits word decodes to a 23-bit mantissa shifted by whole bytes within 256 bits |
| Compact.TargetBound | src/headercache.rs:88-96 | a decoded target is never the all-ones word, so `target + 1` never wraps and the division in `work` is defined |
| Compact.WorkIsQuotient | src/headercache.rs:87-96 | the 256-bit formula is 2^256 / (target + 1), as its comment says, except that a zero target wraps to zero work |
| Compact.SmallWorkLargeTarget | src/headercache.rs:167-170 | work below 2^128 forces a target of at least 2^128 |
| Compact.PrecisionDefined | src/headercache.rs:347 | the unsigned `- 3` does not underflow exactly for n >= 2^16 |
| Compact.PrecisionExpressible | src/headercache.rs:343-354 | the result is at most n and some nBits word decodes to exactly it |
| Compact.PrecisionGreatest | src/headercache.rs:343-354 | no value that nBits can express lies between the result and n |
| Compact.PrecisionIsGreatestExpressible | src/headercache.rs:338-354 | p is the result if and only if it is the greatest expressible value not above n |
| Compact.PrecisionIdempotentMonotone | src/headercache.rs:343-354 | compacting twice is compacting once, and compacting is monotone |
| Compact.PrecisionLoss | src/headercache.rs:343-354 | less than n / 2^15 is lost |
| Consensus.TargetConstants | src/headercache.rs:183-185 | the maximum target constant is 0xFFFF shifted by 26 bytes and the decoding of the genesis nBits words |
| Consensus.Timespan | src/headercache.rs:211-216 | the permitted timespan nearest to the elapsed time on wrapping 32-bit clocks |
| Consensus.ScanBackLands | src/headercache.rs:202-209 | walking n parent links never fails within the height and lands n places up the lineage |
| Consensus.PeriodStartLands | src/headercache.rs:195-210 | the 2015-step walk ends at the first block of the period that the parent closes |
| Consensus.LastReal | src/headercache.rs:232-249 | the nearest block of a chain that opens a period or has a target other than the maximum |
| Consensus.TestnetScanLands | src/headercache.rs:235-249 | the Testnet scan terminates, never fails, and stops at exactly that block |
| Consensus.RequiredTargetIsConsensus | src/headercache.rs:193-253 | unless the shortcut guard holds, the target computed by walking the map is the consensus rule applied to the ancestor chain alone |
| Consensus.TestnetTarget | src/headercache.rs:227-249 | on Testnet off a difficulty change: the maximum target if the block is more than 1200 seconds after its parent, otherwise the target of the nearest block that opens a period or has another target; with the limit wrapped if the parent's clock is within 1200 seconds of its end |
| Consensus.ParentTarget | src/headercache.rs:250-253 | on the other networks off a difficulty change the parent's target, whatever the time |
| Consensus.RegtestProduct | src/headercache.rs:219-221 | Regtest's genesis target overflows 256 bits when scaled, but never to a small value |
| Consensus.RetargetSafe | src/headercache.rs:218-226 | with targets of at least 2^128 the scaled product fits in 256 bits (Regtest apart), compaction never underflows, and the new target is positive and at most the maximum |
| Consensus.RetargetIsGreatest | src/headercache.rs:211-226 | the new target is the greatest expressible value that exceeds neither the maximum nor the old target scaled by the timespan |
| Consensus.RetargetIsGreatestWithin | src/headercache.rs:217-226 | for any target in range, Regtest's too: the greatest expressible value not above the maximum and not above the 256-bit product divided by two weeks |
| HeaderTree.LineagePrefix | src/headercache.rs:255-259 | an entry at index i of a lineage is known, has height i, and the lineage up to it is its own |
| HeaderTree.PathLinked | src/headercache.rs:255-259 | a path starts at a root and each hash is the parent of the next |
| HeaderTree.PathDistinct | src/headercache.rs:255-259 | no hash is on a path twice |
| HeaderTree.WorkOfLineage | src/headercache.rs:255-259 | stored total work is the sum of the work of all ancestors and the block |
| HeaderTree.BlockWorkIs | src/headercache.rs:87-96 | the work of a block is the whole quotient of 2^256 by its target and one |
| Trunk.PosOnTrunk | src/headercache.rs:318-321 | the last index of a hash on the trunk, or none if it is not there |
| Trunk.ForkWalk | src/headercache.rs:274-285 | the values of the walk variable start at the parent and end on the trunk |
| Trunk.MoveTrunkShape | src/headercache.rs:274-309 | a moved trunk keeps its first entry, ends at the new tip and holds known hashes only, under both rules |
| Trunk.AddUnfolds | src/headercache.rs:136-165 | a step either stores an accepted header or changes nothing, and reports which; the error is that of `Soundness.VerdictIff` |
| Trunk.AddHeaderWellFormed | src/headercache.rs:136-316 | for every header whatever: parents stay known, heights stay consistent, every trunk hash stays in the map |
| Trunk.DeltaReplay | src/headercache.rs:286-312 | in every branch the unwinds are the end of the old trunk, tip first, and dropping them and appending the forwards gives the new trunk |
| Linkage.LinkedIffPath | src/headercache.rs:318-321 | consecutive trunk entries are parent and child if and only if the trunk is the path of its tip |
| Linkage.HeightIsPosition | src/headercache.rs:318-321 | on a linked trunk an entry's height is its index and `pos_on_trunk` inverts indexing |
| Linkage.ForkWalkSucceeds | src/headercache.rs:277-285 | with all roots on the trunk the walk from any known header ends on the trunk |
| Linkage.ForkWalkFailsIff | src/headercache.rs:277-285 | the walk fails if and only if no ancestor is on the trunk |
| Linkage.MoveAsWritten | src/headercache.rs:274-309 | moving to a child of the tip appends it; moving anywhere else leaves two entries that are not parent and child |
| Linkage.LinkedStep | src/headercache.rs:266-316 | an unlinked trunk never becomes linked again; a linked one stays linked if and only if the step does not move it to a header that is not a child of the tip |
| Soundness.StartSound | src/headercache.rs:153-164 | inserting genesis into an empty cache gives the start state, which satisfies the invariant |
| Soundness.NetworkGenesis | src/chaindb.rs:98-106 | the genesis words of Bitcoin and Testnet and of Regtest can start a chain: 0x100010001 and 2 units of work |
| Soundness.ChildHeavier | src/headercache.rs:255-259 | total work strictly grows from parent to child |
| Soundness.ShortcutNeverTaken | src/headercache.rs:199-200 | no known header has the tip as parent, so the shortcut guard is false in every reachable cache |
| Soundness.TargetLarge | src/headercache.rs:167-181 | every stored target is at least 2^128 |
| Soundness.ConsensusTargetInRange | src/headercache.rs:193-253 | on a chain of targets that occur on some network, the last at least 2^128, the consensus rule is defined and gives such a target; the cap over runs is `Difficulty.TargetsOverRuns` |
| Soundness.RequiredTargetSound | src/headercache.rs:193-253 | in a sound cache the required target always exists, equals the consensus target of the ancestor chain, and is in range |
| Soundness.AttachSucceeds | src/headercache.rs:266-316 | in a single-rooted cache no failure follows the insertion; the tip moves exactly to a strictly heavier header |
| Soundness.SoundStep | src/headercache.rs:136-316 | every step keeps the invariant: tip heaviest, targets in range, single root; an error changes nothing and is never `NoTip`; ties keep the tip |
| Soundness.AcceptsIffAcceptable | src/headercache.rs:70-85 | a new connected header is accepted if and only if its ancestor chain, its own fields and the network say so |
| Soundness.VerdictIff | src/headercache.rs:136-264 | for an unknown header in a sound cache: `UnconnectedHeader` if and only if its non-zero parent is unknown; `SpvBadProofOfWork` if and only if the total work stays below 2^128 and its target is not the consensus target or its hash is above it; abort if and only if the total work reaches 2^128; success otherwise |
| Soundness.ArrivalOrderIndependent | src/headercache.rs:193-264 | two caches of one network, whatever trunk and side branches they hold, accept the same children of a common header and store them alike |
| Runs.SoundRun | src/headercache.rs:136-316 | after any run with one root: tip heaviest, every parent and trunk hash known, nothing forgotten, and the tip changed only for strictly more work; the cap on targets is `Difficulty.TargetsOverRuns` |
| Runs.UnbrokenStaysRooted | src/headercache.rs:136-165 | a step that does not break the trunk adds no root |
| Runs.LinkedIffNeverBreaks | src/headercache.rs:266-316 | from any linked single-rooted cache and for any headers, the trunk ends linked if and only if no step broke it |
| Runs.TrunkIsPathIffNeverBreaks | src/headercache.rs:266-321 | for every run of the code as written from genesis: the trunk is the genesis-to-tip path if and only if no step moved it to a header that is not a child of the tip |
| Runs.ForkWalkPath | src/headercache.rs:274-288 | the path to a header is the path to the fork point followed by the visited hashes reversed |
| Runs.IntendedStep | src/headercache.rs:274-309 | the intended rule keeps the trunk equal to the path of its tip |
| Runs.IntendedRun | src/headercache.rs:110-111 | under the intended rule the trunk is, after every run, the genesis-to-tip path of the heaviest header |
| Runs.RulesAgree | src/headercache.rs:266-316 | the code as written and the intended rule accept the same headers and pick the same tip on every run |
| Runs.AsWrittenIsIntendedIff | src/headercache.rs:266-316 | both rules give the same cache if and only if no step of the run broke the trunk |
| Runs.ReplayRun | src/headercache.rs:286-312 | a listener that applies every reported change of a run in order ends with the cache's trunk |
| Difficulty.ConsensusAllowed | src/headercache.rs:193-253 | on a chain whose targets are at most the maximum, except in the first period of an easier genesis, the consensus rule gives such a target again |
| Difficulty.RegularStep | src/headercache.rs:188-264 | every step keeps: each stored header has the target its ancestor chain requires, and it is allowed |
| Difficulty.TargetsOverRuns | src/headercache.rs:183-264 | over every run with one root and on every network, a stored target is above the maximum only if the genesis target is, and then only in the first 2016 blocks; from a genesis at or below the maximum every stored target is at or below it |
| Difficulty.ProductFitsIff | src/headercache.rs:218-221 | for targets in range the scaled product fits in 256 bits if and only if the target is at most the maximum |
| Difficulty.RetargetsOverRuns | src/headercache.rs:193-226 | over every run, every stored header that opens a period carries the greatest expressible target under the maximum and under its parent's target scaled in 256 bits by the timespan of the period; no bits are lost except in the second period of a genesis above the maximum |
| MostWork.StoredIsValid | src/headercache.rs:136-316 | in any order, whatever is stored heads a chain from genesis of offered headers, each naming the one before it and meeting the consensus rule on the chain below it |
| MostWork.ValidIsStored | src/headercache.rs:136-316 | with parents offered first, every such chain is the lineage of a stored header |
| MostWork.StoredIffValid | src/headercache.rs:136-316 | with parents offered first, a chain is valid if and only if it is the lineage of a stored header |
| MostWork.TipIsMostWork | src/headercache.rs:110-111 | the lineage of the tip is a valid chain of the offered headers, and no valid chain of them has more work |
| MostWork.TrunkIsMostWorkIff | src/headercache.rs:110-111 | the trunk of the code as written lists a most-work valid chain of the offered headers if and only if no step broke it |
| MostWork.OrderIndependentRun | src/headercache.rs:136-316 | two parent-first orders of the same headers end with the same header map, heights and work included, and with tips of equal work |
| Deviations.ReorganisationLosesParent | src/headercache.rs:277-304 | a three-header run whose trunk becomes 1, 1, 4 where the path is 1, 3, 4 |
| Deviations.SoundIffNotSecondRoot | src/headercache.rs:153-164 | the invariant survives a step if and only if the header is not a new root |
| Deviations.SecondRootTip | src/headercache.rs:153-164 | a new root becomes the tip; the tip is then heaviest if and only if the root has at least the old tip's work |
| Deviations.SecondRootExample | src/headercache.rs:153-164 | a reachable cache in which a new root becomes a tip that is not heaviest |
| Deviations.LateFailureIff | src/headercache.rs:262-315 | an error leaves a changed cache if and only if the header passes all checks, is heavier than the tip and has no ancestor on the trunk |
| Deviations.LateFailureExample | src/headercache.rs:277-285 | a run from genesis after which a header is stored and the call returns an error |
| Deviations.SideBlockAnnounced | src/headerdownload.rs:158-198 | a two-header batch in which a side block that never joins the trunk is announced as connected |
| Deviations.StoredButUnannounced | src/headerdownload.rs:178-187 | a two-header batch whose first header becomes tip and is never announced, because the second one fails |
| Deviations.JoinedUnannounced | src/headerdownload.rs:158-198 | a reachable cache and a one-header batch after which a header has joined the trunk that no call names |
| Deviations.SideHeightPublished | src/headerdownload.rs:169-209 | a three-header batch that leaves the tip at height 2 and publishes height 1 |
| Locator.LocatorDense | src/headercache.rs:388-408 | any distance up to the last one named has a named distance between itself and its double |
| Locator.NamesIff | src/headercache.rs:387-408 | a trunk has exactly one locator: naming the entries at the locator distances as far as the trunk goes determines it |
| HeaderCache.HeaderCache.PosOnTrunk | src/headercache.rs:318-321 | the search from the tip finds the last position |
| HeaderCache.HeaderCache.RequiredWork | src/headercache.rs:193-253 | the loops compute the required target |
| HeaderCache.HeaderCache.WalkBack | src/headercache.rs:197-210 | the counted backward loop follows exactly n parent links |
| HeaderCache.HeaderCache.TestnetWalk | src/headercache.rs:236-249 | the Testnet loop terminates and computes the scan |
| HeaderCache.HeaderCache.WalkToFork | src/headercache.rs:274-285 | the fork loop terminates, ends where the walk ends and pushes every value after the first |
| HeaderCache.HeaderCache.Attach | src/headercache.rs:266-316 | storing and moving the trunk in place is the step on values |
| HeaderCache.HeaderCache.AddHeaderToTree | src/headercache.rs:188-316 | the in-place update and its result are those of the step on values |
| HeaderCache.HeaderCache.AddHeader | src/headercache.rs:135-165 | likewise for every header, known, unconnected, root or child |
| HeaderCache.HeaderCache.GetHeaderForHeight | src/headercache.rs:364-371 | the trunk entry at an index, or none beyond the end |
| HeaderCache.HeaderCache.AddHeaderUnchecked | src/headercache.rs:121-125 | inserts and pushes without check |
| HeaderCache.HeaderCache.ReverseTrunk | src/headercache.rs:127-129 | reverses the trunk and nothing else |
| HeaderCache.HeaderCache.LocatorHashes | src/headercache.rs:387-408 | names exactly the entries at distances 0..9 and 9 + 2^k from the tip, as far as the trunk goes; with n > 10 entries the trunk has more than 2^(n-11) + 9 blocks; the counter stays below 2^31 for trunks below 2^30 |
| ChainStore.BackWalkIsPath | src/chaindb.rs:86-95 | reading back from a stored header visits exactly its path to the root, and ends |
| ChainStore.RestartRoundTrip | src/chaindb.rs:83-97 | after a restart the trunk is the genesis-to-tip path of the heaviest stored header, whatever it was before, and the invariant holds again |
| ChainStore.FirstStartPersisted | src/chaindb.rs:98-106 | the first start with genesis satisfies the invariant of cache and database |
| ChainStore.ForwardsEndAtTip | src/chaindb.rs:120-124 | forwards are reported exactly when the tip moves, and end in the new tip |
| ChainStore.PersistedStep | src/chaindb.rs:117-128 | offering a header keeps cache, database and stored tip in step |
| ChainStore.Life | src/chaindb.rs:83-128 | after any sequence of offers and restarts the stored tip is the cache's tip and the heaviest header ever stored |
| ChainStore.RestartRepairs | src/chaindb.rs:83-97 | after any life and a restart the trunk is the path of its tip if and only if no step since then broke it |
| ChainDb.ChainDB.InitHeaders | src/chaindb.rs:83-113 | rebuilds the cache from the stored tip, or stores genesis and its tip on first start |
| ChainDb.ChainDB.LoadFrom | src/chaindb.rs:86-95 | the backward loop terminates and loads exactly the walk |
| ChainDb.ChainDB.AddHeader | src/chaindb.rs:116-128 | cache, database and tip change as in the step on values |
| Intake.FoldIsRun | src/headerdownload.rs:158-188 | the fold offers headers in order up to the first error and leaves the cache that offering them one by one leaves |
| Intake.PersistedFold | src/headerdownload.rs:151-190 | a batch keeps cache, database and stored tip in step, whatever error ends it |
| Intake.CompleteNotices | src/headerdownload.rs:191-198 | without error the disconnect calls are exactly the unwinds in order, and there is one connect call per stored header in order |
| Intake.IncompleteNotices | src/headerdownload.rs:178-187 | with an error exactly the headers stored since the last re-organisation go unannounced |
| Intake.PassOrder | src/headerdownload.rs:191-198 | in every pass the disconnect calls, one per unwound hash in the order reported, come before the connect calls, one per stored header with its height in the order stored |
| TrunkNotices.StepReport | src/headercache.rs:266-316 | forwards are reported exactly for a header heavier than the tip, unwinds exactly if its parent is then off the trunk, and the header alone goes on the trunk exactly if its parent is on it |
| TrunkNotices.FoldTakes | src/headerdownload.rs:158-188 | a batch takes the headers before the first refused one, reports what offering them reports, and fails if and only if one is refused |
| TrunkNotices.ConnectedJoinedIff | src/downstream.rs:34-35 | the connect calls of a batch name, in order, exactly what it put on the trunk if and only if, without refused header, each accepted one is, when offered, heavier than the tip with its parent on the trunk, and, with one, none accepted before it is heavier than the tip |
| TrunkNotices.AllAnnouncedIff | src/headerdownload.rs:158-198 | every stored header is announced if and only if no header of the batch is refused, none is accepted before the refused one, or the last accepted before it is heavier than the tip with its parent off the trunk |
| TrunkNotices.PublishedHeightIff | src/headerdownload.rs:169-209 | a height is published if and only if some header accepted in the batch is heavier than the tip; it is the tip's if and only if the last accepted header is, when offered, heavier than the tip or as high as it |
| TrunkNotices.FoldFailure | src/headerdownload.rs:178-187 | the error that ends a batch is the verdict on its first refused header |
| TrunkNotices.BadWorkIff | src/headerdownload.rs:178-182 | a batch ends with a failed proof of work if and only if its first refused header has a known parent, keeps the total work below 2^128 and fails its proof of work |
| HeaderDownload.HeaderDownload.GetHeadersFrom | src/headerdownload.rs:113-130 | one getheaders message, with the locator of the trunk and the trunk's last hash as stop, and one more expected reply, unless the peer has a timer and owes headers or there is no trunk; then neither |
| HeaderDownload.HeaderDownload.Inv | src/headerdownload.rs:93-111 | the same if and only if an announced block is unknown |
| HeaderDownload.HeaderDownload.Drain | src/headerdownload.rs:156-190 | one pass takes a part of the fold that ends with the queue, an error or a re-organisation |
| HeaderDownload.HeaderDownload.Process | src/headerdownload.rs:151-199 | the nested loops terminate and are the fold; the calls downstream are those of the notices |
| HeaderDownload.HeaderDownload.Headers | src/headerdownload.rs:132-214 | chain, announcements, reply ledger and exact requests of a whole headers message: a ban if and only if the first refused header fails its proof of work, or one getheaders per newly expected reply, then the height of the last stored header exactly when the tip moved |
| HeaderDownload.HeaderDownload.CheckLate | src/headerdownload.rs:82 | bans and forgets exactly the peers late with headers |
| HeaderDownload.RequestLaw | src/headerdownload.rs:113-130 | as many getheaders messages as replies newly expected, at most one, with locator and stop hash of the trunk; one is sent if and only if there is a trunk and the peer has no timer or owes no headers |
| HeaderDownload.FollowUpsLaw | src/headerdownload.rs:201-211 | after a batch without error: such a request if and only if something was stored and the peer must be asked, then the height of the last stored header if and only if some header moved the tip |
| HeaderDownload.CheckIsStep | src/headerdownload.rs:82 | the check for late peers is one step of the two-thread system |
| HeaderDownload.AskIsBehaviour | src/headerdownload.rs:113-130 | the ledger after `get_headers` is that of its busy test and its request as steps of the two-thread system |
| HeaderDownload.MessageIsBehaviour | src/headerdownload.rs:132-133 | likewise for a headers message that brought something new |
| ReplyAccounting.ExpectLedger | src/timeout.rs:59-62 | expecting n replies adds n to the count, sets the timer and keeps timers and counts in agreement |
| ReplyAccounting.ReceivedLedger | src/timeout.rs:64-81 | n matching replies lower the count by n, not below zero, and restart the timer, which is removed when nothing is owed; an unexpected one changes no count and no timer |
| ReplyAccounting.DropLedger | src/timeout.rs:54-57 | forgetting peers removes their timers and counts and nobody else's |
| ReplyAccounting.InvStep | src/headerdownload.rs:113-133 | every critical section of either thread keeps the accounting invariant |
| ReplyAccounting.AccountingHolds | src/ping.rs:53-84 | over every interleaving: a timer exactly when a reply is owed, at most one headers and one pong reply per peer, timers stamped by the latest activity |
| ReplyAccounting.BansOnlyTheSilent | src/timeout.rs:99-114 | in every reachable state a check bans a peer if and only if it owes the reply and had no activity in the last 60 seconds |
| Timeout.Timeout.Expect | src/timeout.rs:59-62 | the maps after `expect` |
| Timeout.Timeout.Received | src/timeout.rs:64-81 | the maps after `received` |
| Timeout.Timeout.Forget | src/timeout.rs:54-57 | the maps after `forget` |
| Timeout.Timeout.IsBusyWith | src/timeout.rs:87-96 | a timer and a positive count of that kind |
| Timeout.Timeout.FindLate | src/timeout.rs:100-109 | collects exactly the late peers, each once, in any visiting order |
| Timeout.Timeout.Check | src/timeout.rs:99-114 | bans exactly the late peers, each once, and removes exactly their entries |
| Ping.Ping.Disconnected | src/ping.rs:57-60 | forgets the peer and its nonce |
| Ping.Ping.Pong | src/ping.rs:61-69 | only the nonce last sent counts as a reply; any pong uses the nonce up |
| Ping.Ping.PingRound | src/ping.rs:74-82 | bans late peers; then pings sent, nonces remembered and replies expected are exactly those of the round |
| Ping.PingedIff | src/ping.rs:75-81 | a round pings a peer if and only if it is in the peer map and has no timer |
| Ping.PingedOnce | src/ping.rs:75-81 | no peer is pinged twice in a round, the nonce remembered for a pinged peer is the one it was sent, and no other nonce changes |
| Ping.RoundIsBehaviour | src/ping.rs:75-82 | a round is a sequence of test and ask steps of the two-thread system, so the accounting invariant holds through it |
| Ping.TurnIsBehaviour | src/ping.rs:74-82 | likewise with the check for late peers before it |
| Ping.RepliesAreSteps | src/ping.rs:57-69 | a pong and a disconnection are single steps of the two-thread system |
| Buffer.MovedPosition | src/p2p.rs:1080-1104 | one turn of a read loop keeps a valid position, moves it by the bytes taken, and those are the next bytes of the flat content |
| Buffer.CopyChunk | src/p2p.rs:1080-1104 | copies the next bytes and touches nothing else of the target |
| Buffer.Buffer.Len | src/p2p.rs:1049-1052 | the number of unread bytes |
| Buffer.Buffer.Rollback | src/p2p.rs:1054-1057 | everything since the last commit is unread again |
| Buffer.Buffer.Commit | src/p2p.rs:1059-1066 | what was read is gone, the rest is the new savepoint |
| Buffer.Buffer.ReadAhead | src/p2p.rs:1068-1108 | delivers the first min(k, len) unread bytes and changes nothing |
| Buffer.Buffer.Advance | src/p2p.rs:1110-1138 | skips min(k, len) unread bytes |
| Buffer.Buffer.ReadAdvance | src/p2p.rs:1140-1178 | delivers and skips the first min(k, len) unread bytes |
| Buffer.Buffer.Write | src/p2p.rs:1182-1197 | appends to the unread bytes, whatever chunk they go to |
| BufferRuns.Interleave | src/p2p.rs:1043-1209 | for any interleaving of operations that skips nothing before the first byte was written, the chunked buffer delivers and holds what a byte queue with one savepoint does |
| BufferRuns.RollbackRestores | src/p2p.rs:1054-1066 | a rollback restores all bytes since the last commit and keeps later writes |
| BufferRuns.FirstInFirstOut | src/p2p.rs:1043-1209 | without rollback, bytes read or skipped and bytes unread are bytes unread before and bytes written, in order |
| BufferRuns.PeekSkipIsRead | src/p2p.rs:1068-1178 | reading ahead and advancing by what was seen equals reading |
| Framing.BurstIsPrefix | src/p2p.rs:755-768 | one read event extracts the first frames of the stream and leaves the rest, whatever follows |
| Framing.BurstShape | src/p2p.rs:761-768 | only the last frame of a read event can be malformed |
| Framing.ArrivalsLast | src/p2p.rs:755-768 | the last of several reads works on the bytes the others left |
| Framing.ArrivalsConserve | src/p2p.rs:755-768 | frames extracted over any reads, then frames still buffered, are the frames of the whole stream |
| Framing.ArrivalsComplete | src/p2p.rs:755-768 | without malformed frames exactly the frames of the stream are extracted |
| Framing.ArrivalsReachMalformed | src/p2p.rs:370-399 | with malformed frames the extracted frames are the stream's, in order, at least past the first malformed one |
| Framing.SplittingIrrelevant | src/p2p.rs:755-768 | two ways of splitting a well-formed stream give the same messages |
| Framing.Decode | src/p2p.rs:369-399 | a verdict is committed, an incomplete message is rolled back |
| Framing.Receive | src/p2p.rs:761-768 | the read loop extracts the frames of one read event and terminates |
| Framing.ReceiveAll | src/p2p.rs:755-768 | a sequence of read events on a fresh buffer extracts the frames of the stream |
| WriteLoop.Writer.Offer | src/p2p.rs:693-715 | whatever the socket takes comes from the front of the buffer and is dropped from it; every answer but blocking and one refusal takes a byte |
| WriteLoop.Writer.Refill | src/p2p.rs:717-723 | the next message moves from the channel to the end of the buffer |
| WriteLoop.Writer.Writable | src/p2p.rs:687-732 | at every moment bytes sent, buffered and queued are the same sequence; the event ends only with an empty queue, does end once the socket has given more answers other than 0 than there are bytes and messages, and does not end while it only answers 0 |
| WriteLoop.Live | src/p2p.rs:687-732 | over any life of a peer bytes sent, buffered and queued are the encodings of all messages queued, in order |
| Services.ServesIff | src/p2p.rs:790 | the mask test holds if and only if each of the 64 service bits that is needed is offered |
| Handshake.VersionAcceptedIff | src/p2p.rs:775-819 | a version message is accepted if and only if it is the first, comes from another node, has version 70001 or more, offers every needed service bit, and, on an outgoing connection, is not behind; a refused one changes nothing |
| Handshake.ServiceMissing | src/p2p.rs:790-794 | services 1 do not satisfy a need of 9: the peer is dropped without ban |
| Handshake.TwoReads | src/p2p.rs:735-890 | two clean reads do what one read of all their messages does |
| Handshake.ReadsMerge | src/p2p.rs:735-890 | any sequence of clean reads leaves the peer and log of one read of all messages |
| HandshakeLaws.OneMessage | src/p2p.rs:770-855 | each of the first two messages either continues the handshake, leaving exactly the peer these messages make, or drops the peer with the ban its kind deserves |
| HandshakeLaws.TurnsClosed | src/p2p.rs:764-856 | the read loop in closed form: after a version and a verack exactly the later messages are collected; the first message out of order drops the peer |
| HandshakeLaws.ReadClosed | src/p2p.rs:735-890 | peer and log after a clean, closed or malformed read, from everything heard so far |
| HandshakeLaws.HandshakeLaw | src/p2p.rs:735-890 | over every event sequence: a present peer is the one its messages make, and the log is what they dispatch, then disconnections |
| HandshakeLaws.HandshakeSafe | src/p2p.rs:735-890 | over every event sequence, for a present peer: verack flag if and only if a verack was heard; the version is a heard one, capped, suitable at the height it arrived at; connected if and only if both; incoming messages are exactly those after both that a clean read delivered, in order |
| HandshakeLaws.LogLaw | src/p2p.rs:735-890 | over every event sequence, peer present or gone: the log is the announcement, if due, the delivered messages from the third on, then disconnections; at most one announcement; the peer is gone if and only if there is a disconnection |
| HandshakeLaws.HowPeersGo | src/p2p.rs:657-890 | over every event sequence, for a present peer: a hang-up and a read error drop it without ban, a ban request drops it as banned exactly from a score of 100 on, and whatever drops it adds one disconnection with the ban it deserves |
| HandshakeLaws.AnnouncedFirstIff | src/p2p.rs:863-887 | every incoming message follows the announcement unless, and only unless, the read that completed the handshake ended malformed or closed and a later clean read of the present peer held a message |
| HandshakeLaws.UnannouncedConnection | src/p2p.rs:764-887 | a run in which a message is dispatched and the connection never announced |
| HandshakeLaws.CleanReadClosed | src/p2p.rs:735-890 | one clean read of a whole conversation: announcement and all messages from the third on if the first two are a suitable version and a verack; otherwise no message |
| Session.ConversationIsOneRead | src/p2p.rs:735-890 | from any peer state, well-formed non-empty reads at one height amount to one clean read of all messages of the stream |
| Session.StreamLaw | src/p2p.rs:735-890 | for every stream, split and heights, with malformed frames and the end of the stream anywhere: exact peer, ban score and log of a peer that survives, and for any other the read that loses it, its log and whether it is banned |
| Session.HeardIsStream | src/p2p.rs:755-768 | the messages handled and those still buffered are the messages of the stream, in order |
| Session.Converse | src/p2p.rs:735-890 | a peer object driven by any sequence of reads has the state of the conversation on values |
| Session.DeliveryIndependentOfSplitting | src/p2p.rs:735-890 | peer and dispatched events of a well-formed stream do not depend on how the network split it, nor on the heights, except those at which the first two messages of an outgoing connection arrive |
| Session.DeliveryClosed | src/p2p.rs:735-890 | from raw bytes of a well-formed stream, however split and at any heights: the announcement and every message from the third on, in order, if the first two are a version suitable when it arrives and a verack; otherwise at most a disconnection |
| Session.PeerSession.CheckVersion | src/p2p.rs:775-819 | fields and verdict after a version message |
| Session.PeerSession.BeforeHandshake | src/p2p.rs:770-847 | fields and verdict after any message before the handshake is complete |
| Session.PeerSession.Ban | src/p2p.rs:657-671 | the score rises, and at 100 the peer is dropped as banned |
| Session.PeerSession.ReadLoop | src/p2p.rs:761-856 | the interleaved decode and handle loop is the fold over the frames of the read, and terminates |
| Session.PeerSession.Readable | src/p2p.rs:735-890 | peer, log and read buffer after one readable event |

## Left out

- Sockets, polling and registration, futures, wakers, threads and channels: foreign runtime. Nothing is claimed about when bytes are sent, only that none is lost, duplicated or reordered.
- SHA-256d, `Uint256`, `BlockHeader` and message decoding internals: library code; decoding is a parameter with a stated contract.
- Floating-point logarithms of total work: replaced by the exact sum.
- Hammersbald storage, its failures and its crash behaviour; `batch` does nothing in the model.
- 32-bit wrap of heights, trunk positions and ban scores.
- HeaderDownload.HeaderDownload.Headers: an abort inside `add_header` ends the batch like any other error, where the source stops the thread; all requests of one message read the clock once.
- Handshake.VersionAcceptedIff: sending the replies and reading the peer's address always succeed.
- BufferRuns.Interleave: an advance before anything was written is excluded, because the source indexes a chunk that does not exist and stops.
- MostWork.OrderIndependentRun: which of several tips with equal work is kept depends on the order, and so does the trunk; a header offered before its parent is refused and not kept for later.
- Session.PeerSession.Readable: the content of the read buffer of a dropped peer is not described; it is never read again.
- ReplyAccounting.AccountingHolds: the clock never goes back; a wrong nonce is the only way a pong is ignored.
- Message dispatching, also by whether a peer serves blocks, peer connection set-up, DNS seeding, the command line, the Lightning connector and error texts: wiring with little logic.
- `iter_trunk` and `iter_trunk_rev`: plain iterations over the trunk.
