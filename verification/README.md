# Verified model of the p2poolv2 mining engine

A Dafny model of the job validation engine that sits between Stratum V2 miners, a p2pool share
chain and bitcoind, and of the message plumbing around it. `dafny verify dfyconfig.toml` checks
all of it.

The engine accepts declared jobs, checks each custom job against the job declared for its token,
rebuilds Bitcoin blocks from solutions, drops jobs when the share chain reorganises, and binds
payout scripts to tokens. Four smaller machines feed it: the detector and lossy broadcast that
flush stale jobs, the requests for transaction bodies, the tee and merge that splice it into an
existing channel pair, and the refresh of the tip height. A buffer with expiring entries holds
block-finder credit.

| module | models |
|---|---|
| `Primitives`, `TxCodec`, `WireFormat` | machine integers, little-endian codes, CompactSize and the transaction codec of BIP 144 ("Serialization"), the txid of BIP 141 ("Transaction ID") |
| `Coinbase` | rebuilding a coinbase from prefix, extranonce and suffix |
| `Merkle` | the merkle branch and root loops against one recursive tree |
| `Block` | declared jobs, headers, blocks, and the comparison of bodies with txids |
| `JobCache`, `ShareChain` | the cache of declared jobs; header reads and the bounded ancestor walk |
| `EngineModel`, `Engine` | what each handler does as a state transition; the class whose methods do it |
| `EngineMeaning` | what those transitions mean, case by case and field by field |
| `EngineRuns`, `TokenRaces`, `EndToEnd` | invariants over every run; tokens when map operations interleave; agreement of what is accepted with what is mined |
| `Broadcast`, `ReorgPipeline` | the ring of tip changes; snapshot, detector, broadcast and invalidator interleaved |
| `TdpModel`, `Tdp`, `TdpDemux` | body requests under every interleaving; the handle; tee and merge |
| `HeightRefresh` | the height trigger and fetcher |
| `RecentSolutions` | the credit buffer and its history-based meaning |

The handlers of the engine are methods of a class that change its fields; each is proved equal to
a transition function, and the results about runs are proved about sequences of those
transitions. Hashing is a parameter everywhere, so every result holds for every hash function.

Some claims that look natural are false of the code. For each there is an input or run that shows
it, and the exact condition under which it holds:

| claim | fails in | holds exactly when |
|---|---|---|
| the extranonce touches only the scriptSig | `LegacyLayoutMovesOtherFields` | `ExtranonceTouchesOnlyScriptSigIff` |
| what was accepted of a coinbase, `coinbase_prefix` included, holds of every real one | `PrefixIntoHoleBreaks`, `PrefixIntoHoleExists` | `AcceptedCoinbaseCarriesOverIff` (any layout), `SegwitPrefixCarriesOverIff` (segwit layout) |
| root and branch fix the transaction list, up to collisions | `OddListHasALongerTwin` | `RootsIff`, `PathsIff` |
| the merge delivers everything | `ClosedQueueCanBeLeft` | `MergeCompleteIff` |
| a token consumes its own job | `SharedRequestIdsSwapJobs` | `ConsumedJobIsOwnIff` |
| tokens are one-shot when handlers interleave | `RacingCallsTakeTwice` | `OneShotIffSharesNone` |
| a flush reports what it removed | `RacingInsertIsNotReported` | `FlushIsExactIff` |
| a cleanup removes only its own entry | `CleanUpCanEvictAnother` | `CleanUpEvictsIff` |
| every stored tip is sighted | `TipBetweenPollsIsMissed` | `EveryTipSightedIff` |

## Model

| member | source | states |
|---|---|---|
| `TxCodec.SizeDecodes` | crates/sv2-p2pool-engine/src/coinbase.rs:48-55 | a CompactSize written for `n` reads back as `n`, whatever follows it |
| `TxCodec.SizeEncodes` | crates/sv2-p2pool-engine/src/coinbase.rs:48-55 | only the shortest spelling of a CompactSize parses, so the length the offset arithmetic adds is the length that was read |
| `TxCodec.TxDecodes` | crates/sv2-p2pool-engine/src/coinbase.rs:72-73 | decoding undoes the BIP 144 encoding for every transaction with or without witnesses, whatever bytes follow |
| `TxCodec.TxEncodes` | crates/sv2-p2pool-engine/src/coinbase.rs:72-73 | what decodes as a transaction was spelled exactly as that transaction encodes |
| `TxCodec.ParsesIffSpelled` | crates/sv2-p2pool-engine/src/coinbase.rs:72-73 | the decoder accepts bytes as `tx` then `rest` if and only if they are the encoding of `tx` followed by `rest` |
| `WireFormat.LittleEndianDigit` | crates/sv2-p2pool-engine/src/engine_impl.rs:689-693 | byte `i` of an encoded number is its `i`th base-256 digit, lowest first |
| `WireFormat.SizeSpelled` | crates/sv2-p2pool-engine/src/coinbase.rs:48-55 | the four spellings of a CompactSize, byte by byte |
| `WireFormat.ManyAppend` | crates/sv2-p2pool-engine/src/coinbase.rs:72-73 | encoded items follow one another in order |
| `WireFormat.OneOfEachSpelled` | crates/sv2-p2pool-engine/src/coinbase.rs:72-73 | the bytes of a transaction with one input, output and witness item: every field in its BIP 144 place |
| `WireFormat.TxidIsHashWithoutWitnesses` | crates/sv2-p2pool-engine/src/block.rs:232-232 | a txid is the hash of the transaction as encoded without any witness |
| `WireFormat.TxidHashesTheRest` | crates/sv2-p2pool-engine/src/block.rs:232-232 | in general it is the hash of the encoding less marker, flag and witnesses |
| `WireFormat.TxidIgnoresWitnesses` | crates/sv2-p2pool-engine/src/block.rs:215-215 | transactions that differ only in their witnesses have the same txid |
| `Coinbase.ReconstructCoinbase` | crates/sv2-p2pool-engine/src/coinbase.rs:40-74 | the byte-buffer code returns the declared coinbase with the hole filled by zeros, or the first error it meets, on all inputs |
| `Coinbase.ReconstructCoinbaseWithExtranonce` | crates/sv2-p2pool-engine/src/coinbase.rs:86-127 | the same for a given extranonce, which must fill the hole exactly |
| `Coinbase.OnlyShortPrefixIsTooShort` | crates/sv2-p2pool-engine/src/coinbase.rs:44-60 | `PrefixTooShort` is reported exactly for prefixes under 43 bytes: the second length check can never fire |
| `Coinbase.HoleSizeMeaning` | crates/sv2-p2pool-engine/src/coinbase.rs:44-66 | the prefix promises a scriptSig length after 43 bytes: no length there is one error, more scriptSig bytes than promised the other, and the hole is what is missing |
| `Coinbase.RebuildWithMeaning` | crates/sv2-p2pool-engine/src/coinbase.rs:119-126 | with the hole filled the result is the transaction the whole byte string starts with, and there is one or a decode error |
| `Coinbase.RebuildIsAllZeros` | crates/sv2-p2pool-engine/src/coinbase.rs:40-74 | the zero-filled rebuild is the extranonce rebuild with the all-zeros extranonce |
| `Coinbase.SplitThenRebuild` | crates/sv2-p2pool-engine/src/coinbase.rs:86-127 | for every one-input witness coinbase and every cut of its scriptSig tail: the prefix alone gives the hole size, the cut bytes restore the coinbase, other bytes of that length change only those scriptSig bytes, other lengths are refused |
| `Coinbase.HarmlessHole` | crates/sv2-p2pool-engine/src/coinbase.rs:86-127 | when no hole byte lies outside the scriptSig, any extranonce of the right size gives the same transaction with a scriptSig of the same length |
| `Coinbase.HarmfulHole` | crates/sv2-p2pool-engine/src/coinbase.rs:86-127 | when one does, the all-ones extranonce changes another field |
| `Coinbase.ExtranonceTouchesOnlyScriptSigIff` | crates/sv2-p2pool-engine/src/coinbase.rs:86-127 | for any prefix and suffix that decode with one input: every extranonce touches only the scriptSig if and only if no hole byte belongs to another field |
| `Coinbase.SegwitHoleIsScriptTail` | crates/sv2-p2pool-engine/src/coinbase.rs:20-74 | in segwit layout the hole is always the end of the scriptSig, and the rebuilt scriptSig is the declared start followed by the extranonce |
| `Coinbase.LegacyLayoutMovesOtherFields` | crates/sv2-p2pool-engine/src/coinbase.rs:86-127 | a concrete prefix without the BIP 144 marker for which both rebuilds succeed and the extranonce changes the input sequence |
| `Merkle.ComputeNextLevel` | crates/sv2-p2pool-engine/src/coinbase.rs:166-183 | one pass of the inner loop builds the level above, repeating the last node at an odd end |
| `Merkle.MerklePath` | crates/sv2-p2pool-engine/src/coinbase.rs:154-186 | the level loop returns the branch of leaf 0 in the recursively defined tree over coinbase and txids |
| `Merkle.ComputeMerkleRoot` | crates/sv2-p2pool-engine/src/block.rs:268-299 | the level loop returns the root of that same tree |
| `Merkle.RootOfNextLevel` | crates/sv2-p2pool-engine/src/block.rs:280-296 | replacing the leaves by the next level keeps the root |
| `Merkle.PathOfNextLevel` | crates/sv2-p2pool-engine/src/coinbase.rs:166-183 | ... and removes exactly the first entry of the branch |
| `Merkle.SmallTrees` | crates/sv2-p2pool-engine/src/block.rs:268-299 | roots and branches of one, two and three leaves in full: left before right, a lone node with itself |
| `Merkle.FoldOfPathIsRoot` | crates/sv2-p2pool-engine/src/coinbase.rs:154-186 | folding the branch from its leaf gives the root, for every list of leaves |
| `Merkle.PathIgnoresFirstLeaf` | crates/sv2-p2pool-engine/src/coinbase.rs:154-186 | the branch does not depend on the coinbase txid at all |
| `Merkle.PathServesEveryCoinbase` | crates/sv2-p2pool-engine/src/engine_impl.rs:504-532 | a branch computed with one coinbase txid, folded from any other, gives the root over that other coinbase and the same transactions |
| `Merkle.RootCommits` | crates/sv2-p2pool-engine/src/block.rs:280-296 | equally many leaves with equal roots are equal, or two different hashed strings from the two trees collide |
| `Merkle.PathCommits` | crates/sv2-p2pool-engine/src/coinbase.rs:166-183 | equally many leaves with equal branches agree on every leaf but the first, or collide in the same sense |
| `Merkle.OddListHasALongerTwin` | crates/sv2-p2pool-engine/src/block.rs:280-296 | lists of different lengths can share root and branch, for every hash: repeating the last leaf of an odd list of at least three changes neither |
| `Merkle.PaddedStartsWithList` | crates/sv2-p2pool-engine/src/block.rs:280-296 | padding, which writes out every repetition an odd level makes, only appends to the list |
| `Merkle.PaddedTree` | crates/sv2-p2pool-engine/src/block.rs:280-296 | padding changes neither root nor branch and hashes no new string |
| `Merkle.SameDepthRootsIff` | crates/sv2-p2pool-engine/src/block.rs:280-296 | lists of one depth, whatever their lengths: equal padded forms give equal roots, and equal roots give equal padded forms or a collision inside the two trees |
| `Merkle.RootsIff` | crates/sv2-p2pool-engine/src/block.rs:268-299 | the same for any two lists, with the deeper one lifted to the depth of the other |
| `Merkle.PathsIff` | crates/sv2-p2pool-engine/src/coinbase.rs:154-186 | any two lists: padded forms that agree from the second leaf on give equal branches, and equal branches give such padded forms or a collision inside the two trees |
| `Block.CheckBodies` | crates/sv2-p2pool-engine/src/block.rs:115-131 | the comparison loop reports nothing wrong, a count mismatch, or the first body whose txid differs |
| `Block.NoFaultIffTxidsMatch` | crates/sv2-p2pool-engine/src/block.rs:115-131 | it reports nothing wrong if and only if the bodies hash to exactly the declared txids |
| `Block.ReconstructBlock` | crates/sv2-p2pool-engine/src/block.rs:104-165 | returns a block iff it is the coinbase with the extranonce and the declared transactions under the solution's version, tip, time, bits and nonce with the root of its own txids; otherwise the first of: no txids, the bodies' first fault, the coinbase's error |
| `Block.BlockForIff` | crates/sv2-p2pool-engine/src/block.rs:104-165 | the same for the specification of a rebuilt block |
| `Block.RefusalExplained` | crates/sv2-p2pool-engine/src/block.rs:109-137 | which error a refusal carries, in the order of the checks |
| `Block.HeaderIff` | crates/sv2-p2pool-engine/src/block.rs:47-92 | the header rebuilt from a job and a solution, every field named, or why there is none |
| `Block.BlockHashIsOfHeaderBytes` | crates/sv2-p2pool-engine/src/engine_impl.rs:807-807 | a block hash is the hash of the 80 header bytes, which are fixed field by field |
| `Block.BuildCandidateBlock` | crates/sv2-p2pool-engine/src/block.rs:198-262 | the code returns a block iff it is the candidate in that sense |
| `Block.CandidateForIff` | crates/sv2-p2pool-engine/src/block.rs:198-262 | a block is the candidate iff it is the zero-filled coinbase followed by bodies that hash to the declared txids, under the message's header with the root of its own txids |
| `Block.CandidateRefusalExplained` | crates/sv2-p2pool-engine/src/block.rs:203-231 | which error a refused candidate carries, in the order of the checks |
| `Block.BlockIsHeaderPlusCheckedBodies` | crates/sv2-p2pool-engine/src/block.rs:47-165 | a block is rebuilt if and only if `reconstruct_header` succeeds and the bodies hash to the declared txids, and then it carries that very header, one coinbase and the bodies |
| `EndToEnd.AcceptedPathGivesBlockRoot` | crates/sv2-p2pool-engine/src/engine_impl.rs:432-532 | once a SetCustomMiningJob passes the checks, every block rebuilt from that job has the root obtained by folding the accepted path from that block's own coinbase |
| `EndToEnd.AcceptedIffHonest` | crates/sv2-p2pool-engine/src/engine_impl.rs:365-532 | completeness: a job cut from any one-input witness coinbase passes the checks if and only if the message carries the declared tip and version, the coinbase's own fields, a prefix of the zero-filled scriptSig and the branch computed with any coinbase txid |
| `EndToEnd.AcceptedJobDescribesRealCoinbase` | crates/sv2-p2pool-engine/src/engine_impl.rs:432-502 | in segwit layout, for every extranonce that fills the hole: a block is rebuilt iff the bodies match the declared txids, and its coinbase has the accepted version, sequence, outputs and lock time, and the declared scriptSig start followed by the extranonce |
| `EndToEnd.AcceptedCoinbaseCarriesOverIff` | crates/sv2-p2pool-engine/src/engine_impl.rs:432-502 | for every accepted job, in any layout: every extranonce leaves the accepted coinbase description and prefix in force iff no hole byte lies in another field or in the claimed part of the scriptSig |
| `EndToEnd.AcceptedPrefixCarriesOverIff` | crates/sv2-p2pool-engine/src/engine_impl.rs:457-464 | in any layout, for a hole that avoids the other fields: the accepted `coinbase_prefix`, checked against zeros, holds of every real coinbase iff no hole byte lies under it |
| `EndToEnd.SegwitPrefixCarriesOverIff` | crates/sv2-p2pool-engine/src/engine_impl.rs:457-464 | in segwit layout that means: iff it is no longer than the scriptSig start the job declares |
| `EndToEnd.PrefixIntoHoleBreaks` | crates/sv2-p2pool-engine/src/engine_impl.rs:457-464 | every honest message whose prefix reaches into the hole is accepted, and the all-ones extranonce gives a coinbase that does not start with it |
| `EndToEnd.PrefixIntoHoleExists` | crates/sv2-p2pool-engine/src/engine_impl.rs:457-464 | there is such a message for every job cut from a one-input witness coinbase with a hole |
| `EndToEnd.EveryAcceptedJobIsMineable` | crates/sv2-p2pool-engine/src/engine_impl.rs:314-532 | the same for whole runs: after any sequence of messages, what an accepted custom job consumed is well formed and yields only blocks whose root is the accepted path folded from their coinbase |
| `Engine.P2poolV2Engine.DecodeBodies` | crates/sv2-p2pool-engine/src/engine_impl.rs:201-213 | returns `DecodedOf` of the bodies, which the next two rows fix |
| `EngineMeaning.DecodedOfAppend` | crates/sv2-p2pool-engine/src/engine_impl.rs:201-213 | bodies are decoded one by one, in order |
| `EngineMeaning.DecodedOfOne` | crates/sv2-p2pool-engine/src/engine_impl.rs:201-213 | one that decodes gives its transaction, one that does not gives nothing |
| `EngineMeaning.DecodeTokenIff` | crates/sv2-p2pool-engine/src/engine_impl.rs:1219-1226 | a token is eight bytes, lowest first; any other length is refused |
| `EngineMeaning.DeclareVerdictMeaning` | crates/sv2-p2pool-engine/src/engine_impl.rs:100-199 | exactly when each answer to a declaration is given |
| `EngineMeaning.DeclareStepMeaning` | crates/sv2-p2pool-engine/src/engine_impl.rs:269-291 | a success caches the message's fields, the provided transactions' ids in order and the tips read, points the token there and counts one acceptance; any other answer changes nothing |
| `Engine.P2poolV2Engine.HandleDeclareMiningJob` | crates/sv2-p2pool-engine/src/engine_impl.rs:74-292 | takes the engine from a state to the one `DeclareStep` gives, with its verdict, and keeps every invariant |
| `Engine.P2poolV2Engine.TakeSnapshot` | crates/sv2-p2pool-engine/src/engine_impl.rs:218-284 | after the handler's coinbase checks the cached job is well formed; bodies pass its later comparison iff they hash like the given transactions; a captured tip, template or share tip is exactly the one read |
| `Engine.P2poolV2Engine.CheckCustomMiningJob` | crates/sv2-p2pool-engine/src/engine_impl.rs:365-532 | on a well-formed job the verdict is that of the specified checks in their order, never "not yet validated", never "cannot rebuild", never a panic |
| `EngineMeaning.VerdictNamesFirstDifference` | crates/sv2-p2pool-engine/src/engine_impl.rs:365-532 | exactly when each verdict on a well-formed job is given: it names the first field that differs, in the order of the checks |
| `EngineMeaning.AcceptedOnlyForCapturedTip` | crates/sv2-p2pool-engine/src/engine_impl.rs:380-424 | a job declared with a tip in force is accepted only for that tip hash and bits; without one no tip is refused |
| `Engine.P2poolV2Engine.ValidateProposal` | crates/sv2-p2pool-engine/src/engine_impl.rs:546-651 | with everything wired and the bodies fetched it succeeds iff the zero-filled coinbase and those bodies make a candidate, rooted in its own txids, that bitcoind accepts or already had; otherwise it always succeeds |
| `Engine.P2poolV2Engine.HandleSetCustomMiningJob` | crates/sv2-p2pool-engine/src/engine_impl.rs:314-656 | consumes token and job whatever the verdict, counts an acceptance only on success, keeps every invariant, never panics |
| `EngineMeaning.CustomStepMeaning` | crates/sv2-p2pool-engine/src/engine_impl.rs:333-362 | an unknown token changes nothing; a known one and the job it resolves to are gone afterwards, nothing else is, and only a success is counted |
| `Engine.P2poolV2Engine.HandlePushSolution` | crates/sv2-p2pool-engine/src/engine_impl.rs:677-925 | changes no job, token or binding; each outcome is tied to the cache as searched and as it is when the job is fetched; the credit is the rebuilt block's own hash, or the share's key for itself without bodies to fetch, and nothing otherwise |
| `Engine.P2poolV2Engine.SolveJob` | crates/sv2-p2pool-engine/src/engine_impl.rs:762-850 | no template, no bodies, a refusal with its cause, or the block that job, solution and bodies make |
| `Engine.P2poolV2Engine.SubmitBlock` | crates/sv2-p2pool-engine/src/engine_impl.rs:859-924 | a block counts as taken only if bitcoind answers `null`; submissions and failures are counted |
| `Engine.SubmissionMeaning` | crates/sv2-p2pool-engine/src/engine_impl.rs:880-912 | the same for the outcome reported |
| `Engine.ShareHashIsOfSolutionBytes` | crates/sv2-p2pool-engine/src/engine_impl.rs:682-691 | a share key is the hash of 44 bytes, which are fixed field by field |
| `Engine.UndisturbedJobMatches` | crates/sv2-p2pool-engine/src/engine_impl.rs:725-757 | if nothing changed the cache between search and fetch, the job used is cached and matches the solution |
| `Engine.ReplacedJobIsUsed` | crates/sv2-p2pool-engine/src/engine_impl.rs:725-757 | if another job took the id in between, that job is used, whether or not it matches |
| `Engine.P2poolV2Engine.DropStrandedJobs` | crates/sv2-p2pool-engine/src/engine_impl.rs:1108-1168 | keeps exactly the jobs whose captured tip is on the new tip's ancestry, none if the walk breaks, and counts the rest |
| `Engine.P2poolV2Engine.NotifyShareChainReorg` | crates/sv2-p2pool-engine/src/engine_impl.rs:1068-1176 | the same for the whole handler, every job dropped when no chain is wired |
| `EngineMeaning.ReorgWithoutChainFlushes` | crates/sv2-p2pool-engine/src/engine_impl.rs:1078-1087 | with no chain wired every job is dropped and counted |
| `Engine.P2poolV2Engine.FlushDeclaredJobs` | crates/sv2-p2pool-engine/src/lib.rs:757-768 | what the watcher does to the engine per event |
| `Engine.P2poolV2Engine.HandleAllocateMiningJobToken` | crates/sv2-p2pool-engine/src/engine_impl.rs:957-1051 | binds user and token in both maps, or changes nothing and returns nothing |
| `EngineMeaning.AllocateStepMeaning` | crates/sv2-p2pool-engine/src/engine_impl.rs:957-1051 | exactly when an output is returned, that it is the resolved script with no value, and that both maps are then bound; otherwise nothing changes |
| `Engine.P2poolV2Engine.OnAllocatedEvicted` | crates/sv2-p2pool-engine/src/engine_impl.rs:1194-1197 | removes the token from both binding maps |
| `Engine.P2poolV2Engine.OnActiveEvicted` | crates/sv2-p2pool-engine/src/engine_impl.rs:1199-1206 | removes the originally allocated token, not the active one |
| `JobCache.DeclaredJobCache.Insert` | crates/sv2-p2pool-engine/src/lib.rs:166-168 | inserts, and returns the job it replaced |
| `JobCache.DeclaredJobCache.Remove` | crates/sv2-p2pool-engine/src/lib.rs:171-173 | removes one job and returns it |
| `JobCache.DeclaredJobCache.FindBySolution` | crates/sv2-p2pool-engine/src/lib.rs:194-207 | finds some job with that tip and version, and nothing only if there is none |
| `JobCache.DeclaredJobCache.InvalidateAll` | crates/sv2-p2pool-engine/src/lib.rs:226-230 | empties the cache and reports its former size |
| `JobCache.DeclaredJobCache.Retain` | crates/sv2-p2pool-engine/src/lib.rs:240-253 | keeps exactly the jobs the predicate accepts and counts exactly those dropped |
| `ShareChain.MetMeaning` | crates/sv2-p2pool-engine/src/engine_impl.rs:1108-1128 | the hashes gathered in `n` hops are those at distance 0 to `n`, forks and cycles included |
| `ShareChain.AncestryIsAChain` | crates/sv2-p2pool-engine/src/engine_impl.rs:1108-1128 | a hash is within 100 hops iff an explicit chain of found headers, each naming the next as parent, leads to it from the tip |
| `ShareChain.EndedWalk` | crates/sv2-p2pool-engine/src/engine_impl.rs:1116-1127 | stopping at the chain's end misses no ancestor and no broken read |
| `ShareChain.WalkAncestors` | crates/sv2-p2pool-engine/src/engine_impl.rs:1108-1158 | the walk fails iff some header within 100 hops is missing or unreadable; otherwise it returns exactly the new tip and its ancestors within 100 hops |
| `ShareChain.SentinelIsNoAncestor` | crates/sv2-p2pool-pool/src/share_chain.rs:366-398 | the all-zeros sentinel is never reported as an ancestor share, at any depth |
| `ShareChain.InProcessMeaning` | crates/sv2-p2pool-pool/src/share_chain.rs:366-398 | what each read of the store becomes, sentinels included |
| `ShareChain.InProcessChainIsStored` | crates/sv2-p2pool-pool/src/share_chain.rs:366-398 | an ancestry over that reader is a chain of stored parents without sentinels |
| `EngineRuns.EveryRunKeepsInv` | crates/sv2-p2pool-engine/src/engine_impl.rs:55-1176 | the whole invariant holds after every sequence of messages, reorgs, allocations and evictions |
| `EngineRuns.AcceptedDeclarationsAreConserved` | crates/sv2-p2pool-engine/src/engine_impl.rs:273-362 | accepted declarations = cached jobs + jobs invalidated + jobs consumed + jobs overwritten; so accepted custom jobs never exceed accepted declarations |
| `EngineRuns.TokensAreOneShot` | crates/sv2-p2pool-engine/src/engine_impl.rs:333-362 | per token: accepted custom jobs <= jobs consumed <= accepted declarations, in every run |
| `EngineRuns.WellFormedJobsHaveNoDeadArms` | crates/sv2-p2pool-engine/src/engine_impl.rs:365-515 | on a well-formed job the "not validated" and "cannot rebuild" arms and the out-of-range index cannot be reached |
| `EngineRuns.NoRunPanics` | crates/sv2-p2pool-engine/src/engine_impl.rs:314-515 | no reachable state makes a custom job panic or report a job not yet validated |
| `EngineRuns.ConsumedJobIsLatest` | crates/sv2-p2pool-engine/src/engine_impl.rs:333-362 | in every run a token consumes the latest job declared under the request id of its own latest declaration |
| `EngineRuns.ConsumedJobIsOwnIff` | crates/sv2-p2pool-engine/src/engine_impl.rs:285-362 | in every run the consumed job is the token's own iff the latest declaration under the id the token resolves to was made with that token |
| `EngineRuns.ConsumedJobIsTheTokensOwn` | crates/sv2-p2pool-engine/src/engine_impl.rs:285-362 | in a run that shares no request id between tokens, a token consumes the job of its own latest declaration |
| `EngineRuns.SharedRequestIdsSwapJobs` | crates/sv2-p2pool-engine/src/engine_impl.rs:285-288 | for any two acceptable declarations with one request id and different tokens, the first token then consumes the second token's job |
| `TokenRaces.EveryInterleavingKeepsInv` | crates/sv2-p2pool-engine/src/engine_impl.rs:285-351 | with every map operation a step of its own: a cached declaration has been taken by nobody, and tokens resolve only to ids they were declared with |
| `TokenRaces.NoDeclarationTakenTwice` | crates/sv2-p2pool-engine/src/engine_impl.rs:351-362 | no accepted declaration is taken by two custom jobs, however the operations interleave |
| `TokenRaces.TakesItsOwn` | crates/sv2-p2pool-engine/src/engine_impl.rs:333-362 | a token whose ids were declared with no other token takes only its own declarations, under every interleaving |
| `TokenRaces.TokensAreOneShotUnderRaces` | crates/sv2-p2pool-engine/src/engine_impl.rs:333-362 | and takes at most as many jobs as were declared with it |
| `TokenRaces.RacingCallsTakeTwice` | crates/sv2-p2pool-engine/src/engine_impl.rs:333-351 | with a shared id two calls that both look a token up first can take two jobs for its one declaration |
| `TokenRaces.OneShotIffSharesNone` | crates/sv2-p2pool-engine/src/engine_impl.rs:285-362 | for any set of declarations and any token: it is one-shot in every interleaving iff no request id it is declared with is declared with another token |
| `TokenRaces.OneShotIffNoneShared` | crates/sv2-p2pool-engine/src/engine_impl.rs:285-362 | all tokens are one-shot in every interleaving iff no request id is declared with two tokens |
| `TokenRaces.ConservedUnderRaces` | crates/sv2-p2pool-engine/src/engine_impl.rs:273-362 | under every interleaving: accepted declarations = cached + taken + removed by invalidation + overwritten |
| `TokenRaces.FlushIsExactIff` | crates/sv2-p2pool-engine/src/lib.rs:226-230 | with reading the size and clearing as two steps, a flush reports what it removed iff as many jobs were declared in between as were taken, dropped or overwritten |
| `TokenRaces.RacingInsertIsNotReported` | crates/sv2-p2pool-engine/src/lib.rs:226-230 | a run in which a job declared between the two is removed and not reported |
| `EngineRuns.ReorgKeepsExactlyDescendants` | crates/sv2-p2pool-engine/src/engine_impl.rs:1068-1176 | for any header map: a job survives iff no read breaks and an explicit chain of parents leads from the new tip to its captured tip in at most 100 hops; survivors are unchanged and the drop count is exact |
| `EngineRuns.BindingMapsAgree` | crates/sv2-p2pool-engine/src/engine_impl.rs:987-1051 | after every run the tokens with a payout script are exactly the tokens some user is bound to |
| `EngineRuns.BindingStaysUntilEvicted` | crates/sv2-p2pool-engine/src/engine_impl.rs:1001-1012 | a user's binding keeps its token through any events that do not evict that token |
| `EngineRuns.EvictionRemovesExactlyItsToken` | crates/sv2-p2pool-engine/src/lib.rs:587-599 | in every reachable state eviction removes exactly that token from both maps |
| `Broadcast.TipBroadcast.Send` | crates/sv2-p2pool-engine/src/reorg_detector.rs:166-167 | a send appends to the tips sent, overwriting the oldest slot |
| `Broadcast.TipBroadcast.Recv` | crates/sv2-p2pool-engine/src/lib.rs:756-770 | from slot stamps alone: the next tip, nothing new, or a lag that skips to the oldest tip still held with the exact number missed |
| `ReorgPipeline.ReorgDetector.PollOnce` | crates/sv2-p2pool-engine/src/reorg_detector.rs:146-170 | remembers the tip it should and sends exactly on a change from one tip to another |
| `ReorgPipeline.ReorgDetector.Run` | crates/sv2-p2pool-engine/src/reorg_detector.rs:124-136 | over any polls: first sighting followed by the broadcasts is the list of polled tips without consecutive repeats |
| `ReorgPipeline.FirstSightingThenEvents` | crates/sv2-p2pool-engine/src/reorg_detector.rs:146-170 | the same for the specification of a run of polls |
| `ReorgPipeline.DedupHasNoRepeats` | crates/sv2-p2pool-engine/src/reorg_detector.rs:160-168 | that list never repeats a tip twice in a row, and is the list itself iff it had no repeats |
| `ReorgPipeline.ReorgInvalidator.DrainPending` | crates/sv2-p2pool-engine/src/lib.rs:751-790 | the loop catches up in as many flushes as `Rounds` of its backlog, never more than 257; nothing stays cached if it was behind; drops are counted exactly |
| `ReorgPipeline.NoStaleJobOnceCaughtUp` | crates/sv2-p2pool-engine/src/lib.rs:751-790 | under any interleaving of stores, polls, inserts, removals, receives and flushes, lag included: caught up means no job inserted before the latest broadcast is cached, and flushes never exceed broadcasts |
| `ReorgPipeline.BroadcastsAreSightings` | crates/sv2-p2pool-engine/src/reorg_detector.rs:146-170 | in every such run the broadcasts are the polled tips without repeats, minus the first |
| `ReorgPipeline.SightingsAreStoredTips` | crates/sv2-p2pool-pool/src/share_chain.rs:688-710 | the polled tips without repeats are a subsequence of the stored tips without repeats |
| `ReorgPipeline.SubsequencePicks` | crates/sv2-p2pool-pool/src/share_chain.rs:688-710 | subsequence means: the same hashes at strictly increasing positions |
| `ReorgPipeline.CatchesUpWithinOneLap` | crates/sv2-p2pool-engine/src/lib.rs:751-790 | with no new broadcast the invalidator catches up within 257 turns from any lag |
| `ReorgPipeline.TipBetweenPollsIsMissed` | crates/sv2-p2pool-engine/src/reorg_detector.rs:146-170 | a tip that comes and goes between two polls is never broadcast: a job declared under it stays cached with everything caught up |
| `ReorgPipeline.EveryTipSightedIff` | crates/sv2-p2pool-engine/src/reorg_detector.rs:146-170 | in every run the sightings are all the stored tips, repeats removed, iff no store ever overwrote a tip that no poll had seen and the latest tip has been seen |
| `ReorgPipeline.SubsequenceIsShorter` | crates/sv2-p2pool-pool/src/share_chain.rs:688-710 | a subsequence as long as the whole is the whole |
| `RecentSolutions.SolutionBuffer.Record` | crates/sv2-p2pool-engine/src/recent_solutions.rs:88-90 | the record becomes the share's entry, refreshed |
| `RecentSolutions.SolutionBuffer.Take` | crates/sv2-p2pool-engine/src/recent_solutions.rs:98-106 | removes the entry, and returns it unless expired |
| `RecentSolutions.SolutionBuffer.Sweep` | crates/sv2-p2pool-engine/src/recent_solutions.rs:114-118 | removes exactly the expired entries |
| `RecentSolutions.BufferHoldsLatestRecords` | crates/sv2-p2pool-engine/src/recent_solutions.rs:88-118 | after any trace an entry is the latest record-or-take of its share, and a record missing from the buffer has expired |
| `RecentSolutions.TakePaysWhatIsOwed` | crates/sv2-p2pool-engine/src/recent_solutions.rs:92-106 | a take returns `b` iff the latest record-or-take of the share was a record of `b` no older than the time to live |
| `RecentSolutions.SweepsAreInvisible` | crates/sv2-p2pool-engine/src/recent_solutions.rs:108-118 | removing all sweeps from a trace with a non-decreasing clock changes no take's result |
| `RecentSolutions.PaidFromARecord` | crates/sv2-p2pool-engine/src/recent_solutions.rs:92-106 | every successful take is paid from an earlier record of its share and block |
| `RecentSolutions.EachRecordPaysOnce` | crates/sv2-p2pool-engine/src/recent_solutions.rs:92-106 | no record pays two takes |
| `TdpModel.EveryRunKeepsTdpInv` | crates/sv2-p2pool-engine/src/tdp.rs:152-275 | the invariant on calls, map entries, deliveries and evictions holds under every interleaving |
| `TdpModel.SuccessIsOwnReply` | crates/sv2-p2pool-engine/src/tdp.rs:186-202 | a request that resolves got a reply with its own template id, delivered after it registered |
| `TdpModel.ReplyResolvesOneCall` | crates/sv2-p2pool-engine/src/tdp.rs:249-275 | no delivered reply reaches two requests |
| `TdpModel.EntriesBelongToCallsInFlight` | crates/sv2-p2pool-engine/src/tdp.rs:156-164 | every map entry belongs to a request with that id still in flight and without a value; none are left once all requests returned |
| `TdpModel.DemuxClosedMeansEvicted` | crates/sv2-p2pool-engine/src/tdp.rs:188-197 | "demux closed" is reported only after the cleanup of another failed request with the same id removed this one's entry |
| `TdpModel.EvictedNeverSucceeds` | crates/sv2-p2pool-engine/src/tdp.rs:186-206 | an evicted request never receives a value, and if it returns it returns a failure |
| `TdpModel.EvictedWhileWaitingFails` | crates/sv2-p2pool-engine/src/tdp.rs:166-206 | evicted while sending or waiting, it can only end as "send failed" or "demux closed", whatever follows |
| `TdpModel.EvictedAfterTimerTimesOut` | crates/sv2-p2pool-engine/src/tdp.rs:198-206 | a concrete interleaving in which a request evicted after its timer fired reports the timeout instead |
| `TdpModel.CleanUpEvictsIff` | crates/sv2-p2pool-engine/src/tdp.rs:176-206 | in every reachable state a cleanup removes another request's entry iff its id is then registered to another request, and exactly that one is evicted |
| `TdpModel.DuplicateMeansEarlierCall` | crates/sv2-p2pool-engine/src/tdp.rs:159-161 | a request refused as duplicate came after another with its id |
| `TdpModel.UnsharedIdsAreSafe` | crates/sv2-p2pool-engine/src/tdp.rs:152-206 | a request whose id no other request uses is never refused as duplicate and never reports "demux closed" |
| `TdpModel.CleanUpCanEvictAnother` | crates/sv2-p2pool-engine/src/tdp.rs:198-206 | a concrete interleaving in which a timed-out request's cleanup removes a newer request's entry |
| `Tdp.DecodeAllMeaning` | crates/sv2-p2pool-engine/src/tdp.rs:220-226 | decoding a reply is all or nothing, in order |
| `Tdp.DecodeAllOfEncoded` | crates/sv2-p2pool-engine/src/tdp.rs:220-226 | transactions sent serialised come back unchanged |
| `Tdp.ConcludeMeaning` | crates/sv2-p2pool-engine/src/tdp.rs:159-227 | which ending gives which result, and that a reply with one undecodable body is refused |
| `Tdp.ReturnedBodiesAreTheTemplates` | crates/sv2-p2pool-engine/src/tdp.rs:152-227 | under every interleaving, the transactions a request returns are the decoded bodies of one reply that carries its template id and arrived after it registered |
| `Tdp.TdpHandle.Register` | crates/sv2-p2pool-engine/src/tdp.rs:153-164 | claims the id, or refuses exactly when it is already waited for |
| `Tdp.TdpHandle.SendRequest` | crates/sv2-p2pool-engine/src/tdp.rs:166-183 | the request goes out or the call starts failing |
| `Tdp.TdpHandle.PollOneShot` | crates/sv2-p2pool-engine/src/tdp.rs:186-190 | the first half of a poll: a value that has arrived is returned, a dropped sender ends the wait |
| `Tdp.TdpHandle.PollDeadline` | crates/sv2-p2pool-engine/src/tdp.rs:198-206 | the second half looks at the timer only, so a value that arrived in between is lost when it has expired |
| `Tdp.TdpHandle.RemovePending` | crates/sv2-p2pool-engine/src/tdp.rs:176-205 | removes the entry by id, whoever owns it, and keeps the invariant |
| `Tdp.TdpHandle.DeliverResponse` | crates/sv2-p2pool-engine/src/tdp.rs:249-275 | returns true only if a waiter was registered and now holds this reply; otherwise no request received anything |
| `Tdp.TdpHandle.CurrentTip` | crates/sv2-p2pool-engine/src/tdp.rs:123-134 | there is a tip iff a SetNewPrevHash was recorded, and it is that one's |
| `Tdp.TdpHandle.Finish` | crates/sv2-p2pool-engine/src/tdp.rs:208-227 | the decode loop returns every body or refuses the reply, and maps each failed ending to its error |
| `TdpDemux.TpToCmTee` | crates/sv2-p2pool-pool/src/tdp_demux.rs:63-107 | forwards an in-order prefix, complete unless the output closes; when a message is handed over the snapshots already reflect it and all before it; at most one observed message is not forwarded |
| `TdpDemux.SnapshotsAreLatest` | crates/sv2-p2pool-pool/src/tdp_demux.rs:70-79 | the snapshots hold the latest message of each kind observed, or what they held before |
| `TdpDemux.RepliesInAppend` | crates/sv2-p2pool-pool/src/tdp_demux.rs:80-97 | replies are delivered in order, none left out |
| `TdpDemux.RepliesInOne` | crates/sv2-p2pool-pool/src/tdp_demux.rs:80-97 | a message is delivered iff it is a transaction-data reply |
| `TdpDemux.EveryMergeKeepsInv` | crates/sv2-p2pool-pool/src/tdp_demux.rs:119-173 | in every run of the merge each side's forwarded messages are all it received, in order, save one lost to a closed output |
| `TdpDemux.OutputInterleavesParts` | crates/sv2-p2pool-pool/src/tdp_demux.rs:119-173 | an output is a shuffle of its two parts, each in its own order |
| `TdpDemux.MergeForwardsPrefixes` | crates/sv2-p2pool-pool/src/tdp_demux.rs:119-173 | at every moment the output interleaves a prefix of each input |
| `TdpDemux.LeftIff` | crates/sv2-p2pool-pool/src/tdp_demux.rs:130-165 | messages are left in a closed input exactly when, at some event, the merge still selecting met the end of one input while the other was closed and not empty |
| `TdpDemux.MergeCompleteIff` | crates/sv2-p2pool-pool/src/tdp_demux.rs:130-165 | for every run that ends with the output open: everything sent is delivered iff no event met the end of one input while the other was already closed and still held messages |
| `TdpDemux.SeesOneEnd` | crates/sv2-p2pool-pool/src/tdp_demux.rs:125-168 | at most one event of a run meets an end while selecting, on one side |
| `TdpDemux.CompleteIfOtherWasOpen` | crates/sv2-p2pool-pool/src/tdp_demux.rs:135-145 | everything is delivered if the other input was not closed at the event that met the first end |
| `TdpDemux.ClosedQueueCanBeLeft` | crates/sv2-p2pool-pool/src/tdp_demux.rs:130-137 | a concrete run in which a queued message of a closed input is never forwarded |
| `HeightRefresh.EveryRunKeepsRefreshInv` | crates/sv2-p2pool-pool/src/share_chain.rs:842-882 | the trigger, fetcher and height invariant holds under any interleaving of pushes and fetcher steps |
| `HeightRefresh.NoRefreshIsLost` | crates/sv2-p2pool-pool/src/share_chain.rs:842-882 | after any burst, dropped triggers included: a trigger is pending, or the fetcher took one and has not fetched, or a fetch started after the last push; and fetches never exceed pushes |
| `HeightRefresh.QuietMeansFresh` | crates/sv2-p2pool-pool/src/share_chain.rs:842-862 | with the fetcher idle and its last fetch successful, the stored height was asked for after the last push |
| `HeightRefresh.FetchRound` | crates/sv2-p2pool-pool/src/share_chain.rs:849-862 | a round drains every waiting trigger and fetches once; pushes during the fetch leave triggers, and the stored height is marked with the pushes before it |

## Left out

- Engine.P2poolV2Engine.HandlePushSolution: the submission and its counters happen within the call; in the source they happen in the background after it. The lookup of the payout script only feeds a log line and is not modelled.
- Engine.P2poolV2Engine.FlushDeclaredJobs: the engine's flush and the watcher's loop (`ReorgPipeline.ReorgInvalidator`) are proved separately; the code that spawns the loop is not modelled.
- Tdp.TdpHandle.DeliverResponse: shown as two atomic sections run back to back; `TdpModel` proves the results with anything happening between them.
- TdpDemux.MergeForwardsPrefixes: the merge is a step machine over its `select!`, not a loop, because its two channels are filled and closed while it runs.
- Interleavings inside one engine handler: `EngineRuns` takes each handler as one step. `TokenRaces` interleaves the operations on the job and token maps; the two writes of a payout binding and the other counters are not interleaved.
- A reorg walk reads one fixed header map; headers arriving between two reads of one walk are not modelled.
- Deciding the order in which DashMap iterates: `FindBySolution` may return any matching job.
- The memory limits of the Bitcoin library (its cap on decoded vectors) and running out of memory for a huge declared scriptSig length; `usize` is taken to be 64 bits wide.
- SHA-256 itself: any function from byte strings to 32 bytes. Results that need collision resistance name the colliding strings instead.
- Unicode NFKC and trimming, the accounting selector, and the resolver: arbitrary functions in `Config`.
- The JDS token manager: which tokens it hands out and when it evicts them is arbitrary.
- Length checks on 32-byte message fields that cannot fail (`U256`): the types carry the length.
- Dropping a body request before it returns: requests are assumed to run to one of their ends.
- `with_timeout`, real durations and the runtime's scheduler: a timer may fire at any moment.
- Late subscription, `start_reorg_watcher` called twice, and teardown.
- The tip snapshot's flag and mutex as separate operations, and lock poisoning.
- Cap'n Proto, sockets, threads, process start-up, configuration, logging, Prometheus and the HTTP endpoint, and the test environment crate: no logic beyond foreign calls and plumbing.
- Counters that take part in no conservation law (rejections, missing-transaction answers, gauges).

Where code and comments disagree, the model follows the code:

- crates/sv2-p2pool-engine/src/lib.rs:66-67 says a job is also cached, not yet validated, on `MissingTransactions`; the handler caches only on success.
- crates/sv2-p2pool-engine/src/lib.rs:101-104 says a reorg notification still flushes the whole cache; the handler keeps the descendants' jobs.
- crates/sv2-p2pool-engine/src/tdp.rs:120-122 says there is no current tip if either snapshot is missing; only the SetNewPrevHash snapshot is looked at.
- crates/sv2-p2pool-pool/src/tdp_demux.rs:118 and :131 say the merge exits when both inputs are closed and drains the other; a closed input that still holds messages is not drained.
- crates/sv2-p2pool-engine/src/coinbase.rs:58-60 checks a length that the shortest-form rule already guarantees.
