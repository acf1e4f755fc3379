# Keryx miner: a verified model

The Keryx miner holds an AI model on its GPU and proves, for every block it finds, that it
does: a nonce seeds a data-dependent walk over the model's weight chunks, and the block
carries Merkle openings of that walk. Around this core stand an escrow watcher that collects
matured rewards, a small watch channel between threads, a RandomX side miner, and the
encodings that blocks, addresses and content identifiers need. This project models that logic
and proves what it is for. `dafny verify dfyconfig.toml` checks everything.

| file | what it models |
|---|---|
| `Wrappers.dfy` | optional values and results |
| `Digits.dfy`, `Words.dfy` | positional numbers, exclusive or, shifts and products on 64-bit words |
| `Merkle.dfy`, `MerkleShape.dfy` | the duplicate-last Merkle tree: root, path, path check, binding; the same tree by halves |
| `Pom.dfy`, `Folds.dfy`, `Order.dfy` | the word mixer, seed and proof-of-work folds; what each of them absorbs; the comparison routines |
| `Possession.dfy`, `Challenges.dfy`, `UncheckedStep.dfy` | prover and verifier of possession proofs; what the challenges commit to; what unchallenged steps leave open |
| `DiskTree.dfy`, `Weights.dfy`, `WalkReads.dfy` | the disk-backed tree and the host index over a model file; what a walk reads of it |
| `Gpu.dfy`, `Miner.dfy` | the CUDA search and the host miner |
| `Registry.dfy`, `RegistryEffects.dfy`, `Interleaving.dfy`, `InterleavedOom.dfy`, `Installation.dfy`, `Labelling.dfy` | assigned tiers, indices, installed miners, the out-of-memory downgrade, one call at a time; what a call changes; then installations that other threads interrupt |
| `Escrow.dfy`, `EscrowSafety.dfy`, `EscrowEffects.dfy`, `EscrowStarvation.dfy`, `EscrowIndexed.dfy` | the escrow watcher: its steps, what its runs keep, what each event does to an entry, when claims are issued, its indexed implementation |
| `Watch.dfy`, `WatchDelivery.dfy`, `WatchEnds.dfy` | the watch channel as an interleaving of atomic actions; when a value is delivered twice; closed channels, sends and clones |
| `Base58.dfy` | the base-58 encoder and decoder |
| `Target.dfy` | 256-bit shifts, compact targets, division, share targets |
| `Header.dfy`, `HeaderLayout.dfy` | the header serialiser, and solved blocks and pool shares; where every field lies in the bytes |
| `Address.dfy` | the address decoder, its bit regrouper and the round trip |
| `Mlp.dfy`, `MlpLayers.dfy` | the fixed-point network: weights and ranges; what its neurons and outputs are |

How to read it:

- Hash functions are parameters (`Blake`, `HeaderHash`). Completeness assumes nothing about
  them. Soundness assumes only that no two of the byte strings actually hashed by the tree
  builder, the committing prover and the verifier collide (`CollisionFree` over a set `s`).
- Machine integers are mathematical integers with explicit bounds (`u8` to `u64`) and explicit
  `% WORD` where the source wraps. Exclusive or is defined bit by bit.
- Code that loops over mutable state is a method, proved equal to a function; the theorems are
  about the functions. The functions that the main operations rest on are also described
  independently of how they are written: by positions in bytes, by sums, field by field, or by
  what they absorb. The escrow watcher, the record file and the registry are classes whose
  methods state their whole new state.
- `Watch`, `Escrow` and `Registry` have runs: lists of steps in any order. "Every run" means
  every such list.

## Properties that turned out to have an exact condition

- Base 58: each direction undoes the other exactly when the input has a non-zero byte
  (a character other than `1`). All-zero and empty inputs come back longer
  (`Base58.ConvertBackExactly`).
- The verifier accepts the proof over any committed states exactly when they start at the seed,
  the value wins, and the challenged steps follow the weights
  (`Possession.CommittedProofExactly`). A false final state therefore passes exactly when no
  false step is challenged, and `UncheckedStep.AnyFinalStateIsAccepted` exhibits one under a
  hash that does not collide.
- A GPU launch searches its whole batch exactly when the grid size neither wraps nor is cut to
  32 bits (`Gpu.LaunchCovers`), and the kernel's bisection finds every chunk exactly up to 2^31
  tensors (`Gpu.BisectionExactly`). A sole winner equal to the sentinel reads as none.
- The fallback tier of a device without its own assignment follows the first assigned device.
  With uninterrupted installations, running miners stay labelled with the model they run exactly
  when a step does not downgrade that first device under a miner that relies on it
  (`Registry.AssignmentKeptExactly`). In general a move mislabels a miner exactly when it is such
  a downgrade, by an interruption or by a late failure, or when a load succeeds whose device is
  no longer assigned the model, own or fallback (`Labelling.MoveKeepsLabelsExactly`).
- For a device with its own assignment, an installation that other threads interrupt leaves a
  miner of the wrong model exactly when the load succeeds after the device was reassigned
  (`Installation.InterruptedInstallExactly`); a device that falls back can be mislabelled without
  that (`Labelling.FallbackIsMislabelled`).
  Interruptions also double the bound on out-of-memory failures, which is then attained
  (`InterleavedOom.FailuresAreBounded`, `BoundIsAttained`), let a load end on a model banlisted
  meanwhile (`InterleavedOom.LoadsBanlistedExactly`), and let a late failure raise the tier
  (`InterleavedOom.FailureLowersExactly`, `LateFailureRaisesTier`).
- A block that pays a finished outpoint tracks it again exactly when its entry has been
  forgotten or is compacted away in that step (`EscrowSafety.RedeliveryRetracksExactly`); over
  runs, exactly when the scored blocks since the last compaction, that one included, reach
  2 000 (`EscrowSafety.RetrackedExactly`).
- An entry that cannot be built into a claim is not passed over: at the head of the line it
  stops all claims (`EscrowStarvation.ClaimIssuedExactly`,
  `EscrowStarvation.UnbuildableHeadStarves`).
- A watch receiver is handed a value again exactly when nothing was stored in between; outside
  a wake-up that takes a torn read, one that returned more than the id it had recorded
  (`WatchDelivery.RedeliveryExactly`, `WatchDelivery.TornExactly`,
  `WatchDelivery.CheckExactly`). Both kinds occur (`WatchDelivery.PollRedelivers`,
  `WatchDelivery.WaitRedelivers`).
- The comment on the weight generator promises a range open at both ends; every layer has a
  weight at the lower end (`Mlp.LowestWeightOccurs`, `Mlp.LowestWeightExactly`).

## Model

| member | source | states |
|---|---|---|
| Merkle.MerkleRoot | keryx-miner/src/pom.rs:208-222 | the level loop computes the recursive root for every leaf count, odd levels pairing their last node with itself |
| MerkleShape.RootByHalves | keryx-miner/src/pom.rs:208-222 | for every leaf count the root is that of the tree by halves, left digest first, an empty right half repeating the left one |
| MerkleShape.DepthExactly | keryx-miner/src/pom.rs:224-243 | the number of levels, and so the path length, is the least d for which the leaves fit into 2^d |
| Merkle.MerkleProof | keryx-miner/src/pom.rs:224-243 | the path loop collects the sibling on every level, the node itself at an odd end |
| Merkle.VerifyMerkle | keryx-miner/src/pom.rs:245-253 | accepts exactly when folding the path from the leaf gives the root; neither path length nor node kind is looked at |
| Merkle.PathVerifies | keryx-miner/src/pom.rs:208-253 | for every hash, tree size and position, the leaf with its own path is accepted against the root |
| Merkle.OpeningBinds | keryx-miner/src/pom.rs:245-253 | without a collision among the inputs hashed, an accepted opening at a position shows the committed content and its path has the tree's depth, although the check tests no length |
| Pom.Mix64IsPermutation | keryx-miner/src/pom.rs:81-88 | the mixer has a two-sided inverse on 64-bit words |
| Folds.MixOfOne | keryx-miner/src/pom.rs:81-88 | the mixer maps 1 to 0x5692161D100B05E5 |
| Pom.BlockSeedInjective | keryx-miner/src/pom.rs:165-190 | in either era distinct nonces of a block give distinct seeds |
| Folds.BlockSeedAbsorbs | keryx-miner/src/pom.rs:165-190 | the seed absorbs, from the nonce on, the constant, the timestamp and the four words of the era's hash, in this order |
| Folds.SeedDeterminesTime | keryx-miner/src/pom.rs:175-190 | in either era distinct timestamps give distinct seeds, hash and nonce fixed |
| Folds.SeedDeterminesHashWord | keryx-miner/src/pom.rs:165-190 | in either era hashes that differ in one word, whichever it is, give distinct seeds |
| Pom.TransitionInjective | keryx-miner/src/pom.rs:95-102 | on a fixed chunk distinct states have distinct successors |
| Folds.TransitionAbsorbs | keryx-miner/src/pom.rs:95-102 | a step mixes in the exclusive or of all four words of its chunk |
| Folds.TransitionDeterminesWord | keryx-miner/src/pom.rs:95-102 | chunks that differ in one word, whichever it is, have distinct successors of a state |
| Pom.PowValueInjective | keryx-miner/src/pom.rs:192-206 | in either era the proof-of-work value determines the final state |
| Folds.PowValueAbsorbs | keryx-miner/src/pom.rs:192-206 | each output word of the value absorbs, from the final state on, the hash words up to its own, each with its constant |
| Pom.EraPowValuesDiffer | keryx-miner/src/pom.rs:161-206 | the salted and unsalted eras give every final state different values |
| Pom.WordsOfBytes | keryx-miner/src/pom.rs:104-120 | words survive the trip through their 32 bytes |
| Pom.BytesOfWords | keryx-miner/src/pom.rs:104-120 | 32 bytes survive the trip through their words |
| Order.LeLeqLoop | keryx-miner/src/pom.rs:134-144 | the byte loop decides at-most on the 256-bit numbers |
| Order.MeetsTarget | keryx-miner/rxengine/src/job.rs:28-43 | the byte loop decides strictly-below on the 256-bit numbers |
| Order.CmpIsNumeric | keryx-miner/src/target.rs:87-95 | comparing the reversed words is comparing the numbers |
| Order.PomLeLeqIsNumeric | keryx-miner/cuda/pom_mine.cu:33-40 | the kernel's word-wise test decides at-most on the numbers |
| Order.NumOfWords | keryx-miner/src/target.rs:46-61 | the number of the 32 little-endian bytes of four words is the number of the words |
| Order.ComparisonsAgree | keryx-miner/src/pom.rs:132-144 | host, kernel and target type accept the same pairs of 32-byte strings |
| Possession.VerifyProof | keryx-miner/src/pom.rs:381-413 | the verifier's checks, in the source's order, accept exactly the proofs that satisfy every one of them |
| Challenges.ChallengesReadTranscript | keryx-miner/src/pom.rs:256-271 | a challenge reads hash, nonce, trace root and value at bytes 0, 32, 40 and 72: under a hash that shows its input there, it is that field's number modulo the walk length |
| Challenges.ChallengesReadIndex | keryx-miner/src/pom.rs:264-271 | the j-th challenge hashes the seed with j: under a hash that shows its last eight bytes it is j modulo the walk length |
| Challenges.TranscriptBinds | keryx-miner/src/pom.rs:256-262 | without a collision among the transcripts, proofs that differ in hash, nonce, trace root or value draw their challenges from different seeds |
| Possession.Completeness | keryx-miner/src/pom.rs:320-413 | for every hash, chunk list, walk length and opening count, the built proof is accepted exactly when the walk's value is at most the target |
| Possession.AnsweredProofIsAccepted | keryx-miner/src/pom.rs:381-413 | for every hash, the proof over any committed states is accepted for their first state once the value wins and the challenged steps follow the weights |
| Possession.CommittedProofExactly | keryx-miner/src/pom.rs:381-413 | the proof over committed states is accepted exactly when they start at the seed, the value wins and every challenged step follows the weights |
| UncheckedStep.AnyFinalStateIsAccepted | keryx-miner/src/pom.rs:381-413 | for every one-chunk model, block at the easiest target, seed, opening count and final state there is an accepted proof of a two-step walk with that final state whose false step is not challenged, with no collision among the inputs hashed |
| Possession.Soundness | keryx-miner/src/pom.rs:381-413 | an accepted proof whose trace root commits to some states shows the right first and last state, a winning value, and every challenged step done on the true chunk; all path lengths are forced |
| Possession.HonestProofMeetsSoundness | keryx-miner/src/pom.rs:320-413 | every winning built proof meets all premises of soundness, with nothing hashed but what the two trees hash |
| Possession.HonestPrefix | keryx-miner/src/pom.rs:277-285 | committed states whose steps all follow the weights are the states of the walk |
| Possession.FalseFinalStateEscapes | keryx-miner/src/pom.rs:381-413 | an accepted proof with another final state than the walk's has a false step that no challenge selected |
| Possession.ErasNeverMix | keryx-miner/src/pom.rs:158-206 | a proof accepted in one era is rejected in the other, whatever the seed |
| DiskTree.RecordFile.Write | keryx-miner/src/pom.rs:565-584 | a record is appended behind the buffer; what is on disk stays there |
| DiskTree.RecordFile.Flush | keryx-miner/src/pom.rs:564-568 | afterwards everything written is on disk |
| DiskTree.AppendLevel | keryx-miner/src/pom.rs:567-584 | reading a level from the file it appends to, one turn appends exactly the level above |
| DiskTree.Finalize | keryx-miner/src/pom.rs:555-595 | the loop ends with all levels stored back to back and the root of the in-memory tree |
| DiskTree.PathFromDisk | keryx-miner/src/pom.rs:536-549 | for every leaf the path read from the stored levels is the in-memory path |
| Weights.BuildIndex | keryx-miner/src/pom.rs:460-513 | succeeds exactly when every tensor lies in the file and some chunk exists, and then is the index of the model |
| Weights.PartitionPoint | keryx-miner/src/pom.rs:516-532 | the bisection splits the segments into those that start at or before the chunk and the rest |
| Weights.TableAscends | keryx-miner/src/pom.rs:486-504 | segment starts strictly ascend from zero and stay below the chunk count |
| Weights.CoveringSegmentLocates | keryx-miner/src/pom.rs:516-532 | the segment that covers a chunk locates it both in the file and in the GPU's word arrays |
| Weights.ReadChunk | keryx-miner/src/pom.rs:516-532 | returns the words of the chunk at that place of the canonical list |
| WalkReads.ChunkPlace | keryx-miner/src/pom.rs:486-504 | chunk c of a tensor comes after all full chunks of the tensors before it and is its 32 bytes from 32c on; a remainder is in no chunk |
| WalkReads.WalkIsTheSequence | keryx-miner/src/pom.rs:277-285 | the walk is the only sequence of states from the seed in which every state mixes in the words of the chunk at the state before, modulo the chunk count |
| WalkReads.StepReadsExactly | keryx-miner/src/pom.rs:277-285 | replacing a chunk changes a step exactly when the step reads that chunk and the two have different exclusive ors of words |
| Weights.MerklePath | keryx-miner/src/pom.rs:536-549 | returns the in-memory path of the chunk |
| Gpu.LoadGather | keryx-miner/src/pom_gpu.rs:109-136 | succeeds exactly when the host index would, with prefixes that are the host's segment starts |
| Gpu.BisectionExactly | keryx-miner/cuda/pom_mine.cu:56-60 | the 32-bit bisection finds every chunk exactly when at most 2^31 tensors are gathered |
| Gpu.Locate | keryx-miner/cuda/pom_mine.cu:56-60 | up to 2^31 tensors the loop ends at the segment that covers the chunk |
| Gpu.GatherWalk | keryx-miner/cuda/pom_mine.cu:53-68 | the kernel's walk is the host's |
| Gpu.KernelAgrees | keryx-miner/cuda/pom_mine.cu:15-40 | kernel folds and comparison accept the same nonces as the host's |
| Gpu.Thread | keryx-miner/cuda/pom_mine.cu:42-74 | a thread lowers the shared winner to its nonce exactly when it is in the batch, wins and is smaller |
| Gpu.ThreadsCoverRange | keryx-miner/cuda/pom_mine.cu:49-51 | the nonces of the first n threads are exactly the n from the start on, wrapping at 2^64 |
| Gpu.LaunchCovers | keryx-miner/src/pom_gpu.rs:222-228 | a launch has a thread for every nonce of the batch exactly when its grid size neither wraps nor is cut off |
| Gpu.LaunchSizeExactly | keryx-miner/src/pom_gpu.rs:227-228 | a launch has as many blocks as the batch needs, modulo 2^32, and none when rounding up passes 2^64 |
| Gpu.MineWithBlock | keryx-miner/src/pom_gpu.rs:222-241 | for every block size and thread order the result is the least winning nonce at a distance from the start, modulo 2^64, below batch and launch size, or none when there is none but the sentinel |
| Miner.WalkFinal | keryx-miner/src/pom.rs:277-285 | the search walk over the index ends in the walk's final state |
| Miner.BuildProofLoop | keryx-miner/src/pom.rs:320-376 | the recording prover builds the proof the theorems are about |
| Miner.MinePom | keryx-miner/src/pom.rs:292-313 | returns the first winning nonce of the saturated range with a proof the verifier accepts, and none only when no nonce wins |
| Registry.Pick | keryx-miner/src/pom_gpu.rs:406-411 | the pick is a served, smaller, not banlisted model, and of the largest tier among those |
| RegistryEffects.TierIsRank | keryx-miner/src/models.rs:183-213 | a model's tier is its rank in the list of four, from score 38 951 445 on of five |
| RegistryEffects.PomModelExactly | keryx-miner/src/models.rs:167-174 | a model can be mined exactly when it has a tier before or after that score |
| RegistryEffects.LoadsExactly | keryx-miner/src/pom_gpu.rs:494-593 | a call loads a model exactly when the device neither mines nor is unsupported nor busy, the model is its own or the fallback assignment and not banlisted, an index is at hand, and on device 0 the model is resident |
| RegistryEffects.LoadEffect | keryx-miner/src/pom_gpu.rs:594-639 | after a load the device has an index of the model, mines exactly when the load has its chunk count, and is unsupported exactly on a refused program |
| RegistryEffects.NoLoadEffect | keryx-miner/src/pom_gpu.rs:523-579 | a call that loads nothing changes at most the device's own index, and leaves it one of the assigned model or none |
| RegistryEffects.InferenceOomExactly | keryx-miner/src/pom_gpu.rs:449-468 | bans the model and stops the miner exactly when the model is the device's own and not yet banlisted |
| Registry.StepTiers | keryx-miner/src/pom_gpu.rs:402-423 | a step that is not interrupted changes assignments and banlist only when a device runs out of memory on its model, which it had not before |
| Registry.DowngradeLowersTier | keryx-miner/src/pom_gpu.rs:402-423 | in a step that is not interrupted, an assignment changes only to a strictly smaller tier that the device has not run out of memory on |
| Registry.BanlistedNeverTried | keryx-miner/src/pom_gpu.rs:523-531 | after any run of uninterrupted installations, an uninterrupted one never loads a model banlisted on its device |
| Registry.OomsAreBounded | keryx-miner/src/pom_gpu.rs:402-468 | in any run of uninterrupted installations a device that starts on tier t runs out of memory at most t + 1, so at most five times |
| Registry.RunKeepsConsistent | keryx-miner/src/pom_gpu.rs:523-639 | in any run of uninterrupted installations every installed miner has an index of its own model with its chunk count, and an assigned device mines its assignment |
| Registry.AssignmentKeptExactly | keryx-miner/src/pom_gpu.rs:359-375 | an uninterrupted step keeps running miners labelled with the model they run exactly when it does not downgrade the device that one of them falls back to |
| Interleaving.AtomicRunIsRun | keryx-miner/src/pom_gpu.rs:494-639 | every run of uninterrupted calls is a run of the interleaved registry, with the same out-of-memory failures |
| InterleavedOom.FailuresAreBounded | keryx-miner/src/pom_gpu.rs:402-639 | in any run, interrupted or not, a device that starts on tier t runs out of memory at most 2(t + 1), so at most ten times |
| InterleavedOom.BoundIsAttained | keryx-miner/src/pom_gpu.rs:402-639 | from every tier there is a run with exactly 2(t + 1) failures |
| InterleavedOom.BanlistedExactly | keryx-miner/src/pom_gpu.rs:389-395 | over any run exactly the models that a device runs out of memory on are added to its banlist |
| InterleavedOom.LoadsBanlistedExactly | keryx-miner/src/pom_gpu.rs:523-621 | a load ends on a banlisted model exactly when its device has run out of memory on that model since the load passed the banlist |
| InterleavedOom.FailureLowersExactly | keryx-miner/src/pom_gpu.rs:402-423 | the failure of a load lowers the tier assigned by then exactly when something is at hand and all of it is smaller, and raises it exactly when something larger is; for the assigned model nothing larger is |
| InterleavedOom.LateFailureRaisesTier | keryx-miner/src/pom_gpu.rs:402-468 | a run in which a late failure raises the assigned tier |
| Installation.MoveKeepsConsistentExactly | keryx-miner/src/pom_gpu.rs:523-639 | one move of the interleaved registry keeps miners matched with indices and with own assignments exactly when it does not install a miner of a model that its device, having its own assignment, is no longer assigned |
| Installation.InterruptedRunKeepsConsistent | keryx-miner/src/pom_gpu.rs:523-639 | any run without such a move stays consistent |
| Installation.InterruptedInstallExactly | keryx-miner/src/pom_gpu.rs:523-639 | an installation interrupted by any events leaves a device with its own assignment mining another model exactly when its load succeeds after the device was reassigned |
| Labelling.MoveKeepsLabelsExactly | keryx-miner/src/pom_gpu.rs:359-639 | one move of the interleaved registry keeps every running miner labelled with its model, own assignment or fallback, exactly when it neither installs a model its device is no longer assigned nor shifts the fallback of a running miner |
| Labelling.RunKeepsLabels | keryx-miner/src/pom_gpu.rs:359-639 | any run without such a move keeps the registry consistent and every running miner labelled with its model |
| Labelling.FallbackIsMislabelled | keryx-miner/src/pom_gpu.rs:359-639 | a run that mislabels a device without its own assignment although every step keeps the registry consistent and no downgrade shifts a running miner |
| Registry.Devices.EnsureInstalled | keryx-miner/src/pom_gpu.rs:494-639 | the in-place registry makes exactly the step of the transition system, on every outcome of index build and load |
| Registry.Devices.NoteInferenceOom | keryx-miner/src/pom_gpu.rs:449-468 | banlist, downgrade and uninstall, exactly when the failed model is the device's own and not yet banlisted |
| Registry.Devices.DowngradeAfterOom | keryx-miner/src/pom_gpu.rs:402-423 | reassigns the device to the pick and changes nothing else |
| Registry.Devices.TryShareIndex | keryx-miner/src/pom.rs:669-681 | true exactly when the device then has an index, taken from the first device with one for the model |
| Registry.Devices.InvalidateIndexUnless | keryx-miner/src/pom.rs:659-664 | drops exactly another model's index |
| EscrowIndexed.EscrowWatcher.RebuildIndexes | keryx-miner/src/escrow.rs:164-173 | from any entries, the outpoint set and the block index become exactly those of the entries |
| EscrowIndexed.EscrowWatcher.CompactEntries | keryx-miner/src/escrow.rs:177-184 | drops the finished entries and keeps both indexes exact |
| EscrowIndexed.EscrowWatcher.SlashByIndex | keryx-miner/src/escrow.rs:226-243 | slashing through the index equals a scan of all entries |
| EscrowIndexed.EscrowWatcher.TrackCoinbase | keryx-miner/src/escrow.rs:255-290 | tracks exactly the coinbase outputs to the own script that are not tracked, in order |
| EscrowIndexed.EscrowWatcher.FindClaimNow | keryx-miner/src/escrow.rs:298-341 | issues the claim of the first eligible entry, inference first, only with nothing in flight; a failed build issues none and changes nothing |
| EscrowIndexed.EscrowWatcher.HandleBlockAdded | keryx-miner/src/escrow.rs:209-295 | one block makes exactly the index-free step, with both indexes exact |
| EscrowIndexed.EscrowWatcher.OnSubmitResponse | keryx-miner/src/escrow.rs:344-416 | a response clears the claim in flight and settles its entry: claimed, retried or slashed |
| EscrowIndexed.EscrowWatcher.TrackInferenceEscrow | keryx-miner/src/escrow.rs:482-512 | tracks output one of an inference payment once |
| EscrowSafety.StepEntry | keryx-miner/src/escrow.rs:209-512 | every step keeps outpoints distinct; every entry is dropped, fresh, or evolved with monotone flags and, unless its own claim is settled, unchanged counters |
| EscrowEffects.BlockEffect | keryx-miner/src/escrow.rs:209-243 | a scored block slashes a live coinbase entry exactly when it names the entry's non-empty block hash red, changes nothing else about an entry it keeps, and keeps all but finished ones at a compaction |
| EscrowEffects.RedIsNeverClaimed | keryx-miner/src/escrow.rs:222-243 | an entry whose block is named red is claimed neither by that block nor in any run after it that does not track the outpoint anew |
| EscrowEffects.CoinbaseIsFirst | keryx-miner/src/escrow.rs:246 | the coinbase is the first transaction without inputs |
| EscrowEffects.TrackedEntryExactly | keryx-miner/src/escrow.rs:245-290 | what a block starts tracking is an output of its coinbase that pays the watched script, with the block's score and hash, the output's amount and nothing yet decided |
| EscrowEffects.PaidOutputIsTracked | keryx-miner/src/escrow.rs:245-290 | every untracked such output is tracked |
| EscrowEffects.LowerIsPointwise | keryx-miner/src/escrow.rs:258 | scripts are compared without regard to the case of the letters A to Z |
| EscrowEffects.ResponseSettlesExactly | keryx-miner/src/escrow.rs:344-416 | a response settles the entry whose claim was in flight, at output 1 if no index was recorded, and no other, and clears the claim; without one it does nothing |
| EscrowEffects.SettleFields | keryx-miner/src/escrow.rs:352-412 | field by field: accepted is claimed; an orphan rejection counts and waits 100, the tenth slashes; a sequence lock waits 20; any other rejection slashes; nothing else changes |
| EscrowEffects.ContainsExactly | keryx-miner/src/escrow.rs:367-368 | a message contains a phrase exactly when it is something, the phrase, and something |
| EscrowEffects.InferenceTrackedExactly | keryx-miner/src/escrow.rs:482-512 | a positive amount on an untracked payment is tracked as its output 1 with score and amount, as inference; nothing else changes |
| EscrowEffects.LastScoreExactly | keryx-miner/src/escrow.rs:209-211 | the last score seen is that of the last scored block |
| EscrowSafety.RunKeepsDistinct | keryx-miner/src/escrow.rs:255-290 | every run keeps outpoints distinct |
| EscrowSafety.IssuedClaimIsSafe | keryx-miner/src/escrow.rs:298-341 | an issued claim spends a live tracked entry 36 010 past confirmation and past its cooldown, pays amount less fee and more than zero, and is an inference claim whenever one is eligible |
| EscrowEffects.ClaimIsWellFormed | keryx-miner/src/escrow.rs:418-459 | an issued claim spends an entry that is due, whose amount covers the fee and whose id is 64 hexadecimal digits, with sequence 36 000 |
| EscrowEffects.DueClaimIsIssued | keryx-miner/src/escrow.rs:298-341 | at a scored block with a coinbase and nothing in flight, when some entry is due and every due one can be built, a claim is issued |
| EscrowSafety.OneClaimInFlight | keryx-miner/src/escrow.rs:298-349 | over any run claims issued are claims settled plus at most one in flight; both pending fields are set together |
| EscrowSafety.FinishedIsNeverClaimed | keryx-miner/src/escrow.rs:310-316 | a claimed, slashed or dropped outpoint is not claimed in any run that does not track it anew |
| EscrowSafety.RedeliveryRetracksExactly | keryx-miner/src/escrow.rs:209-290 | a block that pays an outpoint starts tracking it exactly when no entry has it, or its entry is finished and compacted away in that step |
| EscrowSafety.ForgottenExactly | keryx-miner/src/escrow.rs:177-218 | over any run that does not track it anew, a finished entry is forgotten exactly when the scored blocks since the last compaction reach 2 000 |
| EscrowSafety.RetrackedExactly | keryx-miner/src/escrow.rs:177-290 | after any such run, a redelivered block tracks the outpoint again exactly when those blocks, itself included, reach 2 000 |
| EscrowSafety.RetrackedFromStart | keryx-miner/src/escrow.rs:177-290 | from the start of a watcher over any saved entries, only the scored blocks seen decide whether a redelivery tracks a finished outpoint again |
| EscrowSafety.RetriesAreBounded | keryx-miner/src/escrow.rs:369-373 | over any run no retry counter exceeds ten, and none of a claimable entry nine |
| EscrowSafety.RetriesCountRejections | keryx-miner/src/escrow.rs:369-392 | while an entry stays tracked its counter grows by exactly the orphan rejections of its own claims |
| EscrowSafety.TenthRejectionIsFinal | keryx-miner/src/escrow.rs:369-373 | an orphan rejection finishes an entry exactly when it is the tenth, and it is then never claimed again |
| EscrowSafety.RejectedClaimWaits | keryx-miner/src/escrow.rs:369-397 | the next claim of a rejected entry is at a block 100 (orphan) or 20 (sequence lock) past the last score seen |
| EscrowStarvation.ClaimIssuedExactly | keryx-miner/src/escrow.rs:298-341 | a claim is issued exactly at a scored block with a usable coinbase, nothing in flight, whose first entry in line, inference before others and older before newer, can be built; it is the claim of that entry |
| EscrowStarvation.UnbuildableHeadStarves | keryx-miner/src/escrow.rs:310-341 | once an inference entry that cannot be built heads the line, it stays there in every run, and no claim is issued at a block at which it is eligible |
| Watch.RunKeepsInv | keryx-miner/src/watch.rs:41-163 | every reachable state satisfies the lock, version, wake-up and count invariants |
| Watch.ParkedReceiversWillBeNotified | keryx-miner/src/watch.rs:41-65 | in every interleaving a parked receiver that is behind has a sender between bump and notification, and one parked after the drop has the drop there |
| Watch.QuietSleepersAreCurrent | keryx-miner/src/watch.rs:87-150 | in every reachable state with no send or drop under way, a parked receiver has been given the current value and the sender is alive |
| Watch.DeliveriesAreFresh | keryx-miner/src/watch.rs:41-158 | in every interleaving a returned value is at least as new as the recorded id and as all values returned before; a recorded current id means the current value was delivered |
| Watch.VersionsNeverGoBack | keryx-miner/src/watch.rs:121-150 | over any run in which a receiver lives, neither its recorded id nor the newest value it has returned decreases |
| WatchDelivery.RedeliveryExactly | keryx-miner/src/watch.rs:121-150 | of two reads of a receiver the second returns the same value exactly when nothing was stored in between; unless it follows a wake-up, the first must have been torn |
| WatchDelivery.TornExactly | keryx-miner/src/watch.rs:41-59 | a read returns more than the recorded id exactly when a store fell between its id load and its read, or was not yet counted at the load |
| WatchDelivery.CheckExactly | keryx-miner/src/watch.rs:121-141 | with nothing stored since a delivery and other threads acting at will, the next check, a poll or either check of a wait, reads that value again exactly when the delivery was torn; otherwise the poll returns nothing and the wait goes on |
| WatchDelivery.PollRedelivers | keryx-miner/src/watch.rs:121-131 | a run from the start in which two polls return the same value |
| WatchDelivery.WakeRedelivers | keryx-miner/src/watch.rs:142-149 | every parked receiver that has been given the current value can wake and return it again with nothing stored |
| WatchDelivery.WaitRedelivers | keryx-miner/src/watch.rs:133-150 | a run from the start, without any send, in which a wait returns the value of the poll before |
| Watch.NoDeadlock | keryx-miner/src/watch.rs:41-150 | in every state the invariants allow, some thread inside an operation and not parked can act |
| Watch.StepKeepsCount | keryx-miner/src/watch.rs:20-31 | the receiver counter is the number of live receivers |
| WatchEnds.SendProceedsExactly | keryx-miner/src/watch.rs:86-92 | in every reachable state a send goes ahead exactly when some receiver is left |
| WatchEnds.ClosedDeliversNothing | keryx-miner/src/watch.rs:120-150 | once the sender is gone, a receiver outside a check that found it alive reads no value in any run |
| WatchEnds.LoadIdExactly | keryx-miner/src/watch.rs:120-150 | in every reachable state a check goes on to read exactly when the receiver is behind or was woken, and records the current id; otherwise a poll returns and a wait goes on |
| WatchEnds.CloneSeesTheSame | keryx-miner/src/watch.rs:153-158 | a clone has seen what the original has seen, until either acts |
| Base58.MulAdd | keryx-miner/inference/src/ai_payload.rs:202-213 | the carry pass turns the canonical digits of a number into those of factor times it plus a digit |
| Base58.Base58Encode | keryx-miner/inference/src/ai_payload.rs:199-219 | the encoder loop is the change of base that keeps leading zeros |
| Base58.Base58Decode | keryx-miner/src/ipfs.rs:43-69 | the decoder loop is the reverse change of base, none exactly on a character outside the alphabet |
| Base58.TableInvertsAlphabet | keryx-miner/src/ipfs.rs:43-56 | the decoder's table and the encoder's alphabet invert each other |
| Base58.ConvertBackExactly | keryx-miner/src/ipfs.rs:43-69 | changing base there and back is the identity exactly on strings with a non-zero digit; the others come back two digits longer |
| Base58.DecodeOfEncodeExactly | keryx-miner/inference/src/ai_payload.rs:199-219 | decoding an encoding gives the bytes back exactly when one is non-zero |
| Base58.EncodeOfDecodeExactly | keryx-miner/src/ipfs.rs:43-69 | encoding a decoding gives the string back exactly when some character is not 1 |
| Base58.CidExactly | keryx-miner/src/ipfs.rs:32-41 | a string is accepted for a multihash exactly when the encoder prints it for that multihash |
| Target.Shl | keryx-miner/src/target.rs:97-117 | shifting is multiplying by the power of two modulo 2^256, for every shift |
| Target.PartialFits | keryx-miner/src/target.rs:97-117 | no word addition of the shift overflows |
| Target.FromCompact | keryx-miner/src/target.rs:4-24 | a compact target denotes mantissa times 256^(e-3) modulo 2^256, cut below e = 3, zero for a negative mantissa |
| Target.CompactPositions | keryx-miner/src/target.rs:4-24 | the three mantissa bytes lie at positions e-3, e-2 and e-1 of the 32 bytes, what falls outside is lost, and from e = 3 on a top bit makes zero |
| Target.TargetFromDifficulty | keryx-miner/rxengine/src/job.rs:49-70 | long division yields the floor of (2^256-1)/d with no quotient byte truncated; zero counts as one |
| Target.TargetsAreAntitone | keryx-miner/rxengine/src/job.rs:49-70 | a higher difficulty never has a larger target |
| Target.ShareTestsAgree | keryx-miner/rxengine/src/stratum.rs:85-104 | the 256-bit test on a share target is the pool's 64-bit test on the top of the hash |
| Target.ShareTargetIsExact | keryx-miner/rxengine/src/stratum.rs:85-104 | the 64-bit threshold is what one to eight bytes denote, four bytes being the high half, nothing lost |
| Header.DecodeToSlice | keryx-miner/src/pow.rs:311-336 | succeeds exactly on that many hexadecimal byte pairs, and returns their bytes |
| HeaderLayout.HexReadsPairs | keryx-miner/src/pow.rs:321-333 | byte i is the digit pair at 2i, high digit first, in either case |
| HeaderLayout.OddHexReadsPairs | keryx-miner/src/pow.rs:281-289 | an odd number of digits reads as if a zero digit came first |
| Header.SerializeHeader | keryx-miner/src/pow.rs:251-301 | the hasher is fed exactly the specified byte string, for both forms |
| HeaderLayout.StartLayout | keryx-miner/src/pow.rs:254-255 | bytes 0 to 2 are the version and 2 to 10 the number of parent levels |
| HeaderLayout.LevelLayout | keryx-miner/src/pow.rs:258-259 | each level starts, behind those before it, with eight bytes of its length |
| HeaderLayout.ParentLayout | keryx-miner/src/pow.rs:260-263 | then come its hashes, 32 bytes each, in order |
| HeaderLayout.RootsLayout | keryx-miner/src/pow.rs:265-271 | behind the levels lie hash merkle root, accepted-id root and utxo commitment, in this order |
| HeaderLayout.NumbersLayout | keryx-miner/src/pow.rs:252-278 | then time, bits, nonce, DAA score and blue score, time and nonce zero in the pre-proof-of-work form |
| HeaderLayout.EndLayout | keryx-miner/src/pow.rs:281-301 | then length and bytes of the blue work, the pruning point and, in the full form from score 43 450 000 on, the final state; nothing else |
| Header.SerialisationIsInjective | keryx-miner/src/pow.rs:251-301 | two headers serialise alike exactly when they agree on every field the form commits to |
| Header.NewTemplate | keryx-miner/src/pow.rs:86-146 | fails exactly on a full block without a header; otherwise hash, time, target and era are those of the header, or the ones the pool sent |
| HeaderLayout.BlockTemplateHolds | keryx-miner/src/pow.rs:94-146 | the state of a block holds the hash of the pre-proof-of-work form, the timestamp modulo 2^64, 32 zero bytes, the compact target's number and the score's era |
| HeaderLayout.ShareTemplateHolds | keryx-miner/src/pow.rs:107-146 | the state of a pool share holds the hash words, time, target and era the pool sent |
| Header.SolvingKeepsJob | keryx-miner/src/pow.rs:185-301 | filling in nonce and final state does not change what the block's own header says the proof is about |
| HeaderLayout.SolvedBlockBytes | keryx-miner/src/pow.rs:212-224 | a solved block's bytes hold the nonce in its place and, from score 43 450 000 on, the proof's final state as the last eight; the header is otherwise unchanged |
| Header.GenerateBlockIfPom | keryx-miner/src/pow.rs:185-235 | solved work is returned exactly for a winning nonce, full block or pool share; only nonce, proof and, from H3 on, final state change, and the proof verifies for the job recomputed from the result |
| Address.Regroup | keryx-miner/src/escrow.rs:756-766 | for every length exactly the complete bytes of the bit string, although the buffer drops high bits |
| Address.RegroupInvertsSpelling | keryx-miner/src/escrow.rs:756-766 | regrouping the zero-padded spelling of any payload gives the payload back |
| Address.DecodeAddress | keryx-miner/src/escrow.rs:733-775 | over the bytes of the address, version and script are the first 33 regrouped bytes; each error exactly on its cause, a cut inside a character included |
| Address.DecodeInvertsEncode | keryx-miner/src/escrow.rs:733-775 | decoding prefix, colon, spelled version and script, and any checksum gives the version and the script back |
| Mlp.WeightRange | keryx-miner/inference/src/model_fixed.rs:39-56 | every weight lies in [-he, he-1] |
| Mlp.JumpIsNth | keryx-miner/inference/src/model_fixed.rs:45-48 | many draws of the generator are one affine step with the doubled coefficients |
| Mlp.LowestWeightOccurs | keryx-miner/inference/src/model_fixed.rs:39-62 | each of the three layers has a weight at the lower end that the documented open range leaves out |
| Mlp.LowestWeightExactly | keryx-miner/inference/src/model_fixed.rs:39-56 | the lower end is met exactly when the scaled draw rounds down to it |
| MlpLayers.WeightExactly | keryx-miner/inference/src/model_fixed.rs:50-55 | a weight is the signed upper half of the state times the scale over 2^31, rounded down |
| Mlp.MakeWeights | keryx-miner/inference/src/model_fixed.rs:59-62 | the loop draws the generator's weights in order, all in range |
| Mlp.DotRange | keryx-miner/inference/src/model_fixed.rs:72-111 | a sum of products is at most the count times both magnitudes |
| Mlp.LayerRanges | keryx-miner/inference/src/model_fixed.rs:72-111 | for every input the accumulators stay within 1 048 576, 23 592 960 and 377 487 360 and the activations within [0, 1024] and [0, 23 040] |
| MlpLayers.FirstLayer | keryx-miner/inference/src/model_fixed.rs:69-84 | neuron i of 256 is the sum of the 32 centred bytes times draws 32i + 1 on of the first layer's seed |
| MlpLayers.SecondLayer | keryx-miner/inference/src/model_fixed.rs:90-98 | neuron i of 128 is the sum of the 256 activations times draws 256i + 1 on of the second layer's seed |
| MlpLayers.ThirdLayer | keryx-miner/inference/src/model_fixed.rs:104-111 | output i of 32 is the sum of the 128 activations times draws 128i + 1 on of the third layer's seed |
| MlpLayers.ActivateExactly | keryx-miner/inference/src/model_fixed.rs:82 | an activation is the 1024th part of the sum, rounded down, and zero for a negative sum |
| MlpLayers.FoldExactly | keryx-miner/inference/src/model_fixed.rs:117-121 | an output byte is the exclusive or of the eight little-endian bytes of the two's complement |
| Mlp.Forward | keryx-miner/inference/src/model_fixed.rs:68-123 | each output byte folds one third-layer accumulator of the generated weights |

## Left out

- The contents of hash functions, signatures and transaction bytes: hashes are parameters, a claim transaction is the outpoint it spends, the amount it pays and its sequence.
- Networking, message plumbing, JSON, logging, command line, status panel, downloads: input and output only.
- Escrow persistence (the dirty flag, the timed flush, the saved file): the watcher starts from any saved entry list instead.
- Model inference, candle tensors, floating point (difficulty display, matrix rank, fee time share), the Keccak variants and the random generators of the older proof of work.
- AI payload serialisation and hexadecimal helpers of the inference crate: straight-line round trips only.
- Walk length and opening count: parameters of every theorem, so 256 and 32 are instances; walks of length zero are excluded because the challenges divide by it.
- Possession.Soundness: speaks of a trace root that commits to a list of k + 1 states, since a root that commits to nothing known says nothing about a walk.
- Gpu.MineWithBlock: device memory is word arrays and the launch runs its threads one after the other in any order, each lowering the winner atomically; like the other searches it is stated for at most 2^31 gathered tensors, beyond which the kernel never reaches the last segment (`Gpu.BisectionExactly`).
- Gpu.Locate: stated up to 2^31 gathered tensors, the exact bound of `Gpu.BisectionExactly`.
- Gpu.GatherWalk: stated up to the same bound, beyond which the bisection misses the last segment.
- Gpu.Thread: stated up to the same bound.
- The gather over tensors shared with the inference engine: it builds the same table from tensors that hold the same bytes.
- DiskTree.Finalize: the file is a list of 32-byte records addressed by byte offset, and the writing and reading handles are one object with a buffer; failing reads and writes are left out.
- Registry.RunKeepsConsistent: an installation is one step here; interrupted ones are the subject of `Interleaving` and `Installation`. There the banlist test, the guards and the index build are one move: of what they read, other threads write only the banlist, which is read once and first, and a call whose model is banlisted by then returns without loading.
- Registry.AssignmentKeptExactly: an installation is one step here; the exact condition over interleaved moves is `Labelling.MoveKeepsLabelsExactly`.
- Installation.MoveKeepsConsistentExactly: compares a miner with the assignment only where the device has its own; `Labelling` covers devices that fall back.
- Installation.InterruptedRunKeepsConsistent: likewise for own assignments only; see `Labelling.RunKeepsLabels`.
- Installation.InterruptedInstallExactly: likewise for own assignments only.
- Registry.DowngradeLowersTier: an installation is one step here; what a late failure of an interrupted one does is `InterleavedOom.FailureLowersExactly`.
- Registry.BanlistedNeverTried: an installation is one step here; for interrupted ones see `InterleavedOom.LoadsBanlistedExactly`.
- Registry.OomsAreBounded: an installation is one step here; interrupted ones are bounded by `InterleavedOom.FailuresAreBounded`. Both need the device's own assignment to have a tier and its loads to end at or after the five-tier activation, as an earlier ranking has other numbers.
- EscrowIndexed.EscrowWatcher.HandleBlockAdded: outpoint keys are pairs, additions to scores are unbounded integers, lower-casing is ASCII.
- Claim progress: a claim whose build fails leaves its entry eligible, so no theorem promises that a claim is made eventually; `EscrowStarvation` proves that one can be held up for good.
- Watch.RunKeepsInv: atomics are sequentially consistent; several threads may send through one sender.
- Target.ParseTarget: the hexadecimal decoding of a share target; the model starts from its bytes.
- Header.SerializeHeader: headers on which the serialiser panics (malformed hashes, a version above 16 bits) are excluded by its precondition; field lengths are below 2^64.
