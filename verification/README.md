# Models of AliceNet's trie, parameter store and peering

This project models three parts of AliceNet and proves what they are for.

**The batched sparse Merkle trie** (`badgerTrie/`). A binary trie over 256-bit keys, cut into batches of 31 slots that
are stored under the digest of their top node; a subtree with one key is a *shortcut* at its highest point. `Update`
walks down and edits batch arrays in place. The model keeps the arrays (`Smt.SMT`, methods over `array<Slot>`),
records every access to memory that two goroutines could share, and proves each method against `Updates.Apply`, a
function on plain trees (`Trees.Tree`). Hashes are symbolic: `Words.Word` is a free datatype, so equal digests have
equal inputs; the height byte of a leaf hash is taken modulo 256. On top of the trie stand reads and proofs (`Reads`,
`Proofs`, `Compress`), the byte codec (`Codec`, `Formats`), the check of a received batch and what it is worth
(`Layers`, `Sublayers`, `Received`), fast sync (`Sync`), snapshots (`Walk`) and the memory trie (`Memory`).

**The parameter store** (`dynamics/`). Updates of consensus parameters are kept in a doubly linked list of epochs
inside a key-value table. `Params` has the parameters and what one update does, `Spans` what any run of updates
amounts to, `Epochs` the lists and tables as values and their refinement of the spans, `Store` the storage object with
its loops.

**Two state machines of `peering/`**. `Workers` is the controller of one peer's request workers; `Peers` the stores of
active and inactive peers with their exit handlers and timers. Both run under arbitrary schedules.

How the files build on each other: `Words` → `Trees` → `Updates` → `Doubled` → `Clash` → `Requests`; `Batches` →
`Traces`, `Reads` → `Smt` → `Memory`, `Runs` → `Rollback`, `Strays`; `Reads` → `Proofs` → `Compress`; `Bits` →
`Codec` → `Formats`; `Layers` → `Sublayers` → `Worklists` → `Walk`; `Sublayers`, `Reads` → `Received` → `Offers` →
`Sync`; `Numerals` → `Params` → `Spans` → `Epochs` → `Store`; `Workers` and `Peers` stand alone.

Check everything with `dafny verify dfyconfig.toml`.

## Where code and intention part

Five properties one would expect turn out not to hold on all inputs. The model does what the code does, and states
when the property holds.

- *The trie after a mixed batch.* When a shortcut's own key is deleted between a smaller and a larger key of the same
  subtree, `maybeAddShortcutToKV` goes on after the deletion and appends the batch a second time. The merged batch is
  sorted exactly when this pattern, a clash, is absent (`Updates.MergeSortedIff`). On a trie whose keys lie on their
  paths, called homed, the map and every read come out right immediately after (`Requests.ApplyMet`), but a clash can
  leave a second copy of a key off its path. The next requests then meet it. `Strays.DeletionLost` gives a trie with
  all reads right on which an accepted deletion without a clash leaves the key in place; on the same trie
  `Strays.InsertLost` loses an accepted insert. The keys stay on their paths exactly when every clash on the way
  settles (`Requests.RequestMet`, and `Runs.HomedRunIff` for whole runs), and then every run does to the trie what
  it does to a plain map (`Runs.RunIsMap`). Whether a clash settles can be told from the keys before the call
  (`Clash.Settles`). With A the smaller keys, C the larger ones, c the largest and k the shortcut's key, one of two
  things holds from the shortcut's depth on. Either wherever c has a clear bit so have all keys. Or there is a first
  bit d at which c is clear and k set, at which A is clear, before which the same holds, and after which A is clear
  wherever c is and C wherever k is. The form is also canonical, and so the root is the one any other history of the
  map leads to (`Requests.RootIff`), exactly when every clash settles in the strict sense: in the first case the two
  largest remaining keys differ in their last bit alone, in the second d is the last bit unless they do.
  `Clash.ClashCanBreak` and `Clash.ClashCanBeHarmless` show both outcomes.
- *Discarding requests.* `Discard` does nothing unless a batch was stored since the last commit, and a request that
  empties the trie stores none. So a commit, any requests and a discard bring the committed root back exactly when the
  trie was empty, nothing was accepted, or some accepted request left a key (`Rollback.TryAndDiscard`). A single
  request fails to be undone exactly when it is accepted, deletes every key and inserts none (`Rollback.OneRequest`).
  `Rollback.DiscardKeepsNothing` is the smallest case.
- *Proofs of absence.* `VerifyNonInclusion` never compares the proof key with the key. An accepted proof means absence
  exactly when they differ (`Proofs.NonInclusionSoundIff`). An empty trie has no root to compare with, so its absence
  proofs are refused (`Proofs.NonInclusionComplete`).
- *An update between two epochs of the list.* The following node is read before the new node is spliced in and written
  back after, with its old link back, so the new node is hidden: walks on meet it, walks back do not. A second update
  in the same gap reads the hidden node as the following one, and its own node is found; at another epoch it replaces
  the hidden one, at the same epoch both take effect (`Spans.TwoInGap`). `Spans.Machine` says what any run of updates
  amounts to, and every run of the storage shows exactly that (`Store.Storage.UpdateStorage`). From the head on the
  answers are always the replay of the updates (`Spans.TopAnswers`). They are right at every epoch, throughout a run,
  exactly when each update falls on a node or past the head, or changes nothing in its gap, or brings out the same
  parameters as the replay (`Spans.UpdateIff`, `Spans.RunIff`); `Spans.BetweenCanLose` is an update that is lost.
  `addNode` itself is right everywhere (`Store.Storage.AddNode`).
- *What an accepted batch holds.* `verifyBatch` stops rehashing above slots without children, so a batch cut off above
  its last level, or with slots nobody looks at, can still hash to its root. `Received.CutOffAccepted` gives such a
  batch for every root of a certain form; the genuine batch is accepted too and holds other digests
  (`Received.CutOffDiffers`), and reads below the cut find nothing (`Received.CutOffReads`). An accepted batch holds
  the digests the trie has there exactly when its interior nodes reach down to the last level and nothing lies beside
  nodes or below shortcuts (`Received.WordsIff`). To reads it is the genuine batch exactly when it is also neat: no
  shortcut flag out of place and no slot filled with the default digest (`Received.MirrorsIff`). Both conditions look
  at the received slots only.

## Model

| member | source | states |
|---|---|---|
| `Trees.LookupIsFind` | badgerTrie/smt_tools.go:27-47 | descending a homed tree by the bits of a key finds exactly what its map holds for that key |
| `Trees.CanonUnique` | badgerTrie/smt.go:146-375 | history independence: two trees in canonical form (one-key subtrees are shortcuts at their highest point) with the same map are the same tree |
| `Trees.DigInjective` | badgerTrie/smt.go:817-869 | equal digests at one height come from equal trees |
| `Trees.RootIffContents` | badgerTrie/smt.go:146-375 | two canonical tries have equal roots if and only if they hold equal maps |
| `Smt.SMT.RootIsMap` | badgerTrie/smt.go:88-140 | the same for two trie objects, the empty root included, whatever requests led to them |
| `Updates.MergeSortedIff` | badgerTrie/smt.go:379-424 | a batch with a shortcut merged in is strictly sorted if and only if the shortcut's key is not deleted between a smaller and a larger key |
| `Updates.MergeMeaning` | badgerTrie/smt.go:379-424 | without that pattern the merged batch does to an empty subtree what the batch does to the shortcut |
| `Doubled.FrontReads` | badgerTrie/smt.go:396-420 | on an empty subtree, a sorted front of inserts followed by any stale entries that are in it or outside the prefix: every read under the prefix finds exactly the front |
| `Doubled.TailSettles` | badgerTrie/smt.go:396-420 | the front and tail of a doubled batch leave a homed subtree if and only if the tail settles, and a canonical one if and only if it does in the strict sense |
| `Clash.ClashReads` | badgerTrie/smt.go:379-424 | a clash never changes what a read finds: every read under the prefix gives what the batch asks for |
| `Clash.ClashContents` | badgerTrie/smt.go:379-424 | nor the map of the subtree |
| `Clash.ClashFormedIff` | badgerTrie/smt.go:379-424 | a clash at a shortcut of any height keeps the keys on their paths if and only if the keys of the batch settle, and the canonical form if and only if they do in the strict sense |
| `Requests.ApplyMet` | badgerTrie/smt.go:146-285 | `update` on a homed subtree, for every sorted batch deleting present keys: exactly the map with the batch applied in order, every read right, and homed again if and only if every clash on the way settles; canonical from canonical if and only if they settle in the strict sense |
| `Requests.RequestMet` | badgerTrie/smt.go:88-140 | the same for a whole request that passed the checks before it |
| `Requests.RootIff` | badgerTrie/smt.go:88-140 | the new root equals the root of the canonical trie of the same map if and only if every clash settles |
| `Requests.InsertsClean` | badgerTrie/smt.go:396-420 | batches of inserts alone never meet a clash |
| `Requests.DeletesClean` | badgerTrie/smt.go:396-420 | nor do batches that only delete present keys |
| `Requests.CleanTame` | badgerTrie/smt.go:396-420 | without a clash there is nothing to settle |
| `Requests.RefusesIff` | badgerTrie/smt.go:107-127 | on a homed trie the checks of the entries refuse exactly what a plain map would, deleting what is absent or changing what is present, and report the first such entry |
| `Requests.VerdictIff` | badgerTrie/smt.go:88-127 | on every homed trie, the empty one included, a request is refused if and only if the lengths differ, there are no keys, a key occurs twice or a plain map refuses an entry; and which of these is reported |
| `Runs.RunIsMap` | badgerTrie/smt.go:88-140 | whole runs of requests of keys and values, refused ones included, whose clashes settle: the trie holds what a plain map put through the same run holds, every read gives it, and strictly settling runs keep the canonical form |
| `Runs.Serve` | badgerTrie/smt.go:88-140 | the trie object under such a run: every reply is the one the plain map gives, with its reason, every read is the map's, and after a strictly settling run from a canonical trie the root is that of the map |
| `Runs.HomedRunIff` | badgerTrie/smt.go:88-140 | the keys lie on their paths after every request of a run if and only if every clash of the run settles |
| `Strays.StrayedOutcome` | badgerTrie/smt.go:396-420 | a family of three-entry batches whose clash leaves a copy of the largest key off its path |
| `Strays.DeletionLost` | badgerTrie/smt.go:339-424 | after such a batch the deletion of that key is accepted, meets no clash, and the key is still read with its value |
| `Strays.InsertLost` | badgerTrie/smt.go:379-424 | and an accepted insert of any key under the stray copy is not found afterwards |
| `Updates.InsertsStay` | badgerTrie/smt.go:146-213 | inserts into an empty subtree never leave it empty or report a deletion |
| `Clash.ClashCanBreak` | badgerTrie/smt.go:396-420 | a family of three-entry batches with a clash that does not settle: the trie is not canonical |
| `Clash.ClashCanBeHarmless` | badgerTrie/smt.go:396-420 | a three-entry batch with a clash that settles |
| `Batches.BelowIsBatch` | badgerTrie/smt.go:837-848 | an array whose slots are all in place below a batch root is the one batch that root's digest commits to |
| `Traces.TraceFrame` | badgerTrie/smt.go:261-285 | a call on slot i leaves every slot that is not strictly below i as it was, and only adds stored batches |
| `Traces.ShuffleConfluent` | badgerTrie/smt.go:261-285 | every interleaving of two access sequences that stay apart can run and ends where running them in turn ends |
| `Traces.ParallelConfluent` | badgerTrie/smt.go:261-285 | so any interleaving of the left and right goroutines of `updateParallel` gives the same batch and the same stored nodes as running one after the other |
| `Smt.SplitKeys` | badgerTrie/smt.go:301-308 | the loop finds the first key with the bit set |
| `Smt.MaybeAddShortcutToKV` | badgerTrie/smt.go:379-424 | the three cases and the loop compute `Merge`, including what the deletion branch leaves behind |
| `Smt.MergeInside` | badgerTrie/smt.go:395-421 | the loop of that function |
| `Smt.SMT.LoadBatch` | badgerTrie/smt.go:455-478 | a copy of the batch a digest names, uncommitted batches first |
| `Smt.SMT.StoreNode` | badgerTrie/smt.go:837-848 | a batch is recorded under its digest unless that is the digest it came from; nothing stored before changes |
| `Smt.SMT.LeafHash` | badgerTrie/smt.go:817-834 | slot j becomes the shortcut of the entry, its batch stored if j is a batch root |
| `Smt.SMT.InteriorHash` | badgerTrie/smt.go:851-869 | slot j becomes the node of its two children |
| `Smt.SMT.MoveUpShortcut` | badgerTrie/smt.go:339-375 | a lone shortcut below slot j, in the same batch or in one of its own, is rehashed for the greater height and put at j; its old slots are cleared |
| `Smt.SMT.JoinChildren` | badgerTrie/smt.go:311-337 | after a deletion: nothing left, a shortcut moved up, or an interior node, as `Join` on trees says |
| `Smt.SMT.UpdateFree` | badgerTrie/smt.go:192-218 | below a node with no shortcut in the way, the slots end up as `Spread` on trees says |
| `Smt.SMT.UpdateBelow` | badgerTrie/smt.go:169-218 | a shortcut on the way joins the batch; the slots end up as `Apply` says |
| `Smt.SMT.UpdateBatch` | badgerTrie/smt.go:152-174 | a batch root works on a batch of its own, new or copied, and touches no slot of the caller's |
| `Smt.SMT.UpdateNode` | badgerTrie/smt.go:146-218 | `update`: every slot below slot i is in place for the tree `Apply` gives, the node returned is that tree's, all its batches are stored, and only slots below i were touched |
| `Smt.SMT.UpdateParallel` | badgerTrie/smt.go:221-285 | both children updated, with their accesses interleaved in any way; also covers the one-sided cases |
| `Smt.SMT.Precheck` | badgerTrie/smt.go:107-127 | the loop reports the first deletion of an absent key or changed value of a present one |
| `Smt.SMT.KeysDistinct` | badgerTrie/smt.go:94-106 | the set built in a loop has as many members as keys if and only if no two keys are equal |
| `Smt.SMT.Update` | badgerTrie/smt.go:88-140 | on a homed trie a request is refused exactly when a plain map turns it away, and for its reason; a refused one changes nothing; an accepted one leaves the trie denoting `Apply`'s tree; on a homed trie every read then gives the old map with the entries applied, and the keys stay on their paths, or the form canonical, if and only if every clash settles, or does so strictly; something is stored unless the trie is emptied; stored batches, committed roots and the previous root are kept |
| `Smt.SMT.GetAnswers` | badgerTrie/smt_tools.go:19-47 | on every reachable trie a read finds all its batches and gives what the tree holds |
| `Smt.SMT.GetIsMap` | badgerTrie/smt_tools.go:19-47 | on a homed one it gives exactly what the map holds, for every key |
| `Smt.SMT.MerkleProofAnswers` | badgerTrie/smt_merkle_proof.go:21-25 | a proof asked of the trie object is the proof of its tree |
| `Smt.SMT.HistoryAnswers` | badgerTrie/trie_cache.go:28-45 | the root recorded at any earlier height still answers every read as when it was committed |
| `Smt.SMT.Commit` | badgerTrie/smt_tools.go:51-62 | all uncommitted batches are in the table, the root is recorded for the height, no read changes |
| `Smt.SMT.Flush` | badgerTrie/trie_cache.go:28-35 | the loop writes every uncommitted batch, in any order |
| `Smt.SMT.Discard` | badgerTrie/smt_tools.go:65-73 | if anything was stored since, the committed root and its tree are back; otherwise nothing changes |
| `Rollback.TryAndDiscard` | badgerTrie/smt_tools.go:51-73 | a commit, any requests, a discard: the committed root is back if and only if the trie was empty, nothing was accepted, or some accepted request left a key; otherwise the trie is empty |
| `Rollback.NoneLeft` | badgerTrie/smt.go:88-140 | requests none of which leaves a key change nothing or empty the trie |
| `Rollback.EmptiesIff` | badgerTrie/smt.go:88-140 | an accepted request empties a homed trie if and only if it deletes every key and inserts none |
| `Rollback.OneRequest` | badgerTrie/smt_tools.go:65-73 | a single request is not rolled back if and only if it is accepted, deletes every key and inserts none |
| `Rollback.DiscardKeepsNothing` | badgerTrie/smt_tools.go:65-73 | one key inserted and committed, then deleted and discarded: the trie stays empty |
| `Memory.MemoryTrie.Update` | badgerTrie/memoryt.go:11-18 | whatever was asked before, a batch is refused exactly when an empty map turns it away, and for its reason; the reply to any other batch with its keys in order is the root of every canonical trie that holds what the batch names, and there is one |
| `Memory.SameReplyIff` | badgerTrie/memoryt.go:11-18 | two such batches get the same root if and only if they name the same map |
| `Reads.GetIsLookup` | badgerTrie/smt_tools.go:27-47 | `get` through batches, from any slot, is the descent in the tree, and never asks for a bit past the key |
| `Reads.LoadChildrenTree` | badgerTrie/smt.go:428-452 | `loadChildren` gives the two children of the node, or the key and value of a shortcut, within a batch and across batches |
| `Reads.MerkleProofIsPath` | badgerTrie/smt_merkle_proof.go:76-117 | `merkleProof` returns the siblings of the descent and what it ends at |
| `Proofs.InclusionComplete` | badgerTrie/smt_merkle_proof.go:120-134 | the proof of a present key verifies with its value |
| `Proofs.NonInclusionComplete` | badgerTrie/smt_merkle_proof.go:138-160 | on a homed trie the proof of an absent key verifies if and only if the trie is not empty |
| `Proofs.ClimbSound` | badgerTrie/smt_merkle_proof.go:126-134 | a climb with any path that ends in a tree's digest started at the digest of the subtree at that depth |
| `Proofs.InclusionSound` | badgerTrie/smt_merkle_proof.go:120-134 | any accepted path of at most 256 digests means the key has that value |
| `Proofs.NonInclusionSoundIff` | badgerTrie/smt_merkle_proof.go:138-160 | an accepted absence proof means absence if and only if the proof key is not the key |
| `Proofs.PresentKeyPassesAsAbsent` | badgerTrie/smt_merkle_proof.go:138-160 | with the key as its own proof key every present key is accepted as absent |
| `Proofs.VerifyNonInclusion` | badgerTrie/smt_merkle_proof.go:138-160 | the loop over bits compares the two keys on the length of the path |
| `Bits.BitSetAt` | badgerTrie/util.go:62-68 | setting a bit sets that bit and no other |
| `Bits.BitValue` | badgerTrie/util.go:62-68 | a bit is set if and only if it is 1 as a binary digit of the byte's number, the first bit of a byte being the most significant |
| `Compress.CompressPath` | badgerTrie/smt_merkle_proof.go:49-68 | the loop keeps the digests that are not the default, and exactly their binary digits of the bitmap are 1 |
| `Compress.ExpandKept` | badgerTrie/smt_merkle_proof.go:49-68 | expanding the kept digests by the bitmap gives the path back |
| `Compress.ClimbCExpands` | badgerTrie/smt_merkle_proof.go:176-191 | checking any bitmap and digests computes the root of the path they expand to |
| `Compress.CompressedClimb` | badgerTrie/smt_merkle_proof.go:176-191 | for every path, key and leaf the compressed form leads to the same root as the full path |
| `Compress.VerdictsC` | badgerTrie/smt_merkle_proof.go:163-217 | compressed checks accept exactly what the plain ones accept on the expanded path |
| `Compress.VerifyNonInclusionC` | badgerTrie/smt_merkle_proof.go:195-217 | the loop of the compressed absence check, against the plain check |
| `Codec.SerializeBatch` | badgerTrie/trie_cache.go:51-64 | binary digit i-1 of the bitmap is 1 exactly for filled slot i, digit 31 for a shortcut batch, and the filled slots follow in order |
| `Codec.ParseBatch` | badgerTrie/smt.go:481-521 | the loops give a batch if and only if the bytes decode to it, and refuse all other bytes |
| `Codec.ParsedIff` | badgerTrie/smt.go:481-521 | bytes decode to a batch if and only if they begin with a bitmap of its filled slots and these slots in order, or with bit 31 and the key and value of a shortcut batch |
| `Codec.EncodedLength` | badgerTrie/trie_cache.go:51-64 | four bytes and 33 for every filled slot |
| `Codec.RoundTripIff` | badgerTrie/smt.go:481-521 | decoding an encoded batch gives it back if and only if it is regular, or a shortcut batch of a key and a value alone |
| `Formats.StoredRoundTrip` | badgerTrie/trie_cache.go:28-35 | every batch a trie stores, in whatever 32-byte form of its digests, is read back as it was written |
| `Layers.VerifyNodeIff` | badgerTrie/smt.go:526-607 | every slot the check goes into, in any batch, is accepted with its hash exactly when it is sound and hashes to what is expected; indices past the end of a slot are an outcome of their own |
| `Layers.VerifyBatchIff` | badgerTrie/sync.go:37-44 | any batch that can be parsed is accepted at a layer if and only if its recursive hash at that layer's heights is the root, shortcut batches included |
| `Layers.VerifyBatchPanics` | badgerTrie/smt.go:526-607 | the check indexes past the end of a slot if and only if, behind intact slots, one it goes into is missing, is a shortcut without key or value, or is the root of a batch with nothing two levels down; so always on an empty batch |
| `Layers.SameWords` | badgerTrie/smt.go:526-607 | equal recursive hashes of complete nodes mean equal digests in every slot below |
| `Layers.AcceptedSame` | badgerTrie/sync.go:37-44 | two complete batches accepted for one root and layer have the same mark and hold the same digests, so a shortcut batch never stands in for another |
| `Received.WordsIff` | badgerTrie/sync.go:37-44 | an accepted batch holds the digests the trie has there if and only if it is complete |
| `Received.MirrorsIff` | badgerTrie/sync.go:37-44 | to reads it is the trie's own batch if and only if it is neat |
| `Received.CutOffAccepted` | badgerTrie/smt.go:575-590 | a batch cut off after two levels is accepted at every layer and hands two digests on |
| `Received.CutOffDiffers` | badgerTrie/smt.go:575-590 | the genuine batch is accepted for the same root and holds other digests |
| `Received.CutOffReads` | badgerTrie/smt_tools.go:27-47 | with the cut-off batch in the table reads below it find nothing |
| `Received.NeatAnswer` | badgerTrie/sync.go:37-55 | an accepted neat batch mirrors the trie's own and reports the same next roots and shortcuts |
| `Received.MirrorReads` | badgerTrie/smt_tools.go:27-47 | a table of mirrors answers every read with what the tree holds |
| `Sublayers.InteriorNodesAre` | badgerTrie/smt.go:609-686 | the interior nodes reported are exactly the roots of the next batches, left to right |
| `Sublayers.FinalLeafNodesAre` | badgerTrie/smt.go:777-813 | the leaves reported are exactly the shortcuts the batch holds |
| `Sublayers.StoredSound` | badgerTrie/smt.go:526-607 | a stored node is sound and complete and hashes to its digest |
| `Sublayers.GenuineAccepted` | badgerTrie/sync.go:37-55 | every stored batch of a trie is accepted at its own layer and reports the next roots and its own shortcuts |
| `Sublayers.LeavesOnce` | badgerTrie/smt.go:777-813 | the leaves of a homed tree are the pairs of its map, each once |
| `Worklists.LeavesSplit` | badgerTrie/smt.go:609-686 | the shortcuts of a batch and the keys below the next batches partition the keys below that batch |
| `Worklists.HeldIff` | badgerTrie/smt.go:455-478 | a table has a tree if and only if it has every batch of it |
| `Sync.Syncer.StoreSnapShotNode` | badgerTrie/sync.go:22-92 | bytes that do not parse, a negative layer and a batch that fails the check are refused with nothing stored; an accepted batch is stored under its root and read for what it refers to |
| `Offers.RemainingIff` | consensus/lstate/fastsync.go:989-1037 | after any offers nothing is outstanding if and only if some offer for the root is accepted and later ones do the same for every batch below it |
| `Offers.LayersServe` | consensus/lstate/fastsync.go:989-1037 | acceptable offers for every batch of the trie, in the order of their layers, are enough |
| `Sync.GenuineOffers` | badgerTrie/sync.go:37-44 | offers of the trie's own batches are neat |
| `Sync.Syncer.Answer` | badgerTrie/sync.go:57-92 | any neat batch is refused and its item stays, or is stored as a mirror of the trie's and its item is replaced by exactly those below it |
| `Sync.Syncer.Receive` | consensus/lstate/fastsync.go:989-1037 | offers from anybody, in any order, accepted or not: the run is neat if and only if every accepted offer for an outstanding item is; then what is outstanding, the batches stored and the leaves handed out are what the offers make of the tree, and nothing is outstanding if and only if the offers serve the root; once nothing is, the table holds mirrors of all batches and the leaves are the trie's |
| `Sync.Syncer.Run` | badgerTrie/sync.go:22-92 | with genuine answers, from the root, items taken in any order: the run ends, every batch is accepted, exactly the trie's batches are stored, each the one its digest names, and the leaves handed out are the trie's |
| `Sync.SyncedMap` | badgerTrie/sync.go:22-92 | for a homed trie those leaves are the pairs of the map, each once, and the rebuilt table answers every read with what the map holds |
| `Walk.WalkOne` | badgerTrie/smt.go:1052-1106 | a worker visits its batch and the shortcut batches it leads to, and passes the others on |
| `Walk.WalkNodes` | badgerTrie/smt.go:887-1049 | in any order exactly the batches of the trie are visited |
| `Walk.SnapShot` | badgerTrie/smt_tools.go:77-90 | the copy of a non-empty trie, just committed or just opened at its root, denotes the same tree, has its root recorded for the height, and answers every read as the original |
| `Numerals.DigitsIff` | dynamics/update.go:116-152 | a string is read as a number if and only if it is its decimal form after any number of zeros |
| `Numerals.LeadingZeros` | dynamics/update.go:116-152 | leading zeros change nothing |
| `Numerals.RefusedIff` | dynamics/update.go:116-152 | a string is refused if and only if it is empty or has a character that is no digit |
| `Numerals.SignedIff` | dynamics/update.go:128-152 | with signs: a plus is taken, a minus with zero alone |
| `Params.NumberIff` | dynamics/update.go:116-152 | for each field, an update carries a number if and only if its value is a numeral of it: unsigned and below 2^32, with a sign and below 2^63, or with a sign and unbounded |
| `Params.RawStorage.UpdateValue` | dynamics/rawstorage.go:74-167 | an update is taken if and only if its value stands for a number of its field; the field gets that number, every other base field stays, derived fields stay what their base fields give; otherwise nothing changes |
| `Params.WrapIs` | dynamics/rawstorage.go:216-258 | duration arithmetic gives the one 64-bit number that differs by a multiple of 2^64 |
| `Params.CoherentMeans` | dynamics/rawstorage.go:195-258 | without overflow the derived fields are three quarters of the message time, the sum of the step times and five halves of that, rounded down |
| `Params.ReplayFields` | dynamics/rawstorage.go:74-167 | after replaying a log each base field holds the last number written to it by that epoch, or its standard value |
| `Params.ReplayQuiet` | dynamics/storage.go:388-435 | epochs without updates change nothing |
| `Spans.StepReads` | dynamics/storage.go:165-342 | what a read gives after one update, at every epoch, against what it gave before: unchanged before the update and within a gap it falls into, the update applied elsewhere, the hidden parameters brought out where it meets a hidden node of its own epoch |
| `Spans.UpdateIff` | dynamics/storage.go:113-342 | if all epochs were answered with the replay so far, they are after one more update if and only if it falls on a node or past the head, or changes nothing in its gap, or brings out the same parameters |
| `Spans.RunIff` | dynamics/storage.go:113-342 | the answers are the replay throughout a run if and only if that holds of every update when it arrives |
| `Spans.TopAnswers` | dynamics/storage.go:113-342 | in every run whatever, the head and all later epochs are answered with the replay |
| `Spans.TwoInGap` | dynamics/storage.go:238-342 | of two updates into one gap only the second takes effect there, unless they have the same epoch, when both do |
| `Spans.NeverInGaps` | dynamics/storage.go:165-342 | runs whose updates fall on nodes or past the head are answered right throughout |
| `Spans.BetweenCanLose` | dynamics/storage.go:238-342 | updates at epoch 5 and then 3: some epoch is not answered with the replay |
| `Epochs.LoadBacked` | dynamics/storage.go:388-435 | the walk back ends at the last node it can find at or before the epoch |
| `Epochs.LoadReads` | dynamics/storage.go:388-435 | so loading from the list of any run reads its spans |
| `Epochs.SplicedLinked` | dynamics/node.go:103-133 | relinking the neighbours keeps the list strictly ordered and mutually linked, with exactly one epoch more and all other values kept |
| `Epochs.AfterGapped` | dynamics/storage.go:165-342 | every update keeps the form of the list: links back strictly down the found nodes, links on to the next one or to one hidden node that leads there; the first epoch stays, the head moves only for a later update |
| `Epochs.AfterView` | dynamics/storage.go:165-342 | refinement: splice, node written back and rewrite of all later nodes come to exactly one step of the spans, wherever the update falls |
| `Epochs.TouchStep` | dynamics/storage.go:311-339 | rewriting one node and going on to the next rewrites all nodes the links lead to |
| `Store.Storage.LoadRawStorage` | dynamics/storage.go:395-435 | the loop back from the head, with its error cases |
| `Store.Storage.LoadStorage` | dynamics/storage.go:352-386 | on every reachable storage the parameters loaded are those the spans of the run give, for every epoch but zero; the log replayed up to the epoch if every update was understood, or from the head on |
| `Store.Storage.AddNodeHead` | dynamics/storage.go:521-564 | an invalid, misplaced or too early node is refused and changes nothing; otherwise the old head and the new one are linked and the head moves |
| `Store.Storage.AddNodeSplit` | dynamics/storage.go:566-595 | an invalid node or one not between the two is refused and changes nothing; otherwise the three nodes are relinked |
| `Store.Storage.AddNode` | dynamics/storage.go:441-519 | on the list of any run: a malformed, duplicate or too early node is refused with the storage unchanged; any other is spliced in and found by walks back with exactly that epoch more, the head right; a well-formed list stays well formed |
| `Store.Storage.Propagate` | dynamics/storage.go:311-339 | the loop forward rewrites exactly the first node and those its links lead to |
| `Store.Storage.UpdateStorageValue` | dynamics/storage.go:165-342 | both loops, on the list of any run: the table is `After`, wherever the epoch falls |
| `Store.Storage.UpdateStorage` | dynamics/storage.go:113-158 | epoch zero and exactly the values that stand for no number of their field are refused and change nothing; after any other update, in any run, the list shows the spans of the longer log |
| `Store.CreatedView` | dynamics/linkedlist.go:60-78 | the list made for the first update shows the spans of the empty log |
| `Workers.NeededDone` | peering/p2pbus.go:306-318 | a success never brings the maximum back-off nearer |
| `Workers.NeededDeadline` | peering/p2pbus.go:320-352 | a deadline brings it nearer by at most one |
| `Workers.Bus.OnDone` | peering/p2pbus.go:306-319 | what a success does, keeping the controller's invariant |
| `Workers.Bus.OnDeadline` | peering/p2pbus.go:320-334 | what a deadline does up to offering a kill; at the maximum back-off it only asks for the close |
| `Workers.Bus.TakeReport` | peering/p2pbus.go:301-355 | one turn of the loop, by report; other errors change nothing |
| `Workers.Bus.SendKill` | peering/p2pbus.go:335-341 | an idle worker goes; after the last one the back-off rises and the controller waits |
| `Workers.Bus.WakeUp` | peering/p2pbus.go:342-348 | one worker after the wait |
| `Workers.Bus.constructor` | peering/p2pbus.go:226-252 | two workers, nothing reported |
| `Workers.Bus.Step` | peering/p2pbus.go:226-374 | what each event of the controller, its workers and its reporters does, and that nothing else changes |
| `Workers.Bus.Run` | peering/p2pbus.go:226-374 | under every schedule, for every limit: at the head of the loop between one and the limit workers, all alive, metric short of its thresholds, back-off at most ten; the controller asks for the close only after absorbing 24 deadlines, so never with fewer than 25 sent |
| `Workers.Exhaust` | peering/p2pbus.go:300-356 | 25 deadline reports are enough, so the bound is reached |
| `Peers.RecordedAdd` | peering/active.go:52-72 | recording a connection under a fresh pid keeps peers, pids and exit handlers matched |
| `Peers.ActivePeerStore.Add` | peering/active.go:52-72 | a closed connection is replaced; against a live one the new connection is closed and nothing else changes |
| `Peers.ActivePeerStore.OnExit` | peering/active.go:33-42 | an exit handler removes its own connection if it is still the one recorded, and never another |
| `Peers.ActivePeerStore.OnShutdown` | peering/active.go:43-48 | on shutdown it closes the connection and leaves the store alone |
| `Peers.ActivePeerStore.Del` | peering/active.go:75-86 | the peer and its pid go, its connection is closed |
| `Peers.InactivePeerStore.Add` | peering/inactive.go:31-38 | a peer is listed unless it is cooling down |
| `Peers.InactivePeerStore.Del` | peering/inactive.go:41-49 | a listed peer goes and cools down |
| `Peers.InactivePeerStore.Backoff` | peering/inactive.go:52-68 | a cool-down entry and its one timer |
| `Peers.InactivePeerStore.RandomPop` | peering/inactive.go:72-92 | some listed peer goes and cools down; none only if none is listed |
| `Peers.InactivePeerStore.TimerFires` | peering/inactive.go:61-66 | a timer ends exactly its own cool-down, which is always still there |
| `Peers.PeerManager.BeginP2P` | peering/peermanager.go:332-334 | the connection joins the active peers under the lock |
| `Peers.PeerManager.EndP2P` | peering/peermanager.go:335 | its peer leaves the inactive ones before the lock is given up |
| `Peers.PeerManager.BeginOffer` | peering/peermanager.go:295-297 | an address is looked up under the lock |
| `Peers.PeerManager.EndOffer` | peering/peermanager.go:298-299 | it is listed unless its peer was active or cools down |
| `Peers.PeerManager.Step` | peering/peermanager.go:285-346 | what each step of the goroutines does to the lock and the two stores |
| `Peers.PeerManager.Run` | peering/peermanager.go:285-346 | under every interleaving: no peer is active and inactive while the lock is free, none is inactive and cooling down, peers and pids match |

## Left out

- Requests.RequestMet: homed tries, as `Strays.DeletionLost` and `Strays.InsertLost` show it must be; on other tries `Apply` and `Smt.SMT.Update` still say exactly which tree results.
- Smt.SMT.Update: keys and values are 256 bits by their types, so the two length checks of the source are not stated; a non-empty trie is given keys in order, as its documentation asks, because nothing in it sorts or checks them.
- Smt.SMT.UpdateParallel: the three bodies `updateLeft`, `updateRight` and `updateParallel` are one; each goroutine's accesses are recorded while it runs alone and then interleaved in every way.
- Smt.SMT.LoadBatch: batches in the table are kept as slots, the bytes they are stored as are the subject of `Codec`; a database that fails, and a digest that is missing from it, are not modelled.
- Compress.VerifyNonInclusionC: a bitmap or list of digests too short for its length makes the source index past the end and is outside its precondition.
- Sync.Syncer.Receive: the receiver does not check that a batch is neat, so the promises are for runs in which every accepted batch is; the table of pending digests is a list of items, all copies of an item being answered at once; downloads and retries are left out; `FinalizeSnapShotRoot` only records a height and its root.
- Walk.WalkNodes: a worklist in any order; channels, cancellation and draining of errors in `walkNodes` are left out.
- Store.Storage.UpdateStorage: which error a value that does not parse gives is left open; copies through JSON are identities; the start channel and the locks are left out.
- Peers.ActivePeerStore.Add: pids are fresh and not zero; the source draws them at random from 64 bits and relies on their not repeating.
- Peers.PeerManager.Run: dialling, handshakes and the gossip channel maps are left out; a dialled peer comes back as a connection event.
- Workers.Bus.Run: the channel of reports has no capacity here, so every capacity is covered; requests themselves are not modelled.
- Slices that share backing arrays: keys and values of a request are values here.
- `getUnsyncedNodes`, which nothing uses, and `deleteOldNode`, which does nothing.
- Real hashing, signatures, transport, remote calls, block and transaction handling.
