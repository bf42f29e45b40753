# Verification of the wallet engine

A Dafny model of the parts of the wallet engine that keep value, positions and history, and
proofs about it. `dafny verify dfyconfig.toml` verifies the whole project.

The model has one module per component:

- **Numbers and text**: `Positional` (digits in any base), `Hex` (hex and decimal text), `Bits`
  (exclusive or), `Seqs`, `Wrappers`.
- **Addresses**: `Bech32mChecksum`, `BitGroups`, `Bech32m`, `Address`.
- **Note selection**: `Notes`, `Batches`, `SpendingSolutions`, `SpendingTheorems` (spreading an
  output over trees and batches), `SimpleSelection` (one tree).
- **Unshielding**: `Requests` (change, outputs, requests), `SpendableNotes` (balances by tree and the
  selection among them), `Unshield` (from stored notes to the request, with the broadcaster fee).
- **Merkle trees**: `DenseTree` (the complete tree, the reference), `SparseLevels` (the pruned
  build), `MerkleProofs`, `SparseMerkle`, `LeafStore`, `TxidTree`.
- **Ordered-key store**: `KeyOrder`, `PebbleStore`, `IndexRecords` (its commitments and nullifiers refine
  the plain maps of `EventIndex`).
- **Syncing**: `BlockScan`, `Checkpoints`, `WalletLedger`, `WalletHistory`, `WalletStore`,
  `EventIndex`, `WalletContents` (what the stored notes say about a chain), `WalletSync`, `LocalRescan`.
- **V3 accumulator**: `Accumulator`, `AccumulatorTheorems`.
- **Annotations**: `WalletSource`, `CtrBlocks`, `Annotation`, `AnnotationTheorems`.

Conventions of the model: a Go error return is `None` or `Err`; a Go map that is walked in an
unspecified order is walked in any order (`:|`); 64-bit arithmetic that can wrap is written out;
Poseidon, AES and note decryption are arbitrary functions that are passed as parameters, so every
theorem holds whatever they compute; random texts, block heads and the answers of a node are
parameters too. Methods with loops follow the loops of the source and are proved equal to
specification functions, about which the lemmas are proved.

What the proofs showed about the code, beside what it promises:

- A tree that is short of the required amount discards the selection of an earlier tree, because
  the loop over trees does not stop (pkg/transaction/solutions.go:94-101): `SelectionIff` says
  exactly when a selection is made, `ShortTreeDiscards` is a concrete case.
- An unshield of everything is granted only when the last tree holds all value, in at most ten notes
  (pkg/sdk/private_transactions.go:861-873): `EverythingIff`.
- Rolling back a checkpoint that does not exist creates one, which can lie ahead of the start
  block of its scan (pkg/events/checkpoint.go:96-100): `RollbackTakesMinimumIff`. The wallet is then in
  step with its checkpoint exactly when nothing that happened in between is missing
  (`RollbackWalletSync`), which for a new wallet means that nothing happened (`NewWalletIff`).
- A confirmed block 2^64-1 makes the next scan start at block 0 (pkg/events/checkpoint.go:173):
  `LastBlockWrapsAround`.
- The chain (255, 2^56-1) is read back from an address as no chain
  (pkg/address/address.go:97-130): `ChainOfNetwork`.
- Annotations give wallet sources back if and only if their number is below 2^112, or from 2^116 on and
  below 2^120, or from 2^124 on and below 2^128, because the code that reads them cuts one byte off
  (pkg/crypto/memo.go:164-208); all sources of up to 21 characters are below 2^112:
  `NameSurvivesIff`, `ShortNamesSurvive`.
- A V3 batch that crosses the end of a tree places commitments outside of it
  (pkg/events/v3.go:362-366): `InTreesIff`. Positions are then no longer consecutive exactly when another
  commitment follows: `ConsecutiveIff`.
- A TXID rollback leaves holes exactly when an entry that stays comes after one that goes
  (pkg/txid/merkletree.go:169-189): `RollbackLeavesNoHolesIff`.

## Model

| member | source | states |
|---|---|---|
| Notes.KeyIsInjective | pkg/transaction/solutions.go:320-322 | two notes have the same exclusion key only if they agree on transaction and position |
| Notes.SortedKeeps | pkg/transaction/solutions.go:314-318 | sorting notes keeps the notes, their keys and their sum |
| Notes.SortedIsAscending | pkg/transaction/solutions.go:314-318 | the sorted notes ascend by value |
| Notes.FilterAvailable | pkg/transaction/solutions.go:243-252 | dropping zero notes and then excluded ones is one filter by value and key |
| Batches.FindNextSolutionBatch | pkg/transaction/solutions.go:242-290 | the batch is the note of the exact value, or the smallest notes until they suffice or are ten |
| Batches.BatchExists | pkg/transaction/solutions.go:242-270 | there is a next batch exactly when a spendable note is left in the tree |
| Batches.BatchIsSelection | pkg/transaction/solutions.go:242-270 | a batch holds one to ten available notes, none of them and no key more often than the tree |
| Batches.BatchIsTight | pkg/transaction/solutions.go:242-290 | a batch that suffices exceeds the target by less than its largest note; one that does not is full or takes everything |
| Batches.ExactNoteAlone | pkg/transaction/solutions.go:255-259 | when a note of exactly the required value is available, the batch is one such note |
| Batches.BatchIsSmallest | pkg/transaction/solutions.go:260-268 | otherwise no available note that is left out is smaller than one of the batch |
| SpendingSolutions.CreateSpendingSolutionsForValue | pkg/transaction/solutions.go:112-174 | the nested loops end and give groups, remaining outputs and exclusions of the fill, or an error exactly when something stays unfilled; with the special cases of no output, a missing, a zero and a negative value; a second output may lack its value unless the first is overfilled |
| SpendingTheorems.SolutionsAreSound | pkg/transaction/solutions.go:138-174 | on success the primary amounts sum to the primary value, delivered plus remaining equals requested, each group spends one to ten spendable notes of one tree and can compute its change, no two groups share a key, and the last group exceeds the need by less than its largest note |
| SpendingTheorems.NoKeyIsSpentTwice | pkg/transaction/solutions.go:138-174 | when the spendable notes have distinct keys, no key occurs twice among all notes of all groups, within one group or across groups, and exactly these keys are added to the exclusions |
| SpendingTheorems.EveryOutputIsServed | pkg/transaction/solutions.go:145-167 | every group pays the first requested output, by its id and token, and only the last group may also pay the second, when the first is overfilled; for every requested output what is delivered to it and what remains of it is what was requested |
| SpendingSolutions.SpendBatch | pkg/transaction/solutions.go:145-166 | one pass excludes the notes of the batch, adds its group, and gives change of the last group to a second output |
| SpendingTheorems.PassConserves | pkg/transaction/solutions.go:145-166 | what a pass hands over is what leaves the remaining outputs, and its change is not negative |
| SpendingTheorems.KeysAreDistinctIff | pkg/transaction/solutions.go:320-322 | notes have distinct keys exactly when they differ in transaction or position |
| SpendingTheorems.SucceedsIffFunded | pkg/transaction/solutions.go:138-174 | for distinct keys, it succeeds if and only if the spendable notes of all trees are worth the primary value, however many batches that takes |
| SpendingTheorems.RemoveBatch | pkg/transaction/solutions.go:145-147 | excluding a batch takes exactly its value out of what is available |
| SimpleSelection.FindExactSolutionsOverTargetValue | pkg/transaction/solutions.go:67-89 | the offer of one tree: empty when short, one exact note, the smallest notes that suffice, or nothing when that takes more than ten |
| SimpleSelection.OfferIff | pkg/transaction/solutions.go:67-89 | a tree refuses exactly when it is worth enough but neither one exact note nor its ten smallest notes suffice, and offers an empty selection exactly when it is short |
| SimpleSelection.OfferSuffices | pkg/transaction/solutions.go:67-89 | notes that are offered suffice, belong to the tree, and the largest of them is needed |
| SimpleSelection.ExactNoteIsOffered | pkg/transaction/solutions.go:71-75 | when a note of exactly the required value is available, one such note is offered alone |
| SimpleSelection.OfferIsSmallest | pkg/transaction/solutions.go:76-88 | otherwise no note that is left out is smaller than one that is offered |
| SimpleSelection.CreateSimpleSatisfyingUTXOGroup | pkg/transaction/solutions.go:91-110 | the last tree that does not refuse decides |
| SimpleSelection.SelectionIff | pkg/transaction/solutions.go:91-110 | a non-empty selection is made exactly when some tree covers the amount and every later tree refuses; it is worth the amount; there is an error exactly when all trees refuse |
| SimpleSelection.ShortTreeDiscards | pkg/transaction/solutions.go:94-101 | a concrete case in which a later tree with one note of value 1 leaves nothing selected |
| Requests.DummyGroupChangeValue | pkg/transaction/batch.go:309-330 | the change is what comes in less outputs and unshield, and negative change is an error |
| Requests.GenerateTransactions | pkg/transaction/batch.go:177-202 | all requests are made or none, and each one has inputs worth its outputs |
| Requests.GenerateTransactionRequest | pkg/transaction/request.go:124-145 | a request needs at most five outputs, all values, and initial values for every output |
| Requests.ValueIsConserved | pkg/transaction/request.go:254-389 | in every request that is made, input values sum to output values, change and unshield included |
| Requests.RequestSays | pkg/transaction/request.go:254-376 | every request spends the notes of its group, each with its position, random, path and value, under the tree, root and token of the group; it pays every output of the group, the change to the own wallet, and the unshielded value to its address, in this order and with their tokens, and nobody else, and uses the initial values of its outputs in order |
| SpendableNotes.AddToTree | pkg/sdk/private_transactions.go:998-1011 | a note is added to the balance and the notes of its tree, after missing trees have been added |
| SpendableNotes.SpendableTokenTreeBalances | pkg/sdk/private_transactions.go:955-1015 | offered in every tree, each once, are exactly the notes of that tree that have version V2, no spending transaction, a positive value, a random, a token hash that is the wanted one and the spendable bucket; there is an error exactly when an unspent note has no token hash that can be computed, or is of the token and worth something but has no random |
| SpendableNotes.FilteredIff | pkg/sdk/private_transactions.go:967-984 | the notes offered are exactly those that may be spent |
| SpendableNotes.OfTokenIff | pkg/sdk/private_transactions.go:970-978 | a note is of the token when its stored hash, or the computed one when none is stored, is the wanted hash but for case and prefix |
| SpendableNotes.SelectSpendableUTXOs | pkg/sdk/private_transactions.go:939-953 | the stored notes that are spent are those selected, are spendable, are pairwise different, lie in one tree and are worth the amount of the selection |
| SpendableNotes.LastCoversAllIff | pkg/transaction/solutions.go:91-110 | the whole balance is covered exactly by a last tree that holds all of it in at most ten notes |
| Unshield.BuildUnshieldTokenBatchInputs | pkg/sdk/private_transactions.go:1027-1102 | inputs are built exactly when notes are selected, share a root and are worth the amount; change randoms and initial values are present exactly when there is change |
| Unshield.PreparedUnshield.ApplyBroadcasterFee | pkg/sdk/broadcaster.go:253-282 | the fee becomes the first output of the first group, with its own initial values first |
| Unshield.UnshieldIsRequested | pkg/transaction/batch.go:286-307 | without a fee the request never lacks a random or an initial value, and pays change and amount |
| Unshield.FeeIsRequestedIff | pkg/transaction/batch.go:286-330 | with the fee the request is made if and only if the notes are worth amount and fee, and pays fee, change and amount |
| Unshield.PrepareUnshield | pkg/sdk/private_transactions.go:823-880 | from stored notes to the final request: made exactly when no note stops the search, the spendable notes allow a plan for amount and fee, and the planned notes share a root; it spends only stored notes that may be spent, each once and with its position, random, value and proof, pays the fee to the broadcaster, the change to the own wallet and the amount to the address, encrypts fee and change with the initial values drawn for them, and conserves value |
| Unshield.PlanIff | pkg/sdk/private_transactions.go:861-873 | there is a plan exactly when the amount is positive and some tree covers amount and fee while every later tree would take more than ten notes |
| Unshield.EverythingIff | pkg/sdk/private_transactions.go:861-873 | a wish without an amount is granted exactly when the balance exceeds the fee and the last tree holds all of it in at most ten notes |
| Unshield.BalancesAreSums | pkg/sdk/private_transactions.go:998-1011 | the balance of every tree is the sum of the notes deposited in it |
| Hex.BigIntToHexRoundTrip | pkg/crypto/bytes.go:74-93 | fixed-width hex text reads back as the number modulo 16 to its width |
| Hex.HexOfParsed | pkg/crypto/bytes.go:50-93 | hex text of full width survives a trip through the number it denotes |
| Hex.FormatIsIdentity | pkg/crypto/bytes.go:95-117 | lower-case hex text of the right width is its own formatted form |
| Hex.DecodeOfEncode | pkg/crypto/bytes.go:119-140 | bytes written as hex text are read back |
| Hex.EncodeOfDecode | pkg/crypto/bytes.go:119-140 | lower-case hex text of even length is the text of the bytes it denotes |
| Bech32mChecksum.Polymod | pkg/address/bech32m.go:81-94 | the loop over words and generator bits computes the linear register |
| Bech32mChecksum.StepIsInjective | pkg/address/bech32m.go:81-94 | one step of the register on 30 bits and a 5-bit word can be undone |
| Bech32mChecksum.ChecksumVerifies | pkg/address/bech32m.go:96-110 | for words of any length, appending the checksum verifies |
| Bech32mChecksum.ChecksumIsUnique | pkg/address/bech32m.go:96-110 | six words verify behind the data if and only if they are its checksum |
| Bech32mChecksum.BurstsAreDetected | pkg/address/bech32m.go:107-110 | two strings that both verify cannot differ within a stretch of six words only; in particular no single word can be changed |
| BitGroups.ConvertBits | pkg/address/bech32m.go:112-137 | the bit accumulator loop regroups the bits, with the padding rules of both directions |
| BitGroups.PaddedBits | pkg/address/bech32m.go:112-137 | padded regrouping keeps the bits and adds zeros only to fill the last group |
| BitGroups.RegroupingInverts | pkg/address/bech32m.go:112-137 | 5-to-8 without padding accepts exactly what 8-to-5 with padding produces, and inverts it |
| Bech32m.EncodeString | pkg/address/bech32m.go:19-38 | the loop over words writes the prefix, the separator, the regrouped bytes and their checksum |
| Bech32m.DecodeString | pkg/address/bech32m.go:40-67 | a string is decoded or rejected for its case, separator, characters, checksum or padding |
| Bech32m.DecodeOfEncode | pkg/address/bech32m.go:19-67 | what is encoded is decoded to the same prefix and bytes |
| Bech32m.EncodeOfDecode | pkg/address/bech32m.go:19-67 | an accepted string of address length is the encoding of what it decodes to |
| Bech32m.NeighboursAreRejected | pkg/address/bech32m.go:40-67 | of two strings that differ within six characters of the data at most one is accepted |
| Address.MaskInPlace | pkg/address/address.go:132-144 | the in-place loop masks every byte of the network id |
| Address.ChainOfNetwork | pkg/address/address.go:97-130 | a chain survives the network id, except (255, 2^56-1), which is read as no chain |
| Address.NetworkOfChain | pkg/address/address.go:97-130 | every network id survives the chain it denotes |
| Address.EncodeIsDefined | pkg/address/address.go:32-55 | an address can be encoded exactly when its key is a non-negative number, its chain fits and its viewing key is hex |
| Address.EncodeOfDecoded | pkg/address/address.go:32-95 | every accepted address string is the encoding of what it decodes to |
| Address.DecodeOfEncoded | pkg/address/address.go:32-95 | what is encoded is decoded to its normal form: key modulo 2^256 in decimal, formatted viewing key, chain except the ambiguous one |
| Address.AddressLayout | pkg/address/address.go:32-55 | the encoded text is version 1, the key in 32 bytes, the network of the chain in 8 bytes whose first seven are masked with the text railgun bit by bit, and the formatted viewing key |
| Address.MaskIsRailgun | pkg/address/address.go:132-144 | the mask is the text railgun |
| MerkleProofs.CalculateRoot | pkg/merkletree/merkletree.go:48-73 | the loop over elements hashes along the bits of the index, and fails when a text is not a number |
| MerkleProofs.VerifyProof | pkg/merkletree/merkletree.go:75-91 | a proof is accepted when the roots agree after normalisation |
| MerkleProofs.AcceptedProofsCollide | pkg/merkletree/merkletree.go:48-81 | two accepted proofs of one root with the same length and index bits but different leaf field elements give two distinct inputs with the same hash |
| SparseLevels.Build | pkg/utxotree/store.go:548-590 | for all leaves and every visiting order, each node read from the pruned levels is the node of the complete tree |
| SparseMerkle.BuildTreeLevels | pkg/utxotree/store.go:548-581 | the build fails exactly when a leaf is invalid |
| SparseMerkle.Root | pkg/utxotree/store.go:255-269 | the root is the root of the complete tree of 2^16 leaves |
| SparseMerkle.ParentIsHash | pkg/merkletree/merkletree.go:44-46 | every inner node is the hash of its two children reduced into the field, the left one first |
| SparseMerkle.LeafIsNumber | pkg/utxotree/store.go:548-590 | a leaf is the number of its stored hash, a missing one the zero value |
| SparseMerkle.ProofFromLeaves | pkg/utxotree/store.go:518-546 | a proof is made exactly for stored indices of valid trees, and lists the siblings in the complete tree and its root |
| SparseMerkle.ProofIsAccepted | pkg/utxotree/store.go:518-546 | the proof made for a leaf under its own index is accepted by the verifier |
| SparseMerkle.RootBindsLeaves | pkg/merkletree/merkletree.go:48-81 | two trees with the same root hold the same field element at every index, or the hash has a collision |
| DenseTree.ClimbReachesAncestor | pkg/merkletree/merkletree.go:57-71 | hashing a node with its siblings leads to its ancestor |
| LeafStore.MemoryStore.UpsertLeaves | pkg/utxotree/store.go:204-228 | all leaves are stored, or none when one is invalid |
| LeafStore.MemoryStore.RollbackToBlock | pkg/utxotree/store.go:283-303 | exactly the leaves of earlier blocks stay, and trees without leaves go |
| LeafStore.MemoryStore.Proof | pkg/utxotree/store.go:271-281 | there is a proof for every stored leaf; it lists the nodes of the complete tree beside the way up, is accepted, names that leaf and index, and has the root of the tree |
| SparseMerkle.ProofIsUnique | pkg/utxotree/store.go:518-546 | the leaves of a tree determine the proof of an index |
| TxidTree.NextMerkleTreePosition | pkg/txid/merkletree.go:57-83 | for every store, with holes or not, the next position is one more than the largest that is taken, split into tree and index, or an error when the tree number leaves 64 bits |
| TxidTree.AppendedToLaid | pkg/txid/merkletree.go:39-55 | behind entries in a row an append adds the next one, or fails on an invalid entry or a full store |
| TxidTree.LaidAt | pkg/txid/txid.go:12-17 | the leaves occupy exactly the global positions from 0 up to the number of entries, with rollover at 65536 |
| TxidTree.EntryIsStored | pkg/txid/merkletree.go:39-55 | the entry at a global position is stored there with its hash, transaction and block |
| TxidTree.RollbackLeavesNoHolesIff | pkg/txid/merkletree.go:169-189 | a rollback leaves entries in a row exactly when all entries that stay come before all that go |
| TxidTree.Replay | pkg/txid/merkletree.go:39-55 | over any run of appends with non-decreasing blocks and rollbacks the leaves stay in a row from position 0 |
| TxidTree.ForkEqualsDirectBuild | pkg/txid/merkletree.go:39-83 | replaying a fork after a rollback gives the entries of the direct build |
| TxidTree.DirectBuildIsAdmissible | pkg/txid/merkletree.go:39-83 | when a fork can be replayed, the surviving entries and the fork can be appended directly |
| TxidTree.ForkAgreesWithDirectBuild | pkg/txid/merkletree.go:39-189 | a store that replayed the fork and one that was built directly hold the same leaves and give the same root for every tree and the same proof, or none, for every index |
| KeyOrder.PrefixUpperBound | pkg/utxotree/pebble_store.go:826-835 | the bound is the prefix up to its last byte below 0xff, counted up, or none |
| KeyOrder.RangeIsPrefix | pkg/utxotree/pebble_store.go:717-737 | a key lies between a prefix and its upper bound if and only if it starts with the prefix |
| KeyOrder.PaddedOrder | pkg/utxotree/pebble_store.go:762-768 | zero-padded 64-bit numbers are ordered as numbers and are distinct |
| PebbleStore.PlacesAreOrdered | pkg/utxotree/pebble_store.go:762-776 | keys of a namespace are ordered by tree and then by index |
| PebbleStore.NamespacesAreDisjoint | pkg/utxotree/pebble_store.go:20-26 | no key starts with the prefixes of two namespaces |
| PebbleStore.RecordOfTree | pkg/utxotree/pebble_store.go:766-768 | the prefix of a tree selects exactly the leaves of that tree |
| PebbleStore.Store.LoadTree | pkg/utxotree/pebble_store.go:619-630 | the key range of a tree holds exactly its leaves in the plain maps |
| PebbleStore.Store.RollbackToBlock | pkg/utxotree/pebble_store.go:549-577 | five scans delete exactly the records of this and later blocks; for leaves that is the rollback of the plain maps |
| BlockScan.ChunkToIsRight | pkg/events/scanner.go:104-112 | despite 64-bit wrap-around a chunk stays in the range and only the last one is smaller than the chunk size |
| BlockScan.ScanLogChunks | pkg/events/scanner.go:97-131 | a scan succeeds exactly when the range is not empty and none of its chunks fails, and then delivers the logs of the range, whatever the chunk size |
| BlockScan.ChunksTile | pkg/events/scanner.go:97-131 | the chunks of a range lie end to end from its first to its last block, and all but the last have exactly the chunk size |
| BlockScan.TilesPartition | pkg/events/scanner.go:97-131 | every block of the range lies in exactly one chunk, and no other block in any |
| BlockScan.LogsAreInOrder | pkg/events/scanner.go:97-131 | the logs of a range are those of its first block, then of the second, and so on to the last |
| Checkpoints.ScanFromCheckpoint | pkg/events/checkpoint.go:160-187 | a scan succeeds exactly when the key is set, the head is known and no chunk of what is due fails; it delivers the blocks from the checkpoint to the last confirmed one and then moves the checkpoint, or changes nothing |
| Checkpoints.RunScans | pkg/events/checkpoint.go:160-187 | over any run of failed and successful scans the checkpoint ends where the successful ones bring it, every block from the start to it is delivered exactly once, in order, and none without enough confirmations |
| Checkpoints.OneSuccessDelivers | pkg/events/checkpoint.go:160-187 | one scan that gets through delivers everything with enough confirmations at its head, whatever the other scans of the run do |
| Checkpoints.RollbackTakesMinimumIff | pkg/events/checkpoint.go:81-102 | a rollback sets the next block to the minimum exactly when the checkpoint is known or the rollback is not ahead of the start block |
| Checkpoints.LastBlockWrapsAround | pkg/events/checkpoint.go:173 | once block 2^64-1 is confirmed the stored checkpoint is 0, and the next scan delivers every block from 0 on again, those of the first scan included |
| WalletStore.FileStateStore.UpsertTXO | pkg/wallet/file_state_store.go:26-37 | a note is stored under its nullifier, which must not be empty |
| WalletStore.FileStateStore.MarkTXOSpentAtBlock | pkg/wallet/file_state_store.go:69-88 | a stored note gets its spend, anything else is an error and changes nothing |
| WalletStore.FileStateStore.RollbackToBlock | pkg/wallet/file_state_store.go:90-107 | notes of this and later blocks go, spends of these blocks are cleared, all else stays |
| WalletStore.ImportEvents | pkg/wallet/importer.go:47-116 | all notes are stored and then all nullifiers marked, with the exact numbers of stored notes, foreign commitments, marked and unknown spends, or the import stops at the first bad event and a prefix of this work stays; every stored note is as before or that of one of the commitments, with its tree, position, block and transaction and what was decrypted, and every new spend has the transaction and block of one of the nullifiers |
| WalletStore.ImportIsExplained | pkg/wallet/importer.go:578-598 | so it is after every partial import |
| WalletStore.ImportMissesNothing | pkg/wallet/importer.go:84-116 | after a full import every commitment of the wallet has its note, and every stored note whose nullifier was seen is spent by such an event |
| WalletStore.HexReaderIsValid | pkg/wallet/importer.go:601-620 | nullifiers of one's own notes are in the form into which nullifier events are brought |
| WalletLedger.ImportAt | pkg/wallet/importer.go:84-116 | after an import a note is its last receipt, or what it was, marked with the last spend seen |
| WalletLedger.ChunkingIff | pkg/wallet/importer.go:84-116 | importing two chunks equals importing them at once exactly when no note is spent in the first and received unspent in the second |
| WalletLedger.RetryRepairs | pkg/wallet/importer.go:84-116 | importing a chunk again after an import that stopped half-way gives what one import gives |
| WalletLedger.RollbackIff | pkg/wallet/file_state_store.go:90-107 | a rollback gives the import of the earlier events exactly when for every note the last receipt and spend decide whether there are earlier ones |
| WalletHistory.FullImportFollows | pkg/wallet/importer.go:84-116 | importing all events of a range catches up to its end, whatever partial imports came before |
| WalletHistory.RollbackFollows | pkg/wallet/file_state_store.go:90-107 | after a rollback the notes follow every chain that agrees up to that block |
| WalletHistory.FollowingIsExact | pkg/wallet/importer.go:84-116 | notes that follow a chain are, up to the checkpoint, exactly those of one import of all earlier events |
| WalletHistory.ReorgEqualsDirectImport | pkg/wallet/sync.go:208-237 | import of one chain, rollback and import of a fork equals importing the fork's chain directly |
| EventIndex.UtxoIndex.UpsertCommitments | pkg/utxotree/pebble_store.go:79-129 | commitments are indexed at their places in order, all or, when a place or a formatted hash is not valid, none |
| EventIndex.PutCommitmentsAt | pkg/utxotree/pebble_store.go:79-129 | at every place the last commitment listed for it stays, or what was there before |
| EventIndex.UtxoIndex.UpsertNullifiers | pkg/utxotree/pebble_store.go:183-220 | nullifiers are indexed by tree and normal form in order, all or none |
| EventIndex.PutNullifiersAt | pkg/utxotree/pebble_store.go:183-220 | for every tree and normal form the last event listed stays, or what was there before |
| WalletContents.FollowingHolds | pkg/wallet/importer.go:601-720 | notes that follow a chain have, each, a commitment of the chain with their tree, position, block and transaction and with what was decrypted, and are unspent or spent by a nullifier of the chain; all such commitments and nullifiers before the given block are there |
| WalletContents.ImportIsIndexed | pkg/wallet/importer.go:47-83 | after an import the index holds the commitment of every stored note at the tree and position that the note names |
| WalletContents.CutIsIndexed | pkg/wallet/sync.go:208-237 | so it is after a rollback |
| IndexRecords.UpsertV2Commitments | pkg/utxotree/pebble_store.go:79-129 | the batch of the ordered-key store writes every leaf with its commitment, all or none; its records are then those of the plain maps after the same commitments |
| IndexRecords.UpsertNullifiers | pkg/utxotree/pebble_store.go:183-220 | likewise for nullifiers |
| IndexRecords.ListsAre | pkg/utxotree/pebble_store.go:419-493 | listing commitments and nullifiers gives the entries of the plain maps |
| IndexRecords.RollbackToBlock | pkg/utxotree/pebble_store.go:549-577 | a rollback of the ordered-key store is the rollback of leaves, commitments and nullifiers in the plain maps |
| IndexRecords.HexReaderReadsHex | pkg/utxotree/store.go:496-516 | the reader of the program meets what the refinement asks of one |
| IndexRecords.UpsertMatches | pkg/utxotree/store.go:496-516 | after an upsert every indexed commitment has a leaf at its place with its block, its transaction and its formatted hash, and every leaf has its commitment |
| IndexRecords.CutMatches | pkg/utxotree/pebble_store.go:549-577 | so it is after a rollback |
| IndexRecords.ForkIff | pkg/utxotree/pebble_store.go:549-577 | upserting commitments, rolling back and upserting a fork gives the index of the early commitments and the fork exactly when no early commitment is hidden by a later one at its place |
| IndexRecords.OwnPlacesHideNothing | pkg/utxotree/pebble_store.go:79-129 | commitments with places of their own hide nothing |
| IndexRecords.ForkAgreesWithDirectUpsert | pkg/utxotree/pebble_store.go:513-577 | then the forked store and one that was filled directly hold the same leaves and commitments and give the same root for every tree |
| WalletSync.ImportWindow | pkg/wallet/importer.go:47-116 | the import of a range succeeds exactly when every commitment fits a tree and decrypts without error and every nullifier can be formatted; index and notes catch up with the range, or stay in step with where they were, and nothing beyond the range leaves a trace |
| WalletSync.SyncFromCheckpoint | pkg/wallet/sync.go:41-88 | it succeeds exactly when the key is set, the head is known and every chunk of what is due is served and can be imported, and then the checkpoint lies behind the last confirmed block; whatever fails, notes, index and checkpoint are exactly as far as the chunks before |
| WalletSync.SyncAdvances | pkg/wallet/sync.go:41-88 | the checkpoint never moves back, a wallet in step with it stays so, and a success at or beyond the furthest block ever fetched leaves no trace beyond the checkpoint, whatever failed before |
| WalletSync.RangeEnds | pkg/wallet/sync.go:41-88 | the checkpoint reaches the end of a range exactly when every chunk gets through |
| WalletSync.RollbackWalletSync | pkg/wallet/sync.go:208-237 | after a rollback notes and index are in step with the new chain up to the rollback block or where they were; the wallet is in step with its new checkpoint exactly when the checkpoint was known, the rollback is not ahead of the start, or nothing that happened in between is missing |
| WalletSync.NewWalletIff | pkg/events/checkpoint.go:81-102 | an empty wallet is in step with a chain up to a block exactly when the chain has no event before it |
| WalletSync.RunSteps | pkg/wallet/sync.go:41-88 | over every run of attempts that fail anywhere and of reorganisations with their rollbacks, checkpoints, notes and index are as far as the steps bring them; the notes up to the block that is reflected are those of one import of the chain of the moment, and exactly these when nothing further was fetched; every stored note has the fields of its commitment, and the index holds that commitment at the place of the note |
| WalletSync.StepKeepsSyncedIff | pkg/wallet/sync.go:208-237 | a step keeps everything before the checkpoint reflected exactly when it is no rollback ahead of the start without a checkpoint |
| WalletSync.RunKeepsSynced | pkg/wallet/sync.go:41-88 | over every run without such a rollback everything before the checkpoint is reflected |
| WalletSync.CleanIsExact | pkg/wallet/sync.go:41-88 | when nothing beyond what is reflected has left a trace, the stored notes are exactly that import |
| LocalRescan.RescanLocalUTXOTree | pkg/wallet/local_rescan.go:15-57 | a rescan of the index over notes of the chain gives notes that follow it, with the fields of their commitments and spends, and exactly those of one import when nothing later was stored |
| LocalRescan.MarkOwnedSpent | pkg/wallet/local_rescan.go:163-208 | only spends whose nullifier is that of a stored note in normal form are marked; a stored nullifier without a normal form is an error before anything is marked, an event without one is an error at that event |
| LocalRescan.OwnMarksAll | pkg/wallet/local_rescan.go:163-208 | when the stored nullifiers are in normal form, that is what marking all spends does |
| LocalRescan.RescanIsExact | pkg/wallet/local_rescan.go:58-96 | importing everything indexed over notes of the chain rebuilds the notes of incremental import |
| Accumulator.TreasuryFeeMap | pkg/events/v3.go:617-662 | for exactly the tokens listed, the last listed fee is split by the first unshield and the first shield of the token: the side of the smaller value gets the fee times its value over both values, rounded down, and the other side the rest |
| Accumulator.ProcessUpdate | pkg/events/v3.go:240-412 | an update is read exactly when every batch finds its commitments and ciphertexts and every fee that is due is there; the events carry places, slices and fees |
| Accumulator.TransactionHasPlace | pkg/events/v3.go:281-302 | a transaction without commitments that unshields stands at place 99999 of tree 99999, every other one at the cursor |
| AccumulatorTheorems.InTreesIff | pkg/events/v3.go:362-408 | every commitment has a place within a tree exactly when no batch crosses the end of one |
| AccumulatorTheorems.PlacesAreConsecutive | pkg/events/v3.go:250-408 | then the global positions are consecutive from the start, transactions before shields |
| AccumulatorTheorems.ConsecutiveIff | pkg/events/v3.go:362-408 | they are consecutive exactly when no commitment follows a batch that crosses the end of a tree |
| AccumulatorTheorems.TakenIsPrefix | pkg/events/v3.go:256-266 | the slices of the transactions concatenate to a prefix of the commitments of the update |
| AccumulatorTheorems.FeesWithinTreasuryFee | pkg/events/v3.go:333-388 | the fees attributed to all unshields and shields of a token never exceed its treasury fee, nor each side its portion |
| AccumulatorTheorems.FeeIsShare | pkg/events/v3.go:333-388 | the fee of a preimage is the portion times its value over the value of all tokens, rounded down |
| AccumulatorTheorems.SinglePairBearsPortions | pkg/events/v3.go:333-388 | with one unshield and one shield of one token, the unshield event carries the portion of the unshields and its value less that portion, and the shield the portion of the shields |
| WalletSource.EncodeWalletSource | pkg/crypto/memo.go:38-58 | the sum of digits by place is the number of the name, written with an odd number of hex digits |
| WalletSource.DecodeWalletSource | pkg/crypto/memo.go:60-75 | taking off digits gives the characters of the number without leading spaces |
| WalletSource.DecodedOfEncoded | pkg/crypto/memo.go:38-75 | a name comes back in lower case without leading spaces |
| CtrBlocks.ConcatHexBlocks | pkg/crypto/aes.go:142-154 | the blocks become their bytes in a row and the lengths to cut them again |
| CtrBlocks.SplitHexBlocks | pkg/crypto/aes.go:156-164 | bytes are cut into consecutive blocks of these lengths |
| CtrBlocks.XorStreamTwice | pkg/crypto/aes.go:84-129 | applying the cipher stream twice gives the data back |
| CtrBlocks.StreamAddsBits | pkg/crypto/aes.go:84-129 | the stream adds its bits to those of the data, modulo two |
| AnnotationTheorems.CreatedIff | pkg/crypto/memo.go:77-107 | an annotation is created exactly when key and initial value have their lengths, the output type is not negative, the random is hex without a sign and the name has allowed characters, however long it is |
| AnnotationTheorems.AnnotationLayout | pkg/crypto/memo.go:77-107 | behind the initial value stand the type in one byte, the random in fifteen, fifteen zero bytes and the number of the name, each exclusive or the key stream |
| AnnotationTheorems.FieldsComeBack | pkg/crypto/memo.go:77-190 | cutting the ciphertext elsewhere gives the first field whole and the last without its first byte and without what lies behind the third block, for every key, initial value and cipher |
| AnnotationTheorems.AnnotationIsRead | pkg/crypto/memo.go:77-208 | whatever was created, decryption returns the output type modulo 256, the formatted random and the name of the part of its number that is read |
| AnnotationTheorems.NumberIsReadIff | pkg/crypto/memo.go:164-190 | a number is read unchanged if and only if it is below 2^112 or the byte that is cut off is zero, which is from 2^116 on and below 2^120, and from 2^124 on and below 2^128 |
| AnnotationTheorems.NameSurvivesIff | pkg/crypto/memo.go:164-208 | for every annotation that can be created, decryption returns the name, in lower case without leading spaces, if and only if its number is in these ranges |
| AnnotationTheorems.ShortNamesSurvive | pkg/crypto/memo.go:16 | all names of up to 21 characters do, the 16 that are allowed included |

## Left out

- Poseidon, AES, curve arithmetic, GCM and XChaCha, Keccak, proving and signing: arbitrary functions or not modelled; constants of Poseidon are not part of this model.
- Agreement of the nullifiers computed while importing and while spending: a nullifier is an abstract key.
- Persistence, JSON encoding, mutexes and contexts: the file stores are their maps, and each call is one step.
- POI statuses and buckets, sent-commitment and unshield POI events: the spendable bucket is a parameter, the rest does not touch notes or positions.
- The V3 import path: it stores notes and marks nullifiers like the V2 path, and its TXID leaves are the appends of `TxidTree`.
- FileStore and FileMerkleTreeStore: the same maps as the memory stores.
- CreateDummyProof: its root is computed by the function that checks it.
- ToLower of non-ASCII text: addresses and wallet sources are folded in ASCII only, where Go also folds other letters.
- ProcessUpdate: token hashes, note hashes and transaction ids are given as text, so their formatting errors are not modelled; nor are the nullifier events, which are copied one by one.
- GenerateTransactionRequest: errors of receiver keys, note hashes, random texts and encryption are not modelled, as they depend on the cryptography that is left out.
- CreateSpendingSolutionsForValue: a second output without a value is excluded when the first is overfilled, where the source dereferences the missing value and panics.
- SyncFromCheckpoint: the head is before block 2^64-1; there the checkpoint wraps around as LastBlockWrapsAround shows for a scan.
- ImportWindow: the index of unshield events is not modelled, as nothing else reads it.
- calculateBroadcasterFeeAmount: one multiplication and one division.
- Waku transport, broadcaster search, JSON-RPC, GraphQL, ABI packing, artifact caching, key derivation: remote behaviour or thin wrappers.
