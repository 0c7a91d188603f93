# Verified model of the XRPL ledger archive pipeline

This project models the archive tools as one content-addressed system and proves what they keep.

A ledger's state is a 16-ary Merkle tree of nodes stored under their hashes. The exporter walks one tree,
then follows the ledgers by diffing consecutive trees by position and applying each diff to a flat map of
nodes; every `chunk_size` ledgers it closes a chunk file. The importer replays a chunk, from memory or while
reading it, checks it, and writes every node into a bulk-built hash table. An index of account histories is
built from the transaction metadata of the same chunks.

| files | what they hold |
|---|---|
| `Prelude`, `Bytes`, `Reading`, `Sorting` | results, byte strings, readers, stable sorting |
| `SHAMap`, `InnerNodes`, `TreeDiff`, `ApplyDiff`, `DiffWitness`, `Placement`, `Walks`, `RootFinding` | trees in a store, the diff by position, applying it, the walks, the new root |
| `VarLength`, `TxTree`, `TxTreeProofs`, `TxTreeOrder`, `TxCollect` | the transaction tree, built and read back |
| `NodeCodec`, `NodeCodecProofs` | stored values of nodes |
| `FormatLayout` | ledger headers, hash preimages and chunk files byte by byte, with the numbers written out |
| `ChunkFormat`, `ChunkInput`, `ChunkOutput`, `ChunkProofs`, `ChunkCanonical`, `ChunkStream`, `Streaming` | the two chunk layouts in both directions, the streaming writer and reader |
| `CompletenessWalk`, `Replay`, `Importer`, `ReplayProofs`, `StreamReplay`, `TrailingBytes` | replay, buffered and streamed, and what verification establishes |
| `RootCommitment`, `IntermediateLedgers`, `ReplayWitness` | exactly how far the checks reach: what the root hash commits to, which ledgers in between are complete |
| `Ledgers`, `Exporter`, `ExportRun`, `ExportedFiles`, `ExportProofs`, `SoundWitness` | the export and its round trip through replay |
| `NuDbFormat`, `BucketBuffer`, `NuDbReader`, `NuDbWriter`, `NuDbProofs`, `ImportStore`, `ArchiveProofs`, `ArchiveRun`, `FileSwap` | the node store, the archive end to end, moving a store into place |
| `MetaFormat`, `MetaDecode`, `MetaTree`, `MetaLocal`, `MetaProofs`, `MetaExact`, `TxFields` | transaction metadata and transaction fields |
| `Base58`, `ClassicAddress` | classic addresses |
| `IndexQuery`, `IndexBuild`, `IndexSinks`, `IndexProofs` | the account index and its paging |

A tree is unfolded from a store into a datatype that also has values for a missing and for an unparsable node,
so every statement about a walk covers damaged stores. Methods follow the program's loops and are proved
against functions of their inputs; the results about those functions are the lemmas below. A "sound" run of
ledgers (`ExportProofs.SoundSource`) has, for every ledger, a complete state tree of full inner nodes that
reaches no node twice, a transaction tree built from genuine records, a row that matches its own hash and names
its predecessor's, and a store whose nodes hash to their keys and are what decoding stored values yields;
`SoundWitness` shows such a run.

A property that is false of the code is stated with a concrete input and with its exact condition:

- "a verified chunk ends in its ledger's state" fails on a leaf that holds an inner node's preimage
  (`ForgedChunkAccepted`) and holds exactly as `VerifiedStateIff` says;
- "every ledger of a verified chunk has a complete tree" fails in `MiddleLedgerIncomplete`; ledger by ledger
  `LedgerCompleteIff` says when it holds, and `EveryLedgerWholeIff` when the whole states are closed, which is more
  (`CompleteThoughNotClosed`);
- "the completeness walk comes to an end" fails in `LoopNeverStops`; `StopsIff`, `AcyclicIff`;
- "the batches cover the range" fails when an addition wraps close to 2^32 (`WrapGoesBack`); `BatchesFitIff`;
- "the two readers accept the same files" fails on bytes behind the footer; `TrailingBytesIff`;
- "a file's header names its last ledger" fails when an addition wraps; `HeaderEndIff`, `FileReplaysIff`;
- "a diff can be applied in either order, on any tree" fails in `DiffWitness`; `ApplyExactIff`, `AddFirstExactIff`;
- "cut metadata never loses an account" fails in `TwoArraysLose`; `NoCutLosesIff`;
- length prefixes, node contents, addresses and the store swap: `VlRoundTripIff`, `VlLenBackIff`, `NodeBackIff`,
  `AddressRoundTripIff`, `MixedIff`.

`dafny verify dfyconfig.toml` checks the project.

## Model

| member | source | states |
|---|---|---|
| `SHAMap.FullChildrenOfConcat` | crates/xrla-common/src/shamap.rs:104-120 | Parsing a full inner node undoes writing sixteen child hashes back to back |
| `InnerNodes.FromFullBytes` | crates/xrla-common/src/shamap.rs:104-120 | The loop over sixteen slots computes the children of a full node |
| `InnerNodes.FromCompressedBytes` | crates/xrla-common/src/shamap.rs:127-151 | The loop over entries places every child at its position and refuses positions above fifteen |
| `InnerNodes.FromNode` | crates/xrla-common/src/shamap.rs:154-160 | Children of a node by its type: full, compressed, or a failure for anything else |
| `TreeDiff.CollectAdded` | crates/xrla-nudb/src/reader.rs:423-437 | On every store it appends exactly the nodes of the subtree, children before their parent, and fails exactly when one is missing or does not parse |
| `TreeDiff.CollectDeleted` | crates/xrla-nudb/src/reader.rs:439-457 | It appends the hashes of the subtree; a missing node is listed itself and its descendants are left out, an unparsable one is an error |
| `TreeDiff.DiffNodes` | crates/xrla-nudb/src/reader.rs:370-421 | The walk by position fails or succeeds, and extends both lists, exactly as the recursive diff of the two trees says |
| `TreeDiff.DiffRoots` | crates/xrla-nudb/src/reader.rs:333-342 | The diff of two roots, both lists sorted by hash |
| `ApplyDiff.DiffPartition` | crates/xrla-nudb/src/reader.rs:370-457 | For complete trees, counting positions: the old tree is the deleted list plus the kept subtrees, the new tree is the added list plus the same kept subtrees |
| `ApplyDiff.Apply` | crates/xrla-export/src/main.rs:403-410 | The loop computes removal of all deleted hashes, then insertion of all added nodes |
| `ApplyDiff.ApplyExactIff` | crates/xrla-export/src/main.rs:397-410 | Applying the diff turns exactly the old nodes into exactly the new ones if and only if every deleted hash that an unchanged subtree still needs is also added |
| `ApplyDiff.ApplyExact` | crates/xrla-export/src/main.rs:397-410 | So it always does when no hash occurs twice in the old tree, including for nodes that move up or down a level |
| `ApplyDiff.DeletedPresent` | crates/xrla-import/src/main.rs:400-412 | Every deleted hash is a node of the old tree, so the importer's check of deletions passes on exporter-made deltas |
| `ApplyDiff.AddFirstExactIff` | crates/xrla-export/src/main.rs:399-402 | For any two complete trees, repeats included: inserting before removing is right if and only if no deleted hash is in the new tree |
| `ApplyDiff.AddFirstListsIff` | crates/xrla-export/src/main.rs:399-402 | When the old tree holds no hash twice, if and only if no hash is in both lists |
| `DiffWitness.AddingFirstFails` | crates/xrla-export/src/main.rs:399-402 | A concrete pair of trees, a leaf moving up a level, on which inserting first loses the leaf |
| `DiffWitness.RepeatedHashFails` | crates/xrla-export/src/main.rs:403-410 | A concrete old tree with a repeated hash on which the diff applied in the right order still loses a node |
| `Placement.PlacedNoDup` | crates/xrla-import/src/main.rs:203-204 | A tree whose leaves stand where their keys put them holds no hash at two positions |
| `Walks.CollectReachable` | crates/xrla-nudb/src/reader.rs:63-90 | On every finite store, shared or cyclic: succeeds exactly when every reachable node is usable, and then returns each reachable node once |
| `Walks.CollectReachableConcurrent` | crates/xrla-nudb/src/reader.rs:100-140 | The level-by-level walk promises the same |
| `Walks.WalksAgree` | crates/xrla-nudb/src/reader.rs:100-140 | Both walks succeed together and return the same nodes |
| `Walks.ReachIsOcc` | crates/xrla-nudb/src/reader.rs:63-90 | Reachability by links is membership in the unfolded tree, and all reachable nodes are usable exactly when the tree is complete |
| `CompletenessWalk.WalkComplete` | crates/xrla-import/src/main.rs:205-219 | Wherever the walk ends it succeeds exactly on a finite complete tree, and then counts its positions |
| `CompletenessWalk.StopsIff` | crates/xrla-import/src/main.rs:203-219 | The walk without a visited set ends if and only if the tree is finite and complete, or the walk meets a missing or unparsable node before it enters anything infinite |
| `CompletenessWalk.FiniteIff` | crates/xrla-import/src/main.rs:203-219 | Following references comes to an end if and only if no reached node is reached again from its own children |
| `CompletenessWalk.AcyclicIff` | crates/xrla-import/src/main.rs:203-219 | Where nothing is missing the walk ends if and only if the root reaches no cycle |
| `CompletenessWalk.LoopNeverStops` | crates/xrla-import/src/main.rs:203-219 | A concrete state on which it does not end: a node that is its own child |
| `Replay.CheckTreeComplete` | crates/xrla-import/src/main.rs:222-233 | Wherever the walk ends it passes exactly when the tree is complete and has as many positions as the state has nodes |
| `Walks.NothingExtraIff` | crates/xrla-import/src/main.rs:203-233 | When the check passes every node of the tree is held, and nothing else is held if and only if no node is reached twice |
| `RootFinding.FindNewRoot` | crates/xrla-import/src/main.rs:739-767 | The loops compute the list of added full inner nodes that no added inner node refers to, and accept at most one |
| `RootFinding.NewRootOfDiff` | crates/xrla-import/src/main.rs:739-767 | On the added list of a diff between two trees of full inner nodes with different roots the answer is the new root |
| `RootFinding.RootFollows` | crates/xrla-import/src/main.rs:739-767 | For any two complete trees of full inner nodes, equal or different, the search on their diff gives the second root when the first is the default, and the added list is empty exactly when the roots are equal |
| `NodeCodec.EncodeRoundTripIff` | crates/xrla-nudb/src/dat.rs:253-334 | What the importer stores for a node decodes to that node if and only if it is a full inner node of 512 bytes or a leaf the state or transaction trees hold |
| `NodeCodecProofs.DecodedStoresBack` | crates/xrla-nudb/src/dat.rs:175-334 | Whatever encoding a value came in, the importer's own encoding of what it decodes to decodes to the same |
| `NodeCodecProofs.DecodedIsStorable` | crates/xrla-nudb/src/dat.rs:175-334 | The nodes that decoding can yield are exactly those the importer's encoding keeps |
| `NodeCodecProofs.StoredLayout` | crates/xrla-nudb/src/dat.rs:305-334 | A stored value byte by byte: codec 0, eight zeros, the kind of node as 0, 3 or 4, for inner nodes their hash prefix, the content |
| `NodeCodecProofs.DecodesIff` | crates/xrla-nudb/src/dat.rs:169-302 | Exactly which stored values decode, by codec and kind, and to what; ledger headers and unknown codecs do not |
| `NodeCodecProofs.InnerLayouts` | crates/xrla-nudb/src/dat.rs:192-240 | A full inner value is a 3 and sixteen hashes; a sparse one a 2, a two-byte mask with one bit per slot, and the hashes marked |
| `NodeCodecProofs.MaskLayout` | crates/xrla-nudb/src/dat.rs:211-240 | Slot i is the bit of weight 2 to the 15 - i |
| `NodeCodecProofs.InnerEncodingsAgree` | crates/xrla-nudb/src/dat.rs:192-302 | Sparse, full and raw encodings of any sixteen children decode to the same 512 bytes, which parse to exactly those children |
| `NodeCodecProofs.DecodeSparseInner` | crates/xrla-nudb/src/dat.rs:211-240 | The expansion loop computes the sparse decoding |
| `NodeCodecProofs.CompressedBack` | crates/xrla-common/src/shamap.rs:127-151 | A compressed inner node parses to the children it was written from |
| `NodeCodecProofs.ReadVarint` | crates/xrla-nudb/src/dat.rs:349-363 | The loop computes the decoding of a base-128 number, cut to 64 bits, refusing an eleventh byte |
| `NodeCodecProofs.VarintBack` | crates/xrla-nudb/src/dat.rs:348-363 | Decoding undoes the LEB128 encoding of every 64-bit number, whatever follows it |
| `VarLength.VlRoundTripIff` | crates/xrla-nudb/src/reader.rs:496-512 | A length prefix written by the importer is read back by the transaction walk if and only if the length is at most 929984 |
| `VarLength.ReadVlCanonical` | crates/xrla-nudb/src/reader.rs:496-512 | Every prefix that is read is the one that would be written for its length |
| `TxTree.LeafRoundTrip` | crates/xrla-nudb/src/reader.rs:462-494 | A transaction leaf parses back to the record it was written for |
| `TxTree.LeafParsesIff` | crates/xrla-nudb/src/reader.rs:462-494 | Leaf content parses to a record if and only if it is exactly what is written for that record and both blobs are within the limit |
| `FormatLayout.TxLeafLayout` | crates/xrla-common/src/tx_tree.rs:75-92 | A leaf byte by byte: SND and a zero, the transaction and the metadata each behind its length prefix, and the transaction's hash; its own hash is of just these bytes |
| `FormatLayout.InnerLayout` | crates/xrla-common/src/tx_tree.rs:114-123 | An inner node's hash is of MIN and a zero and its sixteen children, each at its slot's place |
| `FormatLayout.TransactionIdLayout` | crates/xrla-common/src/tx_tree.rs:25-30 | A transaction's id is the hash of TXN and a zero and the transaction |
| `FormatLayout.PrefixLayout` | crates/xrla-common/src/tx_tree.rs:34-52 | Length prefixes at the ends of their ranges |
| `TxTree.BuildLevel` | crates/xrla-common/src/tx_tree.rs:98-123 | The bucket loops compute the tree of the items below a depth and push its inner nodes, or abort past the last nibble |
| `TxTree.BuildTxTree` | crates/xrla-common/src/tx_tree.rs:69-96 | Root and node list are those of the tree of the records; an empty list has the zero root |
| `TxTreeProofs.BuildSucceedsIff` | crates/xrla-common/src/tx_tree.rs:98-123 | Building never passes the last nibble if and only if all transaction hashes differ |
| `TxTreeProofs.TreePermuted` | crates/xrla-common/src/tx_tree.rs:69-96 | The tree does not depend on the order of the list |
| `TxTreeOrder.LeavesAreSorted` | crates/xrla-common/src/tx_tree.rs:57-123 | The leaves of a transaction tree from left to right are its transactions in order of hash, each hashed and encoded as its leaf |
| `TxTreeOrder.PathIsPrefix` | crates/xrla-common/src/tx_tree.rs:57-64 | The slots on the way to a leaf, two by two, are the bytes at the front of its transaction's hash, high half first |
| `TxTreeProofs.LevelUnfolds` | crates/xrla-common/src/tx_tree.rs:98-123 | In a store that holds the built nodes, every child a built node refers to is present |
| `TxCollect.CollectTransactions` | crates/xrla-nudb/src/reader.rs:301-326 | Succeeds exactly when every node below the root is usable and every leaf parses; then returns the parsed leaves, each once, sorted by hash |
| `TxCollect.CollectBuilt` | crates/xrla-nudb/src/reader.rs:301-326 | From the root of a built tree it returns exactly the records, sorted by hash |
| `ChunkProofs.NodeBackIff` | crates/xrla-common/src/serialize.rs:103-109 | A written node is read back if and only if its content is shorter than 65536 bytes, because the length is cut to 16 bits |
| `FormatLayout.ChunkHeaderLayout` | crates/xrla-common/src/serialize.rs:379-393 | A file's first 81 bytes: XRLA, version, network, first and last ledger, checkpoint hash at 17, chunk hash at 49 |
| `FormatLayout.NodeLayout` | crates/xrla-common/src/serialize.rs:103-109 | A node: hash, type code 0 to 4 in the order of the wire types, 16-bit length, content |
| `FormatLayout.NodeListLayout` | crates/xrla-common/src/serialize.rs:111-120 | A node list: its length, then the nodes in order of hash |
| `FormatLayout.DeltaLayout` | crates/xrla-common/src/serialize.rs:415-432 | A delta: ledger number, the nodes it adds, how many it deletes, their hashes in order |
| `FormatLayout.TxLayout` | crates/xrla-common/src/serialize.rs:434-456 | A transaction: hash, and two blobs each behind a 32-bit length |
| `FormatLayout.TxMapLayout` | crates/xrla-common/src/serialize.rs:434-456 | A transaction map: 88 bytes with parent close time at 76 and close time at 80, then the transactions in order of hash |
| `FormatLayout.PairsLayout` | crates/xrla-common/src/serialize.rs:201-211 | Ledger by ledger, a delta and then its transaction map |
| `FormatLayout.BlockLayout` | crates/xrla-common/src/serialize.rs:379-413 | A version 2 file section by section, with the hash of everything behind byte 81 at 49 |
| `FormatLayout.StreamedLayout` | crates/xrla-common/src/serialize.rs:148-230 | A version 3 file section by section, with that hash at 49 too |
| `FormatLayout.OrdersAreLexicographic` | crates/xrla-common/src/serialize.rs:111-120 | Nodes, hashes and transactions are sorted as byte strings compare |
| `Sorting.SortStable` | crates/xrla-common/src/serialize.rs:111-120 | Sorting keeps the order of elements with equal keys |
| `ChunkProofs.BlockRoundTrip` | crates/xrla-common/src/serialize.rs:379-393 | Version 2: every chunk within the field widths parses back to itself with each list sorted |
| `ChunkProofs.StreamedRoundTrip` | crates/xrla-common/src/serialize.rs:493-566 | Version 3 parses back to the same chunk, so the layouts differ only in section order and chunk hash |
| `ChunkCanonical.AcceptedHeader` | crates/xrla-common/src/serialize.rs:493-521 | Every accepted file starts with the header of its chunk, and its chunk hash is the hash of everything behind the header |
| `ChunkCanonical.AcceptedIsSerialization` | crates/xrla-common/src/serialize.rs:493-566 | An accepted file with its lists in order and nothing behind its footer is byte for byte the serialization of its chunk |
| `ChunkInput.ReadChunkFile` | crates/xrla-common/src/serialize.rs:493-566 | The reader's loops over a consumed stream compute the parse, for both versions, failures included |
| `ChunkOutput.SerializeChunkFile` | crates/xrla-common/src/serialize.rs:379-456 | The writer's loops over a growing buffer compute the version 2 file |
| `ChunkStream.ChunkWriter.constructor` | crates/xrla-common/src/serialize.rs:148-177 | The file starts as the header with a zero chunk hash |
| `ChunkStream.ChunkWriter.AddCheckpoint` | crates/xrla-common/src/serialize.rs:188-199 | Nodes in any order are written sorted, and exactly what is written is hashed |
| `ChunkStream.ChunkWriter.AddDelta` | crates/xrla-common/src/serialize.rs:201-205 | Appends the delta to the file and to what is hashed |
| `ChunkStream.ChunkWriter.AddTxMap` | crates/xrla-common/src/serialize.rs:207-211 | Appends the transaction map to the file and to what is hashed |
| `ChunkStream.ChunkWriter.Finish` | crates/xrla-common/src/serialize.rs:216-230 | The finished file is header with the body's hash, body, footer; only the 32 placeholder bytes changed |
| `Replay.SinkNodes` | crates/xrla-import/src/main.rs:326-334 | The sink gains exactly the first node of each hash it did not contain; a verify-only sink gains nothing |
| `Replay.CheckAddedChildren` | crates/xrla-import/src/main.rs:237-257 | Passes exactly when every added inner node parses and all its children are held |
| `Replay.VerifyStateNodes` | crates/xrla-common/src/state_tree.rs:32-55 | Passes exactly when every node hashes to its own key |
| `FormatLayout.PreimageLayout` | crates/xrla-common/src/state_tree.rs:32-42 | Inner nodes of either kind are hashed behind MIN and a zero, leaves as they stand |
| `FormatLayout.LedgerObjectLayout` | crates/xrla-common/src/serialize.rs:50-63 | The 122 bytes a ledger hash is taken of: LWR and a zero, sequence at 4, drops at 8, parent at 16, transaction root at 48, account root at 80, parent close time at 112, close time at 116, resolution at 120, flags at 121 |
| `FormatLayout.RowObject` | crates/xrla-export/src/main.rs:164-173 | A row of the source is verified exactly if its hash is that of these bytes filled from its own columns |
| `FormatLayout.ReplayedObject` | crates/xrla-import/src/main.rs:425-470 | Replay hashes these bytes filled from the transaction map, the parent's hash and the two recomputed roots |
| `Replay.VerifyTxnsAuthentic` | crates/xrla-import/src/main.rs:721-734 | Passes exactly when every transaction hashes to its id |
| `Importer.Replayer.Start` | crates/xrla-import/src/main.rs:346-396 | Checkpoint, its checks, its transaction tree: the new state, root, hash and sink are those of the specification, and so is failure |
| `Importer.Replayer.Step` | crates/xrla-import/src/main.rs:398-505 | One ledger: every check in order, then state, root, hash, row and sink |
| `Importer.ReplayChunk` | crates/xrla-import/src/main.rs:340-515 | Succeeds exactly when the specification does, with its final state, its ledger rows and its nodes sent to the sink |
| `Importer.AcceptedTerminates` | crates/xrla-import/src/main.rs:205-233 | Every chunk that the specification accepts is one on which both completeness walks come to an end |
| `ReplayProofs.VerifiedReplay` | crates/xrla-import/src/main.rs:340-515 | Whatever the chunk: if verifying replay succeeds, the checkpoint's tree is complete, every ledger hash after the first is the hash of its header chained to its predecessor, every transaction hashes to its id, every live node hashes to its key, the ledger rows are those headers in order, deltas and transaction maps carry the same numbers, the tree below the last account hash is complete in the state, and nothing else is held exactly when no node is reached twice |
| `RootCommitment.RootCommitsIff` | crates/xrla-common/src/state_tree.rs:32-42 | Two complete self-hashed trees with one root hash, the second with genuine leaves and no two preimages in play colliding, are the same tree if and only if no leaf of the first starts like an inner node |
| `RootCommitment.VerifiedStateIff` | crates/xrla-import/src/main.rs:340-515 | A verified chunk ends in exactly the nodes and contents of the tree its last account hash stands for if and only if, by the chunk's own lists, no leaf left in the end starts like an inner node |
| `RootCommitment.ReplayLeaves` | crates/xrla-import/src/main.rs:397-505 | The state a replay ends in is the checkpoint with the deltas applied in order, which needs no replay to compute |
| `RootCommitment.ForgedChunkAccepted` | crates/xrla-common/src/state_tree.rs:32-42 | For every hash function and every inner node that hashes to its key, verified replay accepts a chunk whose whole state is one leaf holding that node's preimage: what the condition shuts out does pass the checks |
| `IntermediateLedgers.StepCompleteIff` | crates/xrla-import/src/main.rs:235-257 | Whatever the state: after a delta that passes the check of added nodes the tree below a root is complete if and only if the root is there and every untouched inner node it still reaches parses and has its children left or added |
| `IntermediateLedgers.ClosedStepCompleteIff` | crates/xrla-import/src/main.rs:235-257 | Where no reference dangled before: if and only if no untouched inner node that the root still reaches has a child the delta deletes and does not add again |
| `IntermediateLedgers.LedgerCompleteIff` | crates/xrla-import/src/main.rs:340-515 | For every chunk that verified replay accepts and every ledger of it: the ledger's tree is complete if and only if its delta keeps what its root reaches in that sense; the checkpoint's always is |
| `IntermediateLedgers.EveryLedgerCompleteIff` | crates/xrla-import/src/main.rs:340-515 | So all its ledgers have complete trees if and only if every delta does |
| `IntermediateLedgers.StepClosedIff` | crates/xrla-import/src/main.rs:235-257 | On closure, which is more than complete trees: a delta that passes the check of added nodes leaves no dangling reference anywhere in the state if and only if no inner node it leaves alone has a child that it deletes and does not add again |
| `IntermediateLedgers.StepWholeIff` | crates/xrla-import/src/main.rs:398-505 | One verified ledger: if the state had no dangling reference and held its root, the next one does too if and only if the delta keeps the references of untouched nodes and does not drop an unchanged root |
| `IntermediateLedgers.EveryLedgerWholeIff` | crates/xrla-import/src/main.rs:340-515 | For every verified chunk with a closed checkpoint: every ledger of it, not only the last, has a closed state that holds its root if and only if every delta leaves references and the root alone |
| `IntermediateLedgers.WholeComplete` | crates/xrla-import/src/main.rs:205-219 | In such a state the ledger's whole tree is complete |
| `IntermediateLedgers.CheckedClosed` | crates/xrla-import/src/main.rs:222-233 | A checkpoint that passes the completeness check without reaching a node twice is closed |
| `ReplayWitness.MiddleLedgerIncomplete` | crates/xrla-import/src/main.rs:235-257 | A concrete chunk, without a hash collision in play, that verifying replay accepts although the tree of its middle ledger is incomplete: its first delta deletes a child that an untouched inner node still refers to |
| `ReplayWitness.CompleteThoughNotClosed` | crates/xrla-import/src/main.rs:235-257 | A concrete step from a closed state to a complete tree in a state that is not closed: the two properties differ |
| `Streaming.ChunkReader.NextNode` | crates/xrla-common/src/serialize.rs:325-331 | Reads one node and moves on by exactly its bytes, which are hashed |
| `Streaming.ChunkReader.NextDeltaTxMap` | crates/xrla-common/src/serialize.rs:341-349 | Reads one delta and one transaction map, or reports the end when none remain |
| `Streaming.ChunkReader.Finish` | crates/xrla-common/src/serialize.rs:353-371 | Accepts exactly when the footer follows and everything consumed hashes to the header's claim |
| `StreamReplay.StreamCheckpoint` | crates/xrla-import/src/main.rs:551-580 | Node by node, state, sink and the hash check end up as if the whole list had been read first |
| `StreamReplay.StreamLedgers` | crates/xrla-import/src/main.rs:623-706 | Reads and replays ledger by ledger until none remain |
| `StreamReplay.ReplayChunkStreaming` | crates/xrla-import/src/main.rs:533-719 | Computes the interleaved specification: success, state, rows, sink |
| `StreamReplay.StreamingAgrees` | crates/xrla-import/src/main.rs:527-719 | On every version 3 file that ends at its footer, streaming replay equals parsing the file and replaying it: same success, state, rows and nodes |
| `StreamReplay.WrittenEndsAtFooter` | crates/xrla-common/src/serialize.rs:148-230 | Every file the streaming writer makes of a chunk within the field widths is such a file |
| `StreamReplay.StreamAcceptedTerminates` | crates/xrla-import/src/main.rs:205-233 | Every file that streaming accepts is one on which both completeness walks come to an end |
| `StreamReplay.TrailingBytesDisagree` | crates/xrla-common/src/serialize.rs:353-371 | With bytes behind the footer both readers can accept only if two different strings have the same hash |
| `TrailingBytes.StreamingIgnoresTrailing` | crates/xrla-common/src/serialize.rs:353-371 | Appending anything to a file that streaming accepts changes nothing for streaming |
| `TrailingBytes.TrailingBytesIff` | crates/xrla-common/src/serialize.rs:493-566 | Appended to any accepted file that ends at its footer, the same bytes are accepted by the buffering reader if and only if the bodies with and without them have the same hash |
| `Exporter.Exporter.constructor` | crates/xrla-export/src/main.rs:114-150 | The first ledger opens the first chunk with the whole state |
| `Exporter.Exporter.Extend` | crates/xrla-export/src/main.rs:242-245 | A ledger inside a chunk adds its delta and its transactions |
| `Exporter.Exporter.Cut` | crates/xrla-export/src/main.rs:211-241 | A ledger that starts a chunk closes the file of the one before and becomes the next checkpoint |
| `ExportRun.LoadBatch` | crates/xrla-export/src/main.rs:164-173 | Succeeds exactly when every row of the batch exists and matches its own hash |
| `ExportRun.DiffBatch` | crates/xrla-nudb/src/reader.rs:353-368 | The diffs of consecutive ledgers, in order; fails exactly when one of them does |
| `ExportRun.RunBatch` | crates/xrla-export/src/main.rs:187-250 | Exports a batch in order, failing exactly when a transaction tree cannot be read |
| `ExportRun.Export` | crates/xrla-export/src/main.rs:68-278 | Wherever no batch wraps at 32 bits: succeeds exactly when everything it reads is there, and then its files are the chunks of consecutive runs of chunk_size ledgers, the last one possibly shorter |
| `ExportedFiles.FileNamesLedger` | crates/xrla-export/src/main.rs:119-128 | Every exported file carries at its offsets the source's network, the numbers of its first and last ledger, the hash in its first ledger's row, and the hash of its body |
| `ExportedFiles.ParsedNamesLedger` | crates/xrla-export/src/main.rs:119-128 | So does whatever the file parses to |
| `ExportRun.BatchesFitIff` | crates/xrla-export/src/main.rs:160-163 | The condition on start, end and batch size under which no addition of any batch wraps, for every range |
| `ExportRun.WrapGoesBack` | crates/xrla-export/src/main.rs:160-163 | A batch whose addition wraps is empty and the next one starts before it, so what follows is no longer a run over the range |
| `ExportProofs.StateIsTree` | crates/xrla-export/src/main.rs:184-191 | For every sound run of ledgers the running map is, after each ledger, exactly the nodes of that ledger's tree |
| `ExportProofs.PlacedSoundState` | crates/xrla-import/src/main.rs:203-204 | In a source read from a store, a state tree whose leaves stand where their keys put them is sound: it has full inner nodes only and reaches no node twice |
| `ExportProofs.SoundExportable` | crates/xrla-export/src/main.rs:68-278 | A sound run of ledgers can always be exported |
| `ExportProofs.EveryLedgerOnce` | crates/xrla-export/src/main.rs:160-258 | Every ledger of the range is in exactly one chunk |
| `ExportProofs.HeaderEndIff` | crates/xrla-export/src/main.rs:119-121 | By arithmetic alone: a header names the chunk's last ledger if and only if the 32-bit addition chunk_start + chunk_size - 1 does not wrap |
| `ExportProofs.StepReplays` | crates/xrla-import/src/main.rs:398-505 | Replay of an exported ledger passes every check, moves from one ledger's nodes, root and hash to the next's, and recovers the source's own row |
| `ExportProofs.PieceReplays` | crates/xrla-import/src/main.rs:340-515 | Replay, verifying or not, accepts every exported chunk, ends in exactly its last ledger's nodes and recovers the rows of the range |
| `ExportProofs.FileReplaysIff` | crates/xrla-export/src/main.rs:119-261 | An exported file parses, its header range matches its deltas and transaction maps, and replay of it ends in exactly its last ledger's nodes, if and only if chunk_start + chunk_size - 1 does not wrap in 32 bits |
| `ExportProofs.SameBytes` | crates/xrla-export/src/main.rs:153-258 | Two exports of one source write the same bytes, whatever their batch sizes and the order in which they list the state; nothing is asked of the source but that both exports succeeded |
| `NuDbFormat.BucketBack` | crates/xrla-nudb/src/writer.rs:331-340 | A written bucket reads back its count, its spill offset and every entry |
| `NuDbProofs.RecordLayout` | crates/xrla-nudb/src/writer.rs:169-185 | A record byte by byte: 48-bit length, key at 6, value at 38 |
| `NuDbProofs.EntryLayout` | crates/xrla-nudb/src/writer.rs:331-340 | An entry: offset, size and hash of 48 bits each |
| `NuDbProofs.BlockLayout` | crates/xrla-nudb/src/writer.rs:322-340 | A bucket block: count, spill offset at 2, entries of 18 bytes from 8 on, zeros up to 4096 |
| `NuDbProofs.SpillLayout` | crates/xrla-nudb/src/writer.rs:345-369 | A spill record: six zeros, the length of its body, the bucket; pointers lead behind the first eight bytes |
| `NuDbProofs.UpperBits` | crates/xrla-nudb/src/keyfile.rs:129-140 | A key is filed under the upper 48 bits of its 64-bit hash |
| `NuDbProofs.HalfFull` | crates/xrla-nudb/src/writer.rs:200-204 | Buckets hold what fits a block, and there are as few as keep them half full |
| `NuDbProofs.PrimaryLayout` | crates/xrla-nudb/src/keyfile.rs:129-147 | Bucket b is block b + 1 of the key file |
| `BucketBuffer.WriteBucketInto` | crates/xrla-nudb/src/writer.rs:331-340 | Writing in place fills the front of the buffer with the bucket and leaves the rest unchanged |
| `NuDbProofs.KeyHeaderLayout` | crates/xrla-nudb/src/writer.rs:305-319 | Every field of the key file header stands at its offset, and the rest of the block is zero |
| `NuDbProofs.DatHeaderLayout` | crates/xrla-nudb/src/writer.rs:294-303 | Every field of the data file header stands at its offset, and the rest is zero |
| `NuDbReader.ModulusSmallest` | crates/xrla-nudb/src/keyfile.rs:98-102 | The doubling loop ends at the smallest power of two that is large enough |
| `NuDbReader.BucketExists` | crates/xrla-nudb/src/keyfile.rs:119-125 | Every hash is placed in an existing bucket |
| `NuDbReader.LinearHashing` | crates/xrla-nudb/src/keyfile.rs:119-125 | A key is in the one bucket its hash is congruent to modulo the smallest power of two, and if there is none, in the one it is congruent to modulo half of it |
| `NuDbReader.GrowthSplits` | crates/xrla-nudb/src/keyfile.rs:119-125 | With one bucket more, keys move only into the new bucket and only from the bucket it splits |
| `NuDbReader.Open` | crates/xrla-nudb/src/keyfile.rs:77-107 | Opening reads the salt, the block size and the geometry, or fails |
| `NuDbProofs.OpensIff` | crates/xrla-nudb/src/keyfile.rs:77-107 | A pair of files opens if and only if the key file has the magic, key size 32 and a block size; salt, block size and geometry are then those of its header |
| `NuDbReader.Fetch` | crates/xrla-nudb/src/keyfile.rs:129-177 | The loop over a bucket and its spilled blocks computes the search, and terminates because chains descend |
| `NuDbWriter.NuDbSink.WriteNode` | crates/xrla-nudb/src/writer.rs:169-185 | The first value of a hash is appended as a record and its place, size and hash are noted; a hash seen before changes nothing |
| `NuDbWriter.ChainGrows` | crates/xrla-nudb/src/writer.rs:345-369 | A spill record written behind the data heads a chain of the entries it holds and those it points to |
| `NuDbWriter.NuDbSink.WriteSpillChain` | crates/xrla-nudb/src/writer.rs:345-369 | Exactly the records of the overflow's chunks are appended, the last chunk first, and the chain they form holds the overflow in order with every pointer leading down |
| `NuDbWriter.NuDbSink.Distribute` | crates/xrla-nudb/src/writer.rs:210-217 | Every entry is in the bucket its hash selects, in order of writing |
| `NuDbWriter.NuDbSink.Finish` | crates/xrla-nudb/src/writer.rs:200-263 | Exactly what buckets spill is appended, bucket by bucket, and the key file is its header and a block of the first 227 entries of each bucket; below 2^48 bytes the two files hold every entry |
| `NuDbWriter.BucketAscends` | crates/xrla-nudb/src/writer.rs:222-228 | Entries of a bucket ascend by hash |
| `NuDbProofs.FollowSearches` | crates/xrla-nudb/src/keyfile.rs:139-176 | Fetching along a chain of any length terminates and searches all its entries in order |
| `NuDbProofs.SearchFinds` | crates/xrla-nudb/src/keyfile.rs:148-161 | Among entries that share a 48-bit hash the record with the full key is found |
| `NuDbProofs.StoreServes` | crates/xrla-nudb/src/writer.rs:162-282 | For every sequence of writes and every 64-bit hash: the finished files open, chains descend, and fetching any key returns the first value written for it, or nothing |
| `NuDbProofs.WriteStore` | crates/xrla-nudb/src/writer.rs:71-81 | Writing a list of entries gives such a store |
| `ImportStore.StoreHoldsChunk` | crates/xrla-import/src/main.rs:286-296 | After an import every node the chunk ever held, live or superseded, and every transaction tree node is found under its hash, and no other hash is; what is fetched decodes to the node if and only if it is a full inner node of 512 bytes or a leaf of the two trees' types |
| `ImportStore.ImportChunk` | crates/xrla-import/src/main.rs:80-152 | Replay followed by writing the store succeeds exactly when replay does, and the store serves what was sunk |
| `ArchiveProofs.ArchiveServes` | crates/xrla-import/src/main.rs:276-296 | End to end: for every sound run, exported chunk and 64-bit hash, a store that the chunk was imported into returns, for every node of the state tree and of the transaction tree of every ledger in the chunk, a value that decodes to that node |
| `ArchiveRun.ImportFile` | crates/xrla-import/src/main.rs:80-152 | The fifth byte of a file chooses streaming or parsing it first; the import succeeds exactly when that replay does, and the store then serves every node that was sunk |
| `ArchiveRun.FileIsReplayed` | crates/xrla-import/src/main.rs:96-113 | On every exported file whose header does not wrap streaming and buffered import both come to the replay of its chunk, which succeeds |
| `ArchiveRun.FileServes` | crates/xrla-import/src/main.rs:276-296 | From file bytes to fetched nodes: every file of a sound run whose header does not wrap imports, and from a store that holds what was sunk every state and transaction node of every ledger of the chunk is fetched and decoded |
| `ArchiveRun.RoundTrip` | crates/xrla-export/src/main.rs:68-278 | One program run from end to end: export the range, take a chunk's file, import it; it succeeds, and every node of every ledger of the chunk can be fetched and decodes to its content and type |
| `FileSwap.Swapper.Swap` | crates/xrla-nudb/src/writer.rs:244-281 | The states the five names go through, for every combination of failing renames |
| `FileSwap.SwapPlaces` | crates/xrla-nudb/src/writer.rs:244-281 | A swap that succeeds leaves exactly the new pair under the final names |
| `FileSwap.MixedIff` | crates/xrla-nudb/src/writer.rs:195-199 | Some crash point pairs new data with the old key if and only if the key's own rename fails and the old key is put back beside the new data |
| `FileSwap.OldKeySurvives` | crates/xrla-nudb/src/writer.rs:244-281 | At every crash point the old key exists until the new pair is in place |
| `FileSwap.FailedSwapKeeps` | crates/xrla-nudb/src/writer.rs:271-276 | A failed swap leaves the old pair if and only if moving the key aside failed, or the data rename failed and the old key could be put back |
| `MetaDecode.Cursor.Skip` | crates/xrla-common/src/meta_decode.rs:208-271 | Skipping a value moves past exactly the bytes its type occupies, or fails |
| `MetaDecode.Cursor.CollectInnerFields` | crates/xrla-common/src/meta_decode.rs:274-301 | Adds exactly the accounts of one level of fields |
| `MetaDecode.Cursor.CollectAffectedNodes` | crates/xrla-common/src/meta_decode.rs:319-332 | Adds the accounts of every node, each from its new or its final fields |
| `MetaDecode.SummarizeMeta` | crates/xrla-common/src/meta_decode.rs:352-380 | The decoder computes the summary, with the accounts sorted and without repetition |
| `MetaTree.VlLenBackIff` | crates/xrla-common/src/meta_decode.rs:110-122 | A written length prefix is read back by the decoder if and only if the length is at most 995520 |
| `MetaTree.WidthIs` | crates/xrla-common/src/meta_decode.rs:208-240 | The types of fixed width, by number, and their widths |
| `MetaTree.SkipBack` | crates/xrla-common/src/meta_decode.rs:206-271 | Every well-formed value, of any depth, is skipped at its exact width |
| `MetaTree.AllUnionIff` | crates/xrla-common/src/meta_decode.rs:8-20 | What is collected is what the one-level rule names; the rule has its codes written out: account fields of type 8, amounts with codes 4 to 7, type 21 code 1, in object 8 of a node of code 3 and in object 7 of others |
| `MetaProofs.SummaryOfEncoding` | crates/xrla-common/src/meta_decode.rs:343-380 | For every well-formed metadata tree the decoder accepts its encoding if and only if it has AffectedNodes, and then finds exactly the accounts of the rule and the last top-level TransactionIndex |
| `MetaExact.AcceptedIff` | crates/xrla-common/src/meta_decode.rs:273-380 | For every list of well-formed fields the decoder accepts the encoding if and only if it has AffectedNodes and every such field holds only objects whose new or final fields have account fields of 20 bytes or none |
| `MetaLocal.ValueExtends` | crates/xrla-common/src/meta_decode.rs:208-271 | What follows a value does not change how it is skipped |
| `MetaLocal.AffectedExtends` | crates/xrla-common/src/meta_decode.rs:319-332 | What follows AffectedNodes does not change what it yields |
| `MetaLocal.ValueCut` | crates/xrla-common/src/meta_decode.rs:208-271 | Every cut inside a value is an error |
| `MetaLocal.NodeCut` | crates/xrla-common/src/meta_decode.rs:304-317 | Every cut inside a node is an error |
| `MetaLocal.AffectedCut` | crates/xrla-common/src/meta_decode.rs:319-332 | Every cut inside AffectedNodes is an error |
| `MetaLocal.SummaryCut` | crates/xrla-common/src/meta_decode.rs:343-380 | Cutting metadata with one AffectedNodes anywhere gives an error or the same accounts, never fewer |
| `MetaExact.CutBetweenFields` | crates/xrla-common/src/meta_decode.rs:343-380 | A cut of encoded metadata that still parses ends between two top-level fields |
| `MetaExact.NoCutLosesIff` | crates/xrla-common/src/meta_decode.rs:343-380 | Cutting metadata anywhere is an error or leaves the same accounts if and only if every leading run of fields that has an AffectedNodes field already names all the accounts |
| `MetaExact.OneArrayNamesAll` | crates/xrla-common/src/meta_decode.rs:343-380 | Its corollary for one AffectedNodes field, as validators write it: the condition holds |
| `MetaExact.TwoArraysLose` | crates/xrla-common/src/meta_decode.rs:343-380 | Concrete metadata with two AffectedNodes fields and a cut between them that is accepted with an account missing |
| `TxFields.ParseTxFields` | crates/xrla-common/src/meta_decode.rs:397-426 | The scan for type, sequence and sender computes its specification |
| `TxFields.ScanFinds` | crates/xrla-common/src/meta_decode.rs:391-426 | In canonical field order, if the three are there the scan finds exactly them and reads no further |
| `TxFields.ParsesCanonical` | crates/xrla-common/src/meta_decode.rs:391-426 | For a transaction in canonical order with fields (1, 2), (2, 4) and (8, 1), whatever else it holds, parsing gives just their values |
| `Base58.Scale` | crates/xrla-common/src/meta_decode.rs:448-456 | The carry loops compute the digits of factor times the number plus the carry |
| `Base58.ScaledValue` | crates/xrla-common/src/meta_decode.rs:488-498 | Multiplying and adding in place has that value, with digits in range |
| `Base58.DigitsBack` | crates/xrla-common/src/meta_decode.rs:439-476 | Decoding undoes encoding for every payload of nonzero value, leading zeros included |
| `Base58.DigitsForth` | crates/xrla-common/src/meta_decode.rs:479-509 | Encoding undoes decoding for every digit string of nonzero value |
| `ClassicAddress.EncodeAddress` | crates/xrla-common/src/meta_decode.rs:479-509 | The encoder's loops compute the address |
| `ClassicAddress.DecodeAddress` | crates/xrla-common/src/meta_decode.rs:439-476 | The decoder's loops compute the account id, or refuse the string |
| `ClassicAddress.PayloadLayout` | crates/xrla-common/src/meta_decode.rs:479-487 | The payload: a zero, the id, and the first four bytes of the double hash of both |
| `Base58.AlphabetIs` | crates/xrla-common/src/meta_decode.rs:433-435 | The alphabet, character by character |
| `ClassicAddress.AddressRoundTripIff` | crates/xrla-common/src/meta_decode.rs:433-509 | Every account id round-trips if and only if its 25-byte payload is not all zero |
| `ClassicAddress.AcceptedIsEncodingIff` | crates/xrla-common/src/meta_decode.rs:437-509 | An accepted string is exactly the encoding of the id it decodes to if and only if that payload is not all zero |
| `IndexSinks.IndexSink.IndexLedger` | crates/xrla-index/src/build.rs:177-223 | A ledger is accepted exactly when it is next in order, every transaction is readable and hashes to its id, the TransactionIndex values are exactly 0..n, and no transaction repeats; then the tables hold exactly its rows too |
| `IndexSinks.CheckExact` | crates/xrla-index/src/build.rs:210-221 | The sorted scan accepts exactly different numbers that are all below their count |
| `IndexBuild.RepeatedRow` | crates/xrla-index/src/build.rs:199-205 | A clash of row keys can only come from values that the 0..n check refuses |
| `IndexQuery.AnswerUnique` | crates/xrla-index/src/query.rs:99-140 | A query has one answer |
| `IndexQuery.AnswerIs` | crates/xrla-index/src/query.rs:96-140 | The answer without positions: the account's rows in the range of ledgers, strictly behind the marker, ascending by ledger and transaction number going forward and descending otherwise |
| `IndexQuery.PageFull` | crates/xrla-index/src/query.rs:113-121 | A page has as many rows as its limit allows: a shorter one is all that remains, and what is left out comes later |
| `IndexQuery.AnswerBehind` | crates/xrla-index/src/query.rs:96-140 | Asking behind a row gives exactly the rows after it |
| `IndexQuery.PagesAreWhole` | crates/xrla-index/src/query.rs:96-140 | Pages of any size, each from the last row of the one before, put together are the unpaged answer, and paging ends |
| `IndexProofs.NextPage` | crates/xrla-index/src/query.rs:96-140 | The marker of a page's last row leads to exactly the rows after it |
| `IndexProofs.OneTransaction` | crates/xrla-index/src/build.rs:208-221 | Ledger and TransactionIndex name one transaction of the index |
| `IndexProofs.PagesAreHistory` | crates/xrla-index/src/query.rs:96-140 | For every built index, account, range, direction and page size the pages are exactly the account's transactions, in order |

## Left out

- SHA-256, SHA-512 and xxh64: any functions of the right result width; results that need it say which collisions are excluded.
- LZ4-compressed values (codec 1): decompression is library code; values under that codec decode to nothing here.
- SQLite: the ledger table and the index tables are finite maps with their primary keys; `ledger.db`, `transaction.db`, their schemas and the index file's own metadata are not part of this model.
- The transaction-database outputs of an import (`write_ledger_outputs`, the ledger header objects it adds to the store) are not modelled.
- Error texts: every failure is one value; which of several failing checks is reported is not modelled.
- Real files: reading is from byte strings, writing appends to them; buffering, `fsync`, short reads and clean-up on drop are not modelled, except the file names of the store swap. Deleting temporary files is taken to succeed.
- Thread pools and `calibrate_concurrency`: a parallel map is a map, and the level it picks is a parameter.
- `scan_dat`, command lines, progress output, `xrla-inspect`, `xrla-difftest` and the comparison tool: no properties beyond formatting.
- Several store shards: the node store is one map from hash to value.
- Cyclic stores: the diff recursion need not end on them, so the diff and the export take a rank that falls along every reference. The importer supposes only that the walks it gets to come to an end, and CompletenessWalk.StopsIff says exactly when they do; every accepted chunk and file is such (Importer.AcceptedTerminates, StreamReplay.StreamAcceptedTerminates). The two collecting walks suppose nothing.
- Reading a store whose spill pointers go in a circle: `Fetch` requires that chains descend, which is proved of every store the writer makes.
- Stack depth, memory use and 64-bit overflow of file offsets.
- ExportRun.Export: supposes that no addition of a batch wraps at 32 bits, which BatchesFitIff computes from the arguments; of a run that does wrap only WrapGoesBack is stated.
- NuDbWriter.NuDbSink.Finish: the bucket count is the exact ceiling of 2n/227; the program divides in floating point, which agrees for every count whose records fit below 2^48 bytes.
- RootFinding.NewRootOfDiff: supposes full inner nodes, because the search does not look into compressed ones; decoding never yields those.
