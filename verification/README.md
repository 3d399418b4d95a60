# A verified model of an Ethereum client

This project models seven parts of an Ethereum execution client and proves what they promise: the Merkle Patricia trie with
its node store, the discovery protocol with its table of peers, the RLP codec with the codecs of transactions and headers
built on it, the EVM bytecode parser, the EVM state journal, fee and header arithmetic, and EVM memory.

`dafny verify dfyconfig.toml` checks the whole project (Dafny 4.11).

## How the model is laid out

- **RLP**: `BigEndian`, `Rlp` (byte strings, lists, nested items), `RlpTyped` (a schema for the typed encoders and decoders),
  `RlpItems` (the nested item of every typed value), `RlpBuffer` (the encoders as they append to a buffer, and the decoding
  loops), `RlpPanics` (when decoding panics), `Transactions`, `Headers`.
- **Trie**: `Nibbles` (packed half-bytes), `NodeEncoder` (the second RLP writer and hex-prefix paths), `TrieNode` (stored nodes
  and their database form), `TrieTree` (the trie as a tree of values), `TrieHash` (node hashes), `TrieItems` (the RLP items that nodes are hashed from and
  stored as), `TrieStore` (cache and database, commit), `TrieWalk` (what a walk sees in the store), `TrieInsert` and `TrieRemove` (the operations on the store),
  `TrieFit` (which stored leaves are in place), `TrieSize`, `TrieCommit` (commit on arbitrary graphs), `Trie` (the trie itself),
  `TrieBuild` (tries of whole lists of bindings), `TrieList` (lists under their indices), `TrieRuns` (runs that go wrong).
- **Discovery**: `Kademlia` (the table), `KademliaEffects` (what each change of the table brings about), `Discovery` (the
  protocol as a state machine whose steps are the critical sections under the table's lock), `DiscoveryInv` (what every run
  keeps), `DiscoveryEffects` and `DiscoverySteps` (what each step brings about), `DiscoveryProof` (the endpoint proof told by
  the steps), `Closest` (which nodes are given as the closest), `Lookup` (the recursive lookup).
- **EVM**: `Program`, `Journal`, `JournalStack` (a stack of snapshots), `JournalCommit`, `JournalCode` (code across a commit),
  `JournalMarks` (which accounts a run creates and destroys), `Memory`.
- **Blocks**: `Fees`, `Payload`.

Conventions:

- Code that updates objects or runs loops is modelled by classes and methods, and each method is proved against a function on
  values; the laws are then proved about those functions.
- Keccak is an arbitrary function. Where a law needs that it does not collide, it names the set of encodings involved
  (`CollisionFree`): no law assumes a hash that never collides.
- Trie keys have any lengths. A leaf is stored with its whole path, under a hash that leaves out the part above it, so equal
  leaves in different places share one entry with the path that was stored last. The laws speak of the trie as a walk sees it
  in the store (`TrieWalk.Seen`); it is the trie as it is if and only if the leaf at the end of the walk is *in place*: stored
  with a path of the length that its place asks for (`TrieWalk.InPlace`).
- A Rust panic (a failed `unwrap`, an index out of range, an arithmetic overflow as in a debug build) is a result of its own:
  `Panic`, `None` or a `bool`.
- Clocks, sockets, message arrival and the hashes of sent packets are inputs of the steps.

## What turned out to be false

- `Trie::get` does not always read what is bound, and `Trie::insert` does not always bind just the key: a leaf that is not in
  place is taken for another one, or comparing with it goes out of bounds (`TrieRuns.SharedAcrossLengths`).
  `TrieWalk.ReadsRight`, `TrieWalk.BoundReads` and `TrieWalk.InsertsRight` say exactly when they do.
- `compute_hash_from_unsorted_iter` can depend on the order of the bindings, or panic, for the same reason; `TrieBuild.BuildsRight`
  says exactly when it does not. A list with equal elements at 16 and 144 panics in an order that begins with 144, 128, 16 and
  145 (`TrieRuns.OrderThatPanics`); in the order of the indices every list is built right (`TrieList.IndexOrder`).
- `Trie::remove` does not always remove just the key; `TrieRemove.RemovesOnlyKey` says exactly when it does.
  - A leaf is stored under a hash that leaves out the nibbles above it, so two keys with one value and one suffix share a stored
    leaf. When a branch collapses, the stored key of the surviving leaf is reused (`TrieRuns.SharedLeaf`).
  - A branch that keeps a value is restructured as if it had no children, even when the key to remove is absent
    (`TrieRuns.KeptValue`); `TrieRemove.RestructuredRight` gives the condition for one branch.
- `Trie::insert` loses an empty value that is given to a branch (`TrieTree.InsertLaw`).
- A key that ends inside the prefix of an extension makes `get`, `insert` and `remove` go out of bounds
  (`TrieRuns.KeyThatStumbles`, `Nibbles.SkipPrefixOverruns`); `TrieTree.FirstByteTells` gives a family of keys, that of RLP
  items, for which this never happens.
- `Trie::open` does not find a committed root whose encoding is shorter than 32 bytes (`Trie.Reopens`); then `get` panics and
  `insert` forgets everything (`TrieRuns.ShortRoot`).
- `get_closest_nodes` does not always give the closest nodes (`Closest.CloserPeerLeftOut`); `Closest.ClosestWhenInOrder` says
  for which tables it does.
- An endpoint proof holds for any address and at any later time (`DiscoveryProof.AnyAddressAnyTime`), though it should lapse
  after 12 hours.
- The RLP decoders panic, instead of returning an error, on integers that are too wide and on lengths that overflow
  (`RlpPanics.PanickingInputs`, `RlpPanics.DecodePanics`).
- A typed transaction whose canonical form is shorter than 56 bytes does not survive its RLP form
  (`Transactions.RlpRoundTrip`, `Transactions.BlankIsRefused`), and a header with certain gaps among its optional fields does
  not survive at all (`Headers.HeaderSurvives`, `Headers.BlobGasBecomesFee`).
- Warming an account that was never loaded resets it, and prefetching storage keys discards unsaved values
  (`JournalCommit.WarmKeepsView`, `JournalCommit.WarmEmpties`, `JournalCommit.PrefetchKeepsView`,
  `JournalCommit.PrefetchDiscards`).
- A built payload is refused by its own client, or its building panics, outside ten conditions
  (`Payload.BuiltPayloadIsValid`, `Payload.RefusedPayloads`, `Payload.OverflowingParent`).
- The builder's gas limit does not move towards the one it is asked for, but down to 5000 (`Payload.GasLimitMoves`,
  `Payload.GoesDown`, `Payload.LimitEnds`).
- The fee per blob gas overflows 64 bits from an excess of 46,488,066 blob gas on (`Fees.BlobFeeFits`, `Fees.BlobBaseFee`).
- The base fee arithmetic overflows for large fees (`Fees.BaseFeeExact`, `Fees.FeeOverflows`). With an odd gas limit the fee can
  rise by more than an eighth (`Fees.OddLimitOvershoots`); `Fees.RiseBound` says exactly when it does not.
- The comment of `get_least_recently_pinged_peers` speaks of `last_ping`; the code, and the model, compare `last_pong`.

## Model

| member | source | states |
|---|---|---|
| `Rlp.DecodeEncodedBytes` | crates/rlp/encode.rs:161-181 | decoding an encoded byte string in front of any suffix gives the string and the suffix |
| `Rlp.DecodeEncodedList` | crates/rlp/encode.rs:233-244 | the same for a list around any payload |
| `Rlp.SplittersAgree` | crates/rlp/decode.rs:338-457 | the two item splitters accept the same inputs, fail alike, and split at the same byte |
| `Rlp.DecodeIsLocal` | crates/rlp/decode.rs:338-394 | what the decoder accepts alone it accepts, unchanged, in front of any suffix |
| `Rlp.RoundTrip` | crates/rlp/decode.rs:338-394 | every nested value of strings and lists survives in front of every suffix |
| `Rlp.PrefixFree` | crates/rlp/encode.rs:161-244 | encodings are injective and none is a proper prefix of another |
| `Rlp.ShortestForm` | crates/rlp/encode.rs:161-244 | of all bytes that the decoder accepts for a payload, the encoder writes the fewest, and no others of that length are accepted |
| `Rlp.RefusedData` | crates/rlp/decode.rs:338-394 | exactly which data are refused as malformed, those with a leading zero in a length, and which as too short |
| `Rlp.KnownEncodings` | crates/rlp/encode.rs:385-562 | encodings of strings, numbers and flags given in the tests |
| `Rlp.KnownLists` | crates/rlp/encode.rs:564-585 | the same for an empty list and a list of two strings |
| `RlpTyped.RoundTripTyped` | crates/rlp/decode.rs:30-330 | every value of every type without optional fields survives in front of every suffix |
| `RlpTyped.StructSurvives` | crates/rlp/structs.rs:83-104 | once its mandatory fields do, a struct survives if and only if its optional fields do |
| `RlpTyped.TypedPrefixFree` | crates/rlp/encode.rs:32-253 | typed encodings are injective and prefix-free |
| `RlpTyped.DecodedHasTy` | crates/rlp/decode.rs:30-330 | whatever is decoded is a value of the type, in range and of the right length |
| `RlpTyped.TailOfNothing` | crates/rlp/structs.rs:83-94 | with no payload left every optional field is absent |
| `RlpTyped.EachLikeFields` | crates/rlp/decode.rs:289-330 | a tuple decodes like the fields of a struct, but for the errors it reports |
| `RlpItems.EncodingIsItem` | crates/rlp/encode.rs:32-289 | every typed value is encoded as its nested item: numbers as shortest big-endian strings, true as the byte one, false and absence as the empty string, vectors, tuples and structs as lists in order, with absent optional fields left out |
| `RlpItems.StructItem` | crates/rlp/structs.rs:169-209 | a struct without optional fields is encoded as the list of its fields |
| `RlpPanics.ItemPanics` | crates/rlp/decode.rs:338-394 | splitting off an item panics exactly on a header of eight length bytes whose length overflows with the header's own size |
| `RlpPanics.DecodePanics` | crates/rlp/decode.rs:30-330 | for every schema and every input, decoding panics if and only if it comes to an integer wider than its type without a leading zero, or to a length that overflows |
| `RlpPanics.PanickingInputs` | crates/rlp/decode.rs:486-501 | a two-byte integer given three bytes, and a list of the greatest length, panic |
| `RlpBuffer.StrippedIsMinimal` | crates/rlp/encode.rs:123-128 | dropping the leading zeros of a fixed-width integer gives its shortest big-endian form |
| `RlpBuffer.Buffer.EncodeSlice` | crates/rlp/encode.rs:161-181 | appends the encoding of a byte string and nothing else |
| `RlpBuffer.Buffer.PutLength` | crates/rlp/encode.rs:233-244 | appends the header of a string or list |
| `RlpBuffer.Buffer.EncodeInt` | crates/rlp/encode.rs:50-153 | appends the encoding of a machine integer of any width |
| `RlpBuffer.Buffer.EncodeU256` | crates/rlp/encode.rs:207-214 | appends the encoding of a 256-bit integer |
| `RlpBuffer.Buffer.EncodeFlag` | crates/rlp/encode.rs:32-46 | appends the encoding of a flag |
| `RlpBuffer.Buffer.EncodeVec` | crates/rlp/encode.rs:216-231 | adding up item lengths and writing the items gives the encoding of the list |
| `RlpBuffer.Buffer.EncodeTuple` | crates/rlp/encode.rs:246-289 | the same for tuples of any size |
| `RlpBuffer.Buffer.EncodeStruct` | crates/rlp/structs.rs:169-209 | the field encoder with its own buffer gives the encoding of the struct |
| `RlpBuffer.Buffer.EncodePresent` | crates/rlp/structs.rs:187-192 | only the optional fields that are present are appended |
| `RlpBuffer.Buffer.Length` | crates/rlp/encode.rs:19-23 | the length is that of the encoding |
| `RlpBuffer.Buffer.EncodeValue` | crates/rlp/encode.rs:16-253 | for every type, what is appended is the encoding the laws are about |
| `RlpBuffer.DecodeVec` | crates/rlp/decode.rs:261-286 | the loop over list items computes the list of decoded values or the first error |
| `RlpBuffer.StaticLeftPad` | crates/rlp/decode.rs:486-501 | filling the array from the right gives the padded value, the error, or the panic of the specification |
| `Transactions.CanonicalRoundTrip` | crates/core/types/transaction.rs:688-754 | every transaction, with its fields by name, survives the canonical form |
| `Transactions.BodyEncoding` | crates/core/types/transaction.rs:188-260 | the body of each kind of transaction is the list of its named fields in the order of its standard |
| `Transactions.TxEncoding` | crates/core/types/transaction.rs:730-754 | a legacy transaction is written as its list, the others behind the byte 1, 2 or 3 and inside RLP as the string of those bytes; the body decodes to the list |
| `Transactions.TxOfItsFields` | crates/core/types/transaction.rs:262-394 | the decoders put each field back under its own name |
| `Transactions.RlpRoundTrip` | crates/core/types/transaction.rs:111-159 | a transaction survives the RLP form with any suffix if and only if it is legacy or its canonical form has at least 56 bytes |
| `Transactions.BlankIsRefused` | crates/core/types/transaction.rs:111-159 | a blank EIP-2930 transaction, 13 bytes in canonical form, is refused in its RLP form |
| `Headers.HeaderSurvives` | crates/core/types/block.rs:105-183 | the decoder gives back the header, field by field, in front of any suffix if and only if no optional field is taken for an absent one before it: a condition on which fields are there and how the two roots start |
| `Headers.HeaderEncoding` | crates/core/types/block.rs:105-130 | a header is encoded as the list of its fifteen named fields and the optional ones that are there, and the encoding decodes to that list |
| `Headers.GapsByName` | crates/core/types/block.rs:123-127 | that condition is the one of `Headers.TailSurvives` |
| `Headers.ValsOfHeader` | crates/core/types/block.rs:132-183 | the decoder loses nothing of what it reads: the header it gives determines the values |
| `Headers.TailSurvives` | crates/rlp/structs.rs:83-94 | the same for any list of optional integers and hashes |
| `Headers.PrefixHasNoGap` | crates/core/types/block.rs:123-127 | when the present optional fields come first there is no such gap |
| `Headers.GapThatFails` | crates/core/types/block.rs:151-155 | no header with blob gas but neither base fee nor withdrawals root decodes to itself |
| `Headers.BlobGasBecomesFee` | crates/core/types/block.rs:151-155 | when blob gas is the only optional field, it is read as the base fee |
| `Headers.ValsTell` | crates/core/types/block.rs:105-183 | the encoded values determine the header |
| `Nibbles.NibbleVec.Normalize` | crates/trie/nibble.rs:461-468 | clears a vector without nibbles and keeps the nibbles |
| `Nibbles.NibbleVec.Prepend` | crates/trie/nibble.rs:431-438 | puts one nibble in front, at either alignment |
| `Nibbles.NibbleVec.Extend` | crates/trie/nibble.rs:441-458 | concatenates, when the alignment continues |
| `Nibbles.FromSingle` | crates/trie/nibble.rs:358-371 | the vector of one nibble, in the half asked for |
| `Nibbles.SplitExtractAt` | crates/trie/nibble.rs:393-428 | the pieces before, at and after an index, normalised and aligned; they concatenate back |
| `Nibbles.NibbleSlice.Next` | crates/trie/nibble.rs:291-302 | takes the next nibble |
| `Nibbles.NibbleSlice.Len` | crates/trie/nibble.rs:86-88 | the number of nibbles still to traverse |
| `Nibbles.NibbleSlice.SplitToVec` | crates/trie/nibble.rs:101-109 | the first nibbles still to traverse, with the slice's alignment |
| `Nibbles.NibbleSlice.SkipPrefix` | crates/trie/nibble.rs:120-176 | goes out of bounds if and only if the prefix has no more bytes than the path and more nibbles than remain; otherwise advances past the prefix if and only if the rest starts with it |
| `Nibbles.SkipPrefixOverruns` | crates/trie/nibble.rs:120-140 | a call that goes out of bounds |
| `Nibbles.NibbleSlice.CmpRest` | crates/trie/nibble.rs:179-194 | compares what remains of two paths behind one offset; out of bounds if and only if the other path ends before the offset |
| `Nibbles.NibbleSlice.CountPrefixVec` | crates/trie/nibble.rs:197-245 | the length of the longest common prefix with a vector, and how far the offset moves as a side effect |
| `Nibbles.NibbleSlice.CountPrefixSlice` | crates/trie/nibble.rs:249-279 | the length of the longest common prefix with another path |
| `NodeEncoder.BytesLenIsExact` | crates/trie/node_hash.rs:171-177 | the predicted length of a string item is the length written |
| `NodeEncoder.PathLenIsExact` | crates/trie/node_hash.rs:167-169 | the predicted length of a path item is the length written |
| `NodeEncoder.ByteUsage` | crates/trie/node_hash.rs:18-21 | the byte count from the leading zeros is that of the shortest form |
| `NodeEncoder.HexPrefixInjective` | crates/trie/node_hash.rs:198-244 | a path encoding determines the nibbles and whether it belongs to a leaf |
| `NodeEncoder.HexPrefixNibs` | crates/trie/node_hash.rs:30-35 | the hex-prefix form is the one byte string with the nibbles of Appendix C of the Yellow Paper |
| `NodeEncoder.NibbleVecIter.Next` | crates/trie/nibble.rs:481-499 | iterates over the nibbles of a vector |
| `NodeEncoder.CollectVec` | crates/trie/nibble.rs:481-499 | iterating to the end gives all nibbles |
| `NodeEncoder.NodeEncoder.WriteLen` | crates/trie/node_hash.rs:183-192 | writes the same header as the main encoder |
| `NodeEncoder.NodeEncoder.WriteListHeader` | crates/trie/node_hash.rs:179-181 | writes the same list header as the main encoder |
| `NodeEncoder.NodeEncoder.WriteBytes` | crates/trie/node_hash.rs:246-253 | writes the same item as the main encoder |
| `NodeEncoder.NodeEncoder.WritePathSlice` | crates/trie/node_hash.rs:198-220 | writes the RLP string whose nibbles are the flag nibble, 2 for a leaf plus 1 for an odd length, a padding zero for an even one, and the remaining nibbles |
| `NodeEncoder.NodeEncoder.WritePathVec` | crates/trie/node_hash.rs:222-244 | the same for the nibbles of a vector |
| `TrieNode.HashFromItsBytes` | crates/trie/node_hash.rs:81-112 | a hash is recovered from its bytes if and only if it is not an inline hash of 32 bytes |
| `TrieNode.NodeRoundTrip` | crates/trie/rlp.rs:28-130 | a stored node reads back as the node written |
| `TrieNode.BranchRoundTrip` | crates/trie/rlp.rs:58-78 | a branch reads back, with each inline choice of 32 bytes turned into a digest |
| `TrieSize.NodeSize` | crates/trie/rlp.rs:98-112 | no node the trie can form is too long to be read back |
| `TrieHash.EncodeRawLeaf` | crates/trie/node/leaf.rs:125-143 | writes the encoding a leaf is hashed from, behind a header of the right length |
| `TrieHash.LeafLens` | crates/trie/node/leaf.rs:125-143 | the lengths predicted for a leaf add up to its payload |
| `TrieHash.EncodeRawExtension` | crates/trie/node/extension.rs:170-186 | the same for an extension |
| `TrieHash.ExtensionLens` | crates/trie/node/extension.rs:170-186 | the lengths predicted for an extension add up to its payload |
| `TrieHash.EncodeRawBranch` | crates/trie/node/branch.rs:267-308 | the same for a branch |
| `TrieHash.HashIsRef` | crates/trie/node_hash.rs:49-56 | hashing gives a digest or an inline list item shorter than 32 bytes |
| `TrieHash.HashInjective` | crates/trie/node_hash.rs:47-56 | while Keccak does not collide on the nodes involved, a hash belongs to one trie only |
| `TrieItems.NodeEncoding` | crates/trie/node_hash.rs:198-253 | a node is hashed from the list of path and value, of path and child, or of sixteen children and value, and the encoding decodes to it |
| `TrieItems.TreeEncoding` | crates/trie/node_hash.rs:49-56 | a trie is hashed from the item of Appendix D of the Yellow Paper, in which nodes of less than 32 bytes stand inside their parents and the others by digest |
| `TrieItems.KeyValueLeaf` | crates/trie/node/leaf.rs:322-330 | the encoding of a leaf given in a test |
| `TrieItems.StoredEncoding` | crates/trie/rlp.rs:28-112 | a node is stored behind a byte for its kind as the list of its fields, byte vectors being lists of numbers |
| `TrieTree.InsertWF` | crates/trie/node/extension.rs:44-115 | insertion keeps the canonical shape, for keys of any lengths |
| `TrieTree.LookupInsert` | crates/trie/node.rs:49-61 | after an insertion the key reads the value and every other key what it read before, whatever the lengths of the keys |
| `TrieTree.InsertLaw` | crates/trie/node/branch.rs:92-125 | that holds if and only if no branch is given an empty value |
| `TrieTree.ClearMeans` | crates/trie/node/branch.rs:92-125 | which is to say: among the key and the bound keys, one that another starts with has a value that is not empty |
| `TrieTree.OverrunKey` | crates/trie/nibble.rs:120-140 | a path that goes out of bounds shares its first byte with a longer key |
| `TrieTree.FirstByteTells` | crates/trie/nibble.rs:120-176 | where the first byte of a key tells its length, no path goes out of bounds |
| `TrieTree.RemoveWF` | crates/trie/node/branch.rs:129-259 | removal keeps the canonical shape |
| `TrieTree.LookupRemove` | crates/trie/node.rs:63-75 | the removal that the code aims at unbinds the key and nothing else |
| `TrieTree.Canonical` | crates/trie/trie.rs:122-134 | tries with equal contents are equal |
| `TrieTree.InsertsCommute` | crates/trie/trie.rs:82-100 | inserting two different keys in either order gives one trie |
| `TrieTree.RemoveUndoesInsert` | crates/trie/trie.rs:102-120 | removing a key that was absent before its insertion restores the trie |
| `TrieStore.TrieState.GetNode` | crates/trie/state.rs:27-35 | the cached node, or the decoded database entry |
| `TrieStore.TrieState.CommitChoices` | crates/trie/state.rs:54-58 | committing the choices one after the other keeps the walk exact, though nodes are shared |
| `TrieStore.TrieState.InsertNode` | crates/trie/state.rs:38-40 | changes the cache at one hash |
| `TrieStore.TrieState.InsertSelf` | crates/trie/node.rs:93-103 | stores a node under the hash of its trie; a trie whose children are stored is stored, and nothing stored is lost |
| `TrieStore.TrieState.CommitNode` | crates/trie/state.rs:51-70 | the recursive walk ends on every graph, moves exactly a reference-closed set of reachable nodes from cache to database |
| `TrieStore.TrieState.Commit` | crates/trie/state.rs:44-48 | the same, and the cache is empty afterwards |
| `TrieStore.StoredExtends` | crates/trie/state.rs:37-40 | additions to the cache keep every known trie readable |
| `TrieStore.MatchesHash` | crates/trie/node/leaf.rs:120-143 | a stored node hashes to the hash of the trie it stands for; only for a leaf does the offset matter |
| `TrieCommit.WalkSurvives` | crates/trie/state.rs:42-70 | along every walk from the committed root, shared or cyclic, each hash resolves from the database alone as before |
| `TrieCommit.KeptReads` | crates/trie/state.rs:42-70 | what was moved, or only ever was in the database, reads from it as before |
| `TrieCommit.OldEntriesUnchanged` | crates/trie/state.rs:42-70 | entries of earlier commits read the same |
| `TrieTree.StopAlone` | crates/trie/node.rs:40-47 | a walk that ends at a leaf has no other bound key ahead of it |
| `TrieTree.LookupRegrown` | crates/trie/node/leaf.rs:25-32 | giving the leaf at the end of a walk another suffix takes one key away and adds one, with the same value |
| `TrieWalk.SeenIsTrie` | crates/trie/nibble.rs:179-194 | a walk sees the trie as it is, within bounds, if and only if the leaf it ends at is in place |
| `TrieWalk.ReadsRight` | crates/trie/node/leaf.rs:25-32 | a path reads what the trie binds if and only if it overruns no prefix and the leaf it ends at is in place, or is not the one asked for, neither as it is nor as it is seen |
| `TrieWalk.BoundReads` | crates/trie/node/leaf.rs:25-32 | a bound key is read if and only if its leaf is in place |
| `TrieWalk.InsertsRight` | crates/trie/node/leaf.rs:35-108 | binding a key in the trie as it is seen changes the contents at that key only, if and only if the leaf seen is in place |
| `TrieInsert.NodeGet` | crates/trie/node.rs:40-47 | reads the trie as the walk sees it, or panics, if and only if the path goes out of bounds in a prefix or a stored leaf; no `expect` fails and no entry fails to decode |
| `TrieInsert.ExtensionGet` | crates/trie/node/extension.rs:25-41 | the same from an extension |
| `TrieInsert.BranchGet` | crates/trie/node/branch.rs:67-89 | the same from a branch |
| `TrieInsert.LeafInsert` | crates/trie/node/leaf.rs:35-108 | with whatever path the leaf is stored: the returned node stands for the trie as seen with the key bound, the rest of it is stored, and exactly the leaves of `TrieInsert.Writes` are; a path that ends above the place panics |
| `TrieInsert.LeafFork` | crates/trie/node/leaf.rs:50-106 | two keys that part become a branch with two leaves, or with one and a value when one key ends there; each leaf is stored with its own path, the one that was there last |
| `TrieInsert.ExtensionInsert` | crates/trie/node/extension.rs:44-115 | the same from an extension, whether the key passes through or leaves it |
| `TrieInsert.ExtensionPass` | crates/trie/node/extension.rs:60-70 | a key that has the prefix is bound behind it |
| `TrieInsert.ChildInsert` | crates/trie/node/branch.rs:101-118 | the child under a choice, or a new leaf if there is none, is stored with the key bound |
| `TrieInsert.ExtensionLeave` | crates/trie/node/extension.rs:65-114 | a key that leaves the prefix splits it |
| `TrieInsert.ExtensionFork` | crates/trie/node/extension.rs:65-114 | the split keeps the child under what remains of the prefix, at every position, the ends included |
| `TrieInsert.BranchInsert` | crates/trie/node/branch.rs:92-125 | the same from a branch |
| `TrieInsert.NodeInsert` | crates/trie/node.rs:50-61 | the same from any node; panics before it stores anything if and only if the path goes out of bounds in a prefix or a stored leaf |
| `TrieInsert.WritesLeaves` | crates/trie/node/leaf.rs:145-155 | what an insertion stores as a leaf is a leaf of the new trie |
| `TrieFit.StepFits` | crates/trie/node/leaf.rs:145-155 | through an insertion leaves stay in place if those whose values it stores again have keys of the lengths it stores them with |
| `TrieRemove.RestructuredRight` | crates/trie/node/branch.rs:191-259 | a branch is restructured right if and only if its value survives, by its stored path and the number and kind of its children, and a leaf that moves is stored with the right key |
| `TrieRemove.RemoveViaIsRemove` | crates/trie/node/branch.rs:191-259 | removal gives the right trie if and only if the leaf at the end of the walk is in place, every branch on the way is restructured right and the leaf that moves, if any, has a stored key that ends with its new suffix |
| `TrieRemove.RemovesOnlyKey` | crates/trie/node/branch.rs:191-259 | the contents lose the key and nothing else under exactly that condition |
| `TrieRemove.RemovedRight` | crates/trie/node/leaf.rs:111-117 | a bound key returns its value if and only if its leaf is in place, or its branch is stored with a path |
| `TrieRemove.GarbledLoses` | crates/trie/node/branch.rs:211-240 | an only child that is a branch and is put behind its own nibble once more loses its keys |
| `TrieRemove.ViaWF` | crates/trie/node/branch.rs:191-259 | with any stored keys the result is canonical, and only a leaf can be gone altogether |
| `TrieRemove.FindOnly` | crates/trie/node/branch.rs:198-209 | finds the one valid choice if there is exactly one |
| `TrieRemove.Promote` | crates/trie/node/branch.rs:211-256 | the only child takes its parent's place: prefixed, merged, or as the stored leaf |
| `TrieRemove.Restructure` | crates/trie/node/branch.rs:191-259 | what is left of a branch with or without a value, by the number and kind of its children: a trie, a failed assertion, or a branch that no longer stands for a trie |
| `TrieRemove.KeepOnly` | crates/trie/node/branch.rs:211-242 | a branch with a value and one child stays as it is for a leaf, fails an assertion for an extension, and is garbled for a branch |
| `TrieRemove.BranchRemove` | crates/trie/node/branch.rs:129-259 | removal from a branch: the value removed, and the trie that is left, given the stored key of the leaf that moves up |
| `TrieRemove.ChildRemove` | crates/trie/node/branch.rs:155-175 | the child is replaced by what removal leaves of it; hashing a leaf whose stored path ends above its place panics |
| `TrieRemove.ExtensionRemove` | crates/trie/node/extension.rs:117-162 | the same from an extension, with prefixes merged |
| `TrieRemove.Rejoin` | crates/trie/node/extension.rs:137-156 | what is left of the child takes the prefix in front: merged, extended, or as the stored leaf |
| `TrieRemove.NodeRemove` | crates/trie/node.rs:65-75 | the same from any node, with the value removed; panics if and only if the path goes out of bounds in a prefix or a stored leaf, or an assertion fails |
| `Trie.SoundStored` | crates/trie/state.rs:26-35 | in a sound store a known trie can be read as soon as its hash resolves |
| `Trie.CommitResolves` | crates/trie/state.rs:42-70 | what was moved, and what was only in the database, reads as before |
| `Trie.SoundCommit` | crates/trie/state.rs:42-70 | after a commit the database alone is sound and resolves every hash that no longer is in the cache |
| `Trie.LeavesGrow` | crates/trie/state.rs:37-40 | after an operation the leaves in the cache are those before it and those it wrote |
| `Trie.DigestIsKeccak` | crates/trie/node_hash.rs:57-66 | the root hash is the Keccak hash of the root's encoding, however short |
| `Trie.DigestIsRoot` | crates/trie/trie.rs:122-134 | the root hash is that of the Yellow Paper: Keccak of the item of the root node, or of the empty string for the empty trie |
| `Trie.DigestTellsContents` | crates/trie/trie.rs:122-134 | two tries have one root hash if and only if they bind the same keys to the same values |
| `Trie.Reopens` | crates/trie/trie.rs:60-67 | a committed root is found under its hash if and only if its encoding has at least 32 bytes |
| `Trie.Trie.constructor` | crates/trie/trie.rs:52-58 | a new trie is valid and empty |
| `Trie.Trie.Open` | crates/trie/trie.rs:60-67 | opens the trie with the given root hash; its root is lost if and only if the database has no entry under that hash |
| `Trie.Trie.Get` | crates/trie/trie.rs:69-80 | panics if and only if the root is lost or the path goes out of bounds in a prefix or a stored leaf; gives the value bound to the key under exactly the condition of `TrieWalk.ReadsRight` |
| `Trie.Trie.Insert` | crates/trie/trie.rs:82-100 | binds the key in the trie as it is seen, and stores exactly the leaves of `TrieInsert.Writes`; all other bindings are kept if and only if the leaf seen is in place; a trie whose root is lost starts anew; panics if and only if the path goes out of bounds |
| `Trie.Trie.Remove` | crates/trie/trie.rs:102-120 | returns the old value; says exactly when it panics, when it leaves a broken branch, and when the key and nothing else is unbound |
| `Trie.Trie.RootHashInMemory` | crates/trie/trie.rs:178-182 | returns the root hash of the contents |
| `Trie.Trie.RootHash` | crates/trie/trie.rs:122-134 | returns the root hash; the database then holds the whole trie without the cache |
| `TrieBuild.OrderIsIrrelevant` | crates/trie/trie.rs:157-183 | bindings that end up the same give one trie, whatever their order and the lengths of the keys |
| `TrieBuild.PermutationIsIrrelevant` | crates/trie/trie.rs:157-183 | every order of bindings of distinct keys gives one trie |
| `TrieBuild.BuildBinds` | crates/trie/trie.rs:157-183 | each key is bound to the last value given for it |
| `TrieBuild.ComputeHashFromUnsorted` | crates/trie/trie.rs:157-183 | the hash of what is built with the leaves stored on the way (`TrieBuild.BuildVia`); a panic if and only if a binding goes out of bounds |
| `TrieBuild.BuildsRight` | crates/trie/trie.rs:157-183 | the bindings are built right, each after the other, if and only if no key overruns a prefix or ends at a leaf that is not in place |
| `TrieBuild.OneLengthIsEnough` | crates/trie/trie.rs:157-183 | if every value is bound to keys of one length only, no key ends at a leaf that is not in place |
| `TrieBuild.OrderlyUntil` | crates/trie/trie.rs:157-183 | what is built when none stumbles is the trie of the bindings; after an overrun the run has panicked |
| `TrieBuild.FullIsOrderly` | crates/trie/trie.rs:157-183 | what the loop asks of its bindings holds for all that have no empty value, whatever is built from them |
| `TrieBuild.LeavesSuffice` | crates/trie/trie.rs:157-183 | a walk sees the same with the cached leaves alone as with the whole cache |
| `TrieBuild.FirstByteIsEnough` | crates/trie/trie.rs:157-183 | where the first byte of a key tells its length, no key goes out of bounds and no value is lost |
| `TrieList.UintFirstByte` | crates/rlp/encode.rs:113-153 | the first byte of an encoded integer tells its length |
| `TrieList.IndexedBuilds` | crates/core/types/block.rs:205-231 | for every list, under the encodings of its indices, every order of the bindings has one trie, and no key overruns a prefix |
| `TrieList.AnyOrder` | crates/core/types/block.rs:205-231 | every order is built right if the indices of equal elements are encoded in one length |
| `TrieList.EndLength` | crates/core/types/block.rs:205-231 | in the order of the indices, a walk ends at leaves whose keys are as long as the one bound last |
| `TrieList.IndexOrder` | crates/core/types/block.rs:205-231 | in the order of the indices nothing stumbles, whatever the elements are |
| `TrieList.RootTellsList` | crates/core/types/block.rs:205-231 | two lists have one root if and only if they are equal |
| `TrieList.ListRoot` | crates/core/types/block.rs:205-231 | for every list, whether its elements repeat or not, the objects compute that root |
| `TrieRuns.SharedLeaf` | crates/trie/node/branch.rs:248-253 | a run on objects in which removing one key leaves it bound and unbinds another |
| `TrieRuns.KeptValue` | crates/trie/node/branch.rs:243-247 | a run in which removing an absent key unbinds a key below a branch that keeps a value |
| `TrieRuns.ShortRoot` | crates/trie/trie.rs:60-97 | a run in which a committed trie is opened again: reading panics, and inserting forgets the key |
| `TrieRuns.KeyThatStumbles` | crates/trie/nibble.rs:120-140 | for any four different values, a list of bindings whose last key goes out of bounds, though in another order it gives a hash |
| `TrieRuns.SharedAcrossLengths` | crates/trie/node/leaf.rs:25-108 | a run in which two keys of different lengths with one value share a stored leaf: reading one of them and binding a third panic |
| `TrieRuns.OrderThatPanics` | crates/trie/trie.rs:157-183 | every list with one element at 16 and 144 panics in an order that begins with 144, 128, 16 and 145 |
| `Kademlia.BucketNumberSym` | crates/net/kademlia.rs:262-268 | distance is symmetric, so lookups and replacements use one bucket |
| `Kademlia.BucketNumberRange` | crates/net/kademlia.rs:262-268 | every id has a bucket |
| `KademliaEffects.BucketNumberIs` | crates/net/kademlia.rs:262-268 | the bucket of an id is the highest bit in which the hashes, as big-endian numbers, differ |
| `Kademlia.InsertKeepsBucket` | crates/net/kademlia.rs:76-122 | insertion keeps the sizes, the distinct ids, the place of each id, and replacements only for a full bucket |
| `Kademlia.ReplaceKeepsBucket` | crates/net/kademlia.rs:236-256 | replacing keeps the same |
| `Kademlia.FindIsScan` | crates/net/kademlia.rs:39-53 | looking into one bucket finds what a scan of the whole table finds |
| `Kademlia.InsertNodeOk` | crates/net/kademlia.rs:60-112 | insertion keeps the bucket invariant and every peer, and adds at most one |
| `Kademlia.SetPeerOk` | crates/net/kademlia.rs:148-180 | overwriting an entry keeps the invariant and all other peers |
| `Kademlia.ReplacePeerOk` | crates/net/kademlia.rs:222-256 | replacing removes one peer, may promote one replacement, and keeps all others |
| `KademliaEffects.InsertedEffect` | crates/net/kademlia.rs:76-122 | a node that is listed changes nothing; another becomes a peer while there are fewer than 16, and otherwise the latest of at most ten replacements, the oldest making room |
| `KademliaEffects.InsertFound` | crates/net/kademlia.rs:60-112 | after an insertion the node is known, it was added to the peers if and only if it was new and its bucket had room, and everybody else is found as before |
| `KademliaEffects.SetFound` | crates/net/kademlia.rs:148-180 | after an overwriting the entry is found, and everybody else as before |
| `KademliaEffects.ReplaceFound` | crates/net/kademlia.rs:222-256 | after a replacement the peer is not found, the latest replacement of its bucket is, and everybody else as before |
| `Kademlia.KademliaTable.GetByNodeId` | crates/net/kademlia.rs:39-45 | finds a peer if and only if the table has one with the id |
| `Kademlia.KademliaTable.Insert` | crates/net/kademlia.rs:60-122 | a peer known already is left alone, a full bucket takes it as a replacement in place of the oldest, otherwise it joins |
| `Kademlia.KademliaTable.Pong` | crates/net/kademlia.rs:148-159 | marks the peer as proven and clears its ping hash |
| `Kademlia.KademliaTable.Ping` | crates/net/kademlia.rs:161-170 | records the ping of a peer in the table |
| `Kademlia.KademliaTable.PingWithRevalidation` | crates/net/kademlia.rs:172-180 | the same, and marks the peer as being revalidated |
| `Kademlia.KademliaTable.Replace` | crates/net/kademlia.rs:222-256 | the replacement inserted last, if any, takes the place of the peer; otherwise the peer is dropped |
| `Kademlia.KademliaTable.GetLeastRecentlyPingedPeers` | crates/net/kademlia.rs:190-214 | for a limit of at least one, that many peers of least last pong; nothing dropped has a smaller one |
| `Kademlia.ClosestNodesFacts` | crates/net/kademlia.rs:124-146 | sixteen distinct peers, or all, among them one at least distance |
| `Closest.DistanceFromBuckets` | crates/net/kademlia.rs:262-268 | the distance to a target follows from the buckets: lower ones are as far as the target's, higher ones as far as their own, and the target's own is closer |
| `Closest.ClosestWhenInOrder` | crates/net/kademlia.rs:124-146 | the nodes given are the closest of the table if and only if the peers of the target's bucket that find no free place come in order of distance |
| `Closest.CloserPeerLeftOut` | crates/net/kademlia.rs:133-140 | a table for which a closer peer is left out |
| `Kademlia.GetClosestNodes` | crates/net/kademlia.rs:124-146 | the scan computes that selection |
| `DiscoveryInv.RecordKeeps` | crates/net/kademlia.rs:161-170 | recording a ping keeps the invariant and every id |
| `DiscoveryInv.MessageKeeps` | crates/net/net.rs:127-287 | receiving a message keeps the invariant and every id |
| `DiscoveryInv.NeighborsKeep` | crates/net/net.rs:234-283 | accepting neighbors keeps the invariant, the count of accepted nodes included; what it brings about is said by `DiscoverySteps.NeighborsArrive`, `DiscoverySteps.NeighborsJoin` and `DiscoverySteps.NeighborsCount` |
| `DiscoveryInv.ServeKeeps` | crates/net/net.rs:135-233 | the later critical sections of a message keep the invariant |
| `DiscoveryInv.PongKeeps` | crates/net/net.rs:187-189 | marking a peer as proven keeps the invariant |
| `DiscoveryInv.BootKeeps` | crates/net/net.rs:293-313 | start-up keeps the invariant |
| `DiscoveryInv.CheckKeeps` | crates/net/net.rs:350-377 | looking at a previously pinged peer finds it, fails only on an overflow, keeps the invariant, and removes at most that peer |
| `DiscoveryInv.SelectKeeps` | crates/net/net.rs:382-383 | the peers chosen for revalidation are in the table |
| `DiscoveryInv.RevalidateKeeps` | crates/net/net.rs:384-397 | pinging for revalidation keeps the invariant |
| `DiscoveryInv.QueryKeeps` | crates/net/net.rs:536-551 | opening a request keeps the invariant |
| `DiscoveryInv.RunKeeps` | crates/net/net.rs:105-401 | every state of every interleaving keeps the invariant |
| `DiscoveryInv.EndpointProof` | crates/net/net.rs:127-287 | in the log, a proven peer sent a pong for a hash recorded before; neighbors go only to such peers; no request accepts more than sixteen nodes |
| `DiscoveryProof.NextAdds` | crates/net/net.rs:127-287 | every event of the log has its cause in the step that adds it |
| `DiscoveryProof.ProvenPeers` | crates/net/net.rs:173-197 | for every proven peer there is a step that received its pong before it expired, for a ping that an earlier step sent to that peer |
| `DiscoveryProof.NeighborsAccounted` | crates/net/net.rs:198-233 | behind every neighbors message stand four steps in order: a ping to the peer, its pong in time, its request in time, and the answer, sent to the address the request came from |
| `DiscoveryProof.AnyAddressAnyTime` | crates/net/net.rs:198-233 | for every address and every later time there is a run that sends neighbors there on an old proof |
| `DiscoveryInv.BucketsAlwaysOk` | crates/net/kademlia.rs:39-122 | in every state of every run the buckets are in order and lookup agrees with a scan |
| `DiscoveryInv.UnwrapNeverFails` | crates/net/net.rs:350-360 | the `unwrap` on a previously pinged peer never fails; looking at it panics only when its 16-bit liveness overflows |
| `DiscoveryInv.OnlyRevalidationEvicts` | crates/net/net.rs:354-376 | a peer leaves the table only in revalidation, without an answer to its last ping and with a liveness of one or two |
| `DiscoverySteps.NeighborsArrive` | crates/net/net.rs:270-283 | everyone sent in an accepted neighbors message is afterwards a peer or a replacement of its bucket, unless a later node of the message displaced it from a full list |
| `DiscoverySteps.NeighborsJoin` | crates/net/net.rs:270-283 | a node that was not known joins the peers with the hash of the ping it was sent, which is recorded, unless its bucket is full |
| `DiscoverySteps.NeighborsCount` | crates/net/net.rs:240-268 | the sender's request counts the nodes and is closed at sixteen; no peer, and nobody who was not sent, changes |
| `DiscoverySteps.NeighborsRefused` | crates/net/net.rs:234-268 | other neighbors messages change nothing, except that a request older than a minute is closed |
| `DiscoverySteps.MessageTaken` | crates/net/net.rs:127-232 | the server takes up exactly pings in time, pongs in time to the last ping, and requests in time of proven peers |
| `DiscoverySteps.StrangerIsInserted` | crates/net/net.rs:151-160 | the sender of a ping who is not a peer is known afterwards, and a peer if new with room in its bucket |
| `DiscoverySteps.PingedBack` | crates/net/net.rs:137-171 | one that joined is pinged back, and so is exactly the known peer whose last ping is twelve hours old |
| `DiscoverySteps.PongProves` | crates/net/kademlia.rs:148-159 | a matching pong proves the peer, sets the time, clears the hash and answers a revalidation |
| `DiscoverySteps.RequestIsAnswered` | crates/net/net.rs:198-227 | a request of a proven peer is answered to its address with up to sixteen distinct peers, among them a nearest one |
| `DiscoverySteps.BootInserts` | crates/net/net.rs:300-306 | the next bootnode is known afterwards |
| `DiscoverySteps.BootRecords` | crates/net/net.rs:307-312 | then the hash of its ping is recorded |
| `DiscoverySteps.CheckKeepsAlive` | crates/net/net.rs:350-365 | a peer gets one more life for an answer and keeps a third without one; with lives left it stays, its round forgotten |
| `DiscoverySteps.CheckEvicts` | crates/net/net.rs:366-377 | without lives it is gone, and the latest replacement of its bucket takes its place and is pinged |
| `DiscoverySteps.RevalidatePings` | crates/net/net.rs:384-397 | a selected peer is pinged and waits for its answer |
| `DiscoverySteps.QueryOpens` | crates/net/net.rs:536-551 | a query opens a request of a peer that has none, and only then |
| `DiscoverySteps.BootnodesArrive` | crates/net/net.rs:293-313 | in every run each bootnode that is no longer to be inserted has been in the table |
| `DiscoverySteps.PingIsServed` | crates/net/net.rs:127-171 | in every run a stranger's ping makes it known at the server's next step; if it joined, the hash of the ping sent back is recorded at the step after that |
| `Lookup.RecursiveLookup.constructor` | crates/net/net.rs:479-489 | a lookup starts with the closest nodes, nothing asked |
| `Lookup.RecursiveLookup.FarthestBeyond` | crates/net/net.rs:583-593 | the farthest candidate, if farther than the new node |
| `Lookup.RecursiveLookup.Push` | crates/net/net.rs:575-598 | the candidates stay the closest of all nodes offered, without duplicates, at most sixteen; the ids seen are those offered and the own one |
| `Lookup.RecursiveLookup.PushNew` | crates/net/net.rs:504-509 | every node sent is seen afterwards, and only nodes sent are offered |
| `Lookup.RecursiveLookup.Round` | crates/net/net.rs:520-573 | asks the first three candidates that are available and were not asked before, and returns exactly what they send |
| `Lookup.RecursiveLookup.Go` | crates/net/net.rs:472-518 | the rounds are told one by one: each asks the first three candidates that can be asked, or all there are, the last one asks nobody; no peer is asked twice; everyone sent in any round has been seen; those offered are the ones at the start and ones sent, and the candidates are the closest of them; there is at most one round more than there are ids |
| `Journal.LoadAgrees` | crates/evm_mlir/src/journal.rs:359-375 | loading an account changes nothing that is visible |
| `Journal.ApplyAgrees` | crates/evm_mlir/src/journal.rs:128-264 | every operation does to the journal what it does to the reference, marks and cached keys included, and fails exactly when it fails there |
| `Journal.ExecuteAgrees` | crates/evm_mlir/src/journal.rs:126-351 | after every run with any nesting of calls and reverts the journal shows what the reference shows, accounts, slots, codes, marks and cached keys; cached slots remember the database's values |
| `JournalStack.ReplayRun` | crates/evm_mlir/src/journal.rs:326-351 | nested calls do what a machine without recursion does that pushes a snapshot on entry, hands it down on success and drops it on revert |
| `JournalStack.SnapshotsAgree` | crates/evm_mlir/src/journal.rs:126-351 | after every run the stack is back to one snapshot, which shows what the journal shows; both fail alike |
| `Journal.StartAgrees` | crates/evm_mlir/src/journal.rs:99-104 | an empty journal shows the database |
| `JournalCommit.JournalState.GetAccountMut` | crates/evm_mlir/src/journal.rs:359-375 | loads the account on first use |
| `JournalCommit.JournalState.NewAccount` | crates/evm_mlir/src/journal.rs:128-132 | an account appears with the balance, marked as created |
| `JournalCommit.JournalState.AddAccountAsWarm` | crates/evm_mlir/src/journal.rs:134-141 | an account cached already loses its cold mark; any other is cached as new and empty, whatever the database holds |
| `JournalCommit.JournalState.NewContract` | crates/evm_mlir/src/journal.rs:143-157 | the account appears with the hash of its code, and the code is kept under it |
| `JournalCommit.JournalState.SetBalance` | crates/evm_mlir/src/journal.rs:159-164 | changes the balance of an existing account and marks it; nothing without account or database handle |
| `JournalCommit.JournalState.SetNonce` | crates/evm_mlir/src/journal.rs:166-171 | the same for the nonce |
| `JournalCommit.JournalState.SetStatus` | crates/evm_mlir/src/journal.rs:173-177 | adds marks to an existing account; by `Journal.ApplyAgrees` those of the reference |
| `JournalCommit.JournalState.CodeByAddress` | crates/evm_mlir/src/journal.rs:183-200 | returns the visible code and marks the account |
| `JournalCommit.JournalState.IsAccountWarm` | crates/evm_mlir/src/journal.rs:204-209 | tells whether the account is cached and not cold |
| `JournalCommit.JournalState.IsKeyWarm` | crates/evm_mlir/src/journal.rs:230-235 | tells whether the slot is cached |
| `JournalCommit.MarksAlike` | crates/evm_mlir/src/journal.rs:204-209 | which accounts vanish, are modified or are warm can be read off the marks of the reference |
| `JournalCommit.JournalState.ReadStorage` | crates/evm_mlir/src/journal.rs:239-250 | returns the visible slot and caches it |
| `JournalCommit.JournalState.WriteStorage` | crates/evm_mlir/src/journal.rs:252-264 | writes the slot; fails exactly when there is no account |
| `JournalCommit.JournalState.PrefetchAccountKeys` | crates/evm_mlir/src/journal.rs:215-227 | loads the slots of all keys from the database |
| `JournalCommit.JournalState.EjectBase` | crates/evm_mlir/src/journal.rs:326-333 | the callee gets a copy and the handle |
| `JournalCommit.JournalState.ExtendFromSuccessful` | crates/evm_mlir/src/journal.rs:335-340 | the caller takes over state and handle |
| `JournalCommit.JournalState.ExtendFromReverted` | crates/evm_mlir/src/journal.rs:342-351 | the caller takes back the handle only |
| `JournalCommit.JournalState.Run` | crates/evm_mlir/src/journal.rs:126-351 | objects with nested call frames compute the specified run and keep the handle |
| `JournalCommit.WarmKeepsView` | crates/evm_mlir/src/journal.rs:134-141 | warming keeps what is visible if and only if the account is cached or empty in the database |
| `JournalCommit.WarmEmpties` | crates/evm_mlir/src/journal.rs:134-141 | an account with a balance shows as empty once it is warmed |
| `JournalCommit.PrefetchKeepsView` | crates/evm_mlir/src/journal.rs:215-227 | prefetching keeps what is visible if and only if no key holds an unsaved value |
| `JournalCommit.PrefetchDiscards` | crates/evm_mlir/src/journal.rs:215-227 | a slot that was written shows the database's value again once it is prefetched |
| `JournalCommit.IntoState` | crates/evm_mlir/src/journal.rs:285-324 | hands every account over with its marks and slots, and with its visible code if and only if the journal holds that code |
| `JournalCommit.Database.Commit` | crates/evm_mlir/src/db.rs:139-180 | in any order, merges exactly the changed accounts, keeps stored code, and adds exactly the code that created accounts bring |
| `JournalCommit.CommittedCode` | crates/evm_mlir/src/db.rs:148-179 | code is added for a hash if and only if the journal holds it and a created account that stays has that hash |
| `JournalCommit.CommitShowsJournal` | crates/evm_mlir/src/db.rs:139-168 | afterwards the database shows what the journal showed if and only if every account created and destroyed in one go already looked like its entry |
| `JournalCommit.CommitAfterRun` | crates/evm_mlir/src/db.rs:139-168 | after whole runs from an empty journal a commit settles every address by the reference: created and destroyed, or without a mark, it keeps its entry; otherwise it has a cold entry with the account and slots of the reference |
| `JournalCode.ExecuteKeepsCode` | crates/evm_mlir/src/journal.rs:126-351 | along every run each account with code finds it, in the database or as a contract created here |
| `JournalCode.CommitKeepsCode` | crates/evm_mlir/src/db.rs:139-180 | with code stored under its hash, every account that stays shows the code it showed, and the database again stores the code of every account under its hash |
| `JournalCode.TransactionShows` | crates/evm_mlir/src/db.rs:139-180 | after a whole run and its commit every address is settled by the reference, and every account that was not created and destroyed shows the reference's code |
| `JournalCode.TransactCommit` | crates/evm_mlir/src/lib.rs:131-135 | the objects together: journal, call frames, hand-over and commit leave such a database, unchanged when the run fails, and fit for the next transaction |
| `JournalMarks.KeptRun` | crates/evm_mlir/src/journal.rs:326-351 | a run that succeeds does what its operations outside reverted calls alone do |
| `JournalMarks.CreatedThenDestroyed` | crates/evm_mlir/src/syscall.rs:1101-1104 | an account that kept operations create, then destroy and do not create again vanishes |
| `JournalMarks.VanishesOnlyDestroyed` | crates/evm_mlir/src/journal.rs:173-177 | an account vanishes only if a kept operation destroys it after its last creation |
| `JournalMarks.DestroyedIsAsBefore` | crates/evm_mlir/src/db.rs:139-148 | after the transaction it is in the database as it was before |
| `JournalMarks.GoneAtOnce` | crates/evm_mlir/src/db.rs:139-148 | a contract created and destroyed at once over an empty database is nowhere |
| `Program.ParsePrintParse` | crates/evm_mlir/src/program.rs:563-593 | parsing, printing and parsing again gives the same program |
| `Program.PrintsBack` | crates/evm_mlir/src/program.rs:429-523 | a program prints back to its bytecode if and only if every instruction byte is known or 0xFE and no push is cut off |
| `Program.PrintedParses` | crates/evm_mlir/src/program.rs:429-523 | a printed operation parses back, whatever stands around it |
| `Program.PushReads` | crates/evm_mlir/src/program.rs:595-979 | a push reads the bytes behind it as a big-endian number; cut off by the end of the code it keeps its size and reads the bytes there are, without adding zeros |
| `Program.CutOffPush` | crates/evm_mlir/src/program.rs:595-979 | a two-byte push with one byte of data reads that byte |
| `Program.Opcodes` | crates/evm_mlir/src/program.rs:181-360 | which operation each byte stands for, and exactly which bytes stand for none |
| `Program.TargetsAreValid` | crates/evm_mlir/src/program.rs:595-979 | the parsed jump destinations are the valid ones of the Yellow Paper, section 9.4.3 |
| `Program.SizeIsPrintedLength` | crates/evm_mlir/src/program.rs:981-990 | the code size is the printed length |
| `Program.FromBytecode` | crates/evm_mlir/src/program.rs:563-586 | the loop computes the program, its size and the valid jump destinations |
| `Program.FromBytecodeChecked` | crates/evm_mlir/src/program.rs:533-561 | fails with all unknown instruction bytes in order, and exactly without any succeeds with the same program |
| `Memory.Memory.Load` | crates/levm/src/memory.rs:30-39 | reads a word of the grown buffer |
| `Memory.Memory.LoadRange` | crates/levm/src/memory.rs:41-44 | reads a range of the grown buffer |
| `Memory.Memory.StoreBytes` | crates/levm/src/memory.rs:46-51 | overwrites a range of the grown buffer |
| `Memory.Memory.Copy` | crates/levm/src/memory.rs:57-65 | copies a range, also onto itself |
| `Memory.Memory.ExpansionCost` | crates/levm/src/memory.rs:67-78 | what growing to a size costs; overflows if and only if the memory grows beyond 2^32 - 1 words; by `Memory.ExpansionIsDifference` the difference of the costs of two sizes |
| `Memory.Memory.Resize` | crates/levm/src/memory.rs:24-28 | grows to a multiple of 32, with zeros, and never shrinks |
| `Memory.ExpansionIsDifference` | crates/levm/src/memory.rs:67-78 | the charge is the difference between the costs of the grown and the present size, and nothing without growth |
| `Memory.ApplyAgrees` | crates/levm/src/memory.rs:24-65 | every access reads and leaves what it would on an unbounded memory of zeros |
| `Memory.RunAgrees` | crates/levm/src/memory.rs:24-78 | the same for whole runs; the size stays a multiple of 32; the charges add up to the difference of two costs |
| `Memory.TotalCost` | crates/levm/src/memory.rs:67-78 | from an empty memory the total charge depends on the final size only: three for each word and one for each whole 512 of the square of their number |
| `Fees.TargetIsPositive` | crates/core/types/block.rs:348-354 | after the gas limit check no division is by zero |
| `Fees.BaseFeeExact` | crates/core/types/block.rs:342-380 | in 64 bits the code panics exactly when the limit check or the fee arithmetic overflows; otherwise it gives the unbounded result, which is the fee that follows by `Fees.BaseFeeFollows` |
| `Fees.BaseFeeFollows` | crates/core/types/block.rs:342-380 | there is a fee if and only if the limit passes, and it is the one that falls by the largest d with 8 * target * d <= fee * (target - used), or rises by the largest such d above the target, at least one |
| `Fees.LimitStep` | crates/core/types/block.rs:310-317 | the limit passes if and only if it is at least 5000 and moves by less than a 1024th of the parent's |
| `Fees.ExtremeParents` | crates/core/types/block.rs:354-379 | after an empty parent the fee falls by an eighth, after a full one with an even limit it rises by an eighth, or one |
| `Fees.MoreGasMoreFee` | crates/core/types/block.rs:354-379 | the more gas the parent used, the higher the fee |
| `Fees.FeeOverflows` | crates/core/types/block.rs:358-362 | after a full block of 30 million gas at 2000 gwei it overflows |
| `Fees.FeeStep64` | crates/core/types/block.rs:342-380 | whenever the code gives a fee, it follows by `Fees.BaseFeeFollows` and keeps the bounds of `Fees.BaseFeeStep` and `Fees.RiseBound` |
| `Fees.BaseFeeStep` | crates/core/types/block.rs:342-380 | the fee drops by at most an eighth, stays at 7 or above, and from even limits rises by at most an eighth or one |
| `Fees.OddLimitOvershoots` | crates/core/types/block.rs:354-367 | with an odd gas limit it can rise by more |
| `Fees.RiseBound` | crates/core/types/block.rs:342-380 | for a parent within its gas limit the rise is at most an eighth, or one, if and only if the limit is even, or not used up, or the fee is small against the target |
| `Fees.FakeExponentialWithin` | crates/core/types/block.rs:328-338 | the loop ends; its result is that of unbounded arithmetic unless an intermediate value overflows, and then it is not given |
| `Fees.FakeExponentialIs` | crates/core/types/block.rs:328-338 | the result is the rounded sum of the one series whose terms are rounded numerator / (denominator * k) parts of the terms before them and that ends with the first zero |
| `Fees.SmallerFits` | crates/core/types/block.rs:328-338 | what does not overflow does not overflow with a smaller numerator or from smaller values |
| `Fees.OverflowsUpward` | crates/core/types/block.rs:328-338 | for one factor and one denominator the numerators that overflow are those from some point on |
| `Fees.BlobFeeFits` | crates/core/types/block.rs:318-338 | with the constants of the fee per blob gas, the 64-bit loop does not overflow if and only if the excess is below 46,488,066 |
| `Fees.BlobBaseFee` | crates/core/types/block.rs:318-325 | the fee per blob gas for any excess, or none, overflows exactly from there on |
| `Fees.TermShrinks` | crates/core/types/block.rs:332-336 | why the loop ends: the ratio of successive terms falls below one, and then the terms shrink to zero |
| `Fees.WiderNeverOverflows` | crates/levm/src/block.rs:88-104 | what does not overflow in a type does not overflow in a wider one |
| `Fees.BothWidths` | crates/levm/src/block.rs:88-104 | whenever the 64-bit version gives a result the 128-bit version gives the same |
| `Fees.AtLeastFactor` | crates/core/types/block.rs:328-338 | the result is at least the factor |
| `Fees.MonotoneInNumerator` | crates/core/types/block.rs:328-338 | a larger numerator never gives a smaller result |
| `Payload.VerifyBlobGasUsage` | crates/blockchain/blockchain.rs:173-202 | accepts exactly blocks with at most six blobs whose header, if it says so, states their gas |
| `Payload.ExcessBlobGas` | crates/blockchain/payload.rs:139-148 | what lies above 393216, three blobs, carries over, nothing below it; overflows exactly from 2^64 on |
| `Payload.BlobsAdd` | crates/blockchain/blockchain.rs:173-207 | blobs add up over the transactions, one for each versioned hash |
| `Payload.ValidHeader` | crates/core/types/block.rs:383-408 | a header passes if and only if it keeps ten rules on its parent, the fee by what follows, and nothing overflows |
| `Payload.ValidBlock` | crates/blockchain/blockchain.rs:138-162 | a block passes if and only if its header does and, from Cancun on, it has at most six blobs, states their gas, carries the excess over and names a beacon root, or before Cancun has none of these fields |
| `Payload.CalcGasLimit` | crates/blockchain/payload.rs:119-137 | the assignments compute the limit of the specification, or underflow |
| `Payload.GasLimitNearest` | crates/blockchain/payload.rs:119-137 | the limit is the one nearest to the goal, the lesser of 5000 and what is asked for, that a validator allows on the parent |
| `Payload.GasLimitPasses` | crates/blockchain/payload.rs:119-137 | the builder's gas limit passes the validator's check exactly when the parent's is at least 4997 |
| `Payload.MissingFeeDiffers` | crates/blockchain/payload.rs:80-85 | read as zero by the builder and as the initial fee by the validator, a missing parent fee never leads to the same fee |
| `Payload.BuiltHeader` | crates/blockchain/payload.rs:54-117 | what each field of a built header is, by name |
| `Payload.BuiltPayloadIsValid` | crates/blockchain/payload.rs:54-117 | a built payload passes all validation if and only if ten conditions on the arguments and the parent hold, among them that no number overflows |
| `Payload.BuilderPanics` | crates/blockchain/payload.rs:54-117 | the builder panics if and only if the parent's gas limit is below 1024 or some number overflows |
| `Payload.OverflowingParent` | crates/blockchain/payload.rs:80-86 | nothing can be built on a full block of 30 million gas at 2000 gwei |
| `Payload.RefusedPayloads` | crates/blockchain/payload.rs:54-117 | before Cancun, and on a parent without a base fee, a payload is built that validation refuses |
| `Payload.GasLimitMoves` | crates/blockchain/payload.rs:119-137 | the limit moves towards the one asked for if and only if that is at most 5000, or the parent's is, or it lies a full step below the parent's |
| `Payload.GoesDown` | crates/blockchain/payload.rs:119-137 | from 20 million with a ceiling of 30 million the builder goes down |
| `Payload.GasLimitFalls` | crates/blockchain/payload.rs:119-137 | every built block has a smaller limit than its parent, down to 5000 |
| `Payload.LimitEnds` | crates/blockchain/payload.rs:119-137 | along a chain of built blocks the limit ends at 5000 |
| `Payload.ChainFeeSteps` | crates/core/types/block.rs:383-406 | along every chain of validated headers each fee follows its parent's; it drops by at most an eighth a step, and rises by at most an eighth or one under exactly the condition of `Fees.RiseBound` |
| `Payload.ChainFeeFloor` | crates/core/types/block.rs:383-406 | once at least 7, the fee stays there along the chain |

## Left out

- Trie proofs (`get_proof`, `get_path`): they follow `get` and would only add easy members.
- Database errors: reads and writes of the database always succeed.
- TrieTree.LookupInsert, TrieTree.InsertsCommute, TrieTree.RemoveUndoesInsert: for insertions that give no branch an empty value; `TrieTree.InsertLaw` says that the others fail.
- Trie.Trie.Insert: asks for keys and values shorter than 2^60 bytes, for no empty value at a branch, and for encodings on which Keccak does not collide.
- Trie.Trie.Remove: asks for the last of every subtrie that the removal rebuilds; what callers do with a broken branch is not followed further.
- TrieBuild.ComputeHashFromUnsorted, TrieList.ListRoot: ask the same as `Trie.Trie.Insert` of every trie that is built on the way.
- Fees.BlobFeeFits: the 128-bit loop of crates/levm/src/block.rs:88-104 has a threshold too (`Fees.OverflowsUpward`), which is not computed.
- TrieInsert, TrieRemove: the trie a node stands for is passed along as a ghost argument.
- Discovery as objects: the tasks are steps of a state machine over the table's value, which `Kademlia.KademliaTable` is proved to compute; a clock that runs backwards past a peer's last ping (a panic in crates/net/discv4.rs:33-36) is not modelled.
- Packets of the discovery protocol: their encoding, hashing and signatures; a message is what was decoded. Neighbors are one event, not four packets.
- The four concurrent lookups: in `Discovery` any peer may be queried at any time; `Lookup` takes arbitrary answers.
- Journals built with `with_prefetch`, and block hashes.
- JournalCode.TransactCommit: asks that code is stored under its hash and that no code created here has the hash of another one that is stored; the interpreter that chooses the operations, gas and fees are not part of this model.
- Transactions: hashing, signing and sender recovery are foreign code.
- Program: the 32-bit code size is unbounded here.
- Memory.RunAgrees, Memory.TotalCost: charges are unbounded here; `Memory.Memory.ExpansionCost` says up to which size they are those of the code.
- Fees.BaseFeeStep, Fees.RiseBound: over unbounded integers; `Fees.FeeStep64` carries them over to the code.
- Payload.BuiltPayloadIsValid: the state root is an input, and transactions in a payload body are always none, as in the source; the sum of blob gas over transactions is unbounded.
- RLPx, the JSON-RPC interface, storage engines, the EVM interpreters and the L2 components.
