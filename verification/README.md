# Verified models of CuteEVM

Dafny models of the four parts of CuteEVM that carry its guarantees, with proofs of
those guarantees for all inputs, all runs and all reachable states.  `dafny verify
dfyconfig.toml` checks everything.

- **Snappy block codec** (`Snappy*.dfy`): the hash-table encoder and the byte-wise
  decoder, and that the codec is lossless and stays within its length bound.
- **Merkle Patricia trie and its storage** (`Trie*.dfy`, `HexKeys.dfy`,
  `FlushList.dfy`): the trie as a map in canonical form, its stored form, proofs, the
  reference-counted write cache, the download scheduler and the iterators.
- **RLP** (`Rlp*.dfy`): the deferred-header encoder with its three outputs, the slice
  splitter and the streaming decoder.
- **EVM** (`Evm*.dfy`, `JumpAnalysis.dfy`): gas, memory, jump analysis, storage
  metering, nested frames, and the pooled big integers behind the stack.

How the results fit together:

- `SnappyBlock.Encode` writes chunks that `SnappyFormat.Expand` gives a meaning to, and
  `SnappyDecode.Decode` is proved against the same meaning.
- `TrieUpdate` works on hash-free tries; `TrieResolve` and `Tries.Trie` are shown to
  simulate it on tries that are partly in a database, of which parts may be missing.
- `TrieStorage` gives tries their hashes.  `TriePresence` shows that a store closed under
  references has whole tries; `TrieCompletion` applies it to the write cache and to the
  download scheduler.
- In `Evm` the words that computing instructions leave are arbitrary, so gas, isolation
  and safety hold whatever they compute.  `EvmPool` computes them, on mutable words that
  move between stacks and a pool, and is shown to agree with `EvmWords`, where words are
  values.

Where the code and its comments disagree, the model follows the code: `math.Exp` changes
its base; the room that `encodeBlock` asks for in its comment is not what `Encode` gives
it, and less is enough; an iterator with a start also shows keys that are proper prefixes
of the start; and in `insert` the size of a node is added in 16 bits.

## Model

| member | source | states |
|---|---|---|
| SnappyBlock.RoundTrip | src/github.com/golang/snappy/encode.go:18-41 | decoding what `Encode` produced gives the input back, for every input that `Encode` accepts |
| SnappyBlock.Encode | src/github.com/golang/snappy/encode.go:18-41 | refuses exactly the lengths for which `MaxEncodedLen` is negative; otherwise the output is at most `MaxEncodedLen` long and decodes to the input |
| SnappyBlock.EncodeBlocks | src/github.com/golang/snappy/encode.go:30-40 | over all blocks the chunks written expand to the whole input and fit into what `MaxEncodedLen` reserves |
| SnappyBlock.EncodeBlock | src/github.com/golang/snappy/encode_other.go:112-238 | with the hash table, the skip heuristic and the match loop the chunks written expand to the block, in at most 61/60 of its length plus one byte, and nothing before them is touched |
| SnappyBlock.SearchMatch | src/github.com/golang/snappy/encode_other.go:161-179 | a candidate that is found repeats four bytes at an earlier place, whatever the skip heuristic jumps over |
| SnappyBlock.EmitMatches | src/github.com/golang/snappy/encode_other.go:184-230 | each copy pays for the literal header before it, so the output never outgrows the input read so far |
| SnappyBlock.ExtendMatch | src/github.com/golang/snappy/encode_other.go:95-99 | the end of the match is the first byte that differs, or the end of the input |
| SnappyBlock.LoadShifted | src/github.com/golang/snappy/encode_other.go:219-226 | the middle four bytes of an eight-byte load are the four-byte load one place on, so hashing by shifting is right |
| SnappyEncode.EmitLiteral | src/github.com/golang/snappy/encode_other.go:25-42 | writes the tag, the length bytes and the data, and nothing else |
| SnappyEncode.LiteralParses | src/github.com/golang/snappy/encode_other.go:25-42 | whichever form of tag is chosen, it parses as a literal with these bytes |
| SnappyEncode.EmitCopy | src/github.com/golang/snappy/encode_other.go:50-88 | writes exactly the pieces into which a copy is split |
| SnappyEncode.CopyChunksExpand | src/github.com/golang/snappy/encode_other.go:50-88 | the pieces expand, one after the other, to the one forward copy |
| SnappyDecode.Decode | src/github.com/golang/snappy/decode_other.go:14-101 | succeeds if and only if the chunks expand to exactly as many bytes as `dst` has, and then `dst` holds those bytes |
| SnappyDecode.CopyWithin | src/github.com/golang/snappy/decode_other.go:85-95 | the byte-wise forward copy, whose source and target may overlap, is the recursive definition |
| SnappyDecode.DecodeWhole | src/github.com/golang/snappy/decode.go:55-72 | the length header and the chunks are read as the format says, errors included |
| SnappyFormat.ExpandConcat | src/github.com/golang/snappy/snappy.go:26-50 | chunk strings compose |
| SnappyFormat.ForwardCopyMatch | src/github.com/golang/snappy/snappy.go:38-50 | copying forward reproduces the input as long as it repeats itself at that distance |
| SnappyFormat.UvarintHeader | src/github.com/golang/snappy/decode.go:32-43 | a length header of at most five bytes is read back exactly |
| TrieUpdate.LookupInsert | src/CuteEVM01/Out/trie/trie.go:182-249 | insertion is map update: the inserted key reads the new value, every other key what it read before |
| TrieUpdate.InsertMinimal | src/CuteEVM01/Out/trie/trie.go:182-249 | insertion keeps the minimal form |
| TrieUpdate.LookupDelete | src/CuteEVM01/Out/trie/trie.go:273-380 | deletion is removal from the map, for every key |
| TrieUpdate.DeleteMinimal | src/CuteEVM01/Out/trie/trie.go:273-380 | deletion keeps the minimal form: no short node under a short node, no empty short key, at least two children in a full node |
| TrieUpdate.ReduceMinimal | src/CuteEVM01/Out/trie/trie.go:305-355 | a full node that has lost a child is brought back to minimal form |
| TrieCanonical.Canonical | src/CuteEVM01/Out/trie/trie.go:270-355 | two minimal tries that hold the same map are equal |
| TrieCanonical.ReplayReads | src/CuteEVM01/Out/trie/trie.go:150-180 | after any history of updates and deletions every key reads its last value |
| TrieCanonical.HistoryIndependent | src/CuteEVM01/Out/trie/trie.go:150-180 | histories with the same outcome build the same trie |
| TrieResolve.TryGetSimulates | src/CuteEVM01/Out/trie/trie.go:108-142 | reading through hash nodes finds what the represented trie holds and changes nothing it stands for, or reports a node of the trie that cannot be loaded |
| TrieResolve.TryInsertSimulates | src/CuteEVM01/Out/trie/trie.go:182-249 | insertion through hash nodes simulates plain insertion; the dirty bit is set exactly if the trie changed |
| TrieResolve.TryDeleteSimulates | src/CuteEVM01/Out/trie/trie.go:273-380 | deletion through hash nodes simulates plain deletion; the dirty bit is set exactly if the key was present |
| TrieResolve.TryReduceSimulates | src/CuteEVM01/Out/trie/trie.go:305-355 | loading the one remaining child, to see whether it is a short node, gives the reduced form of the represented node |
| Tries.RemainingChild | src/CuteEVM01/Out/trie/trie.go:322-332 | the loop finds the only child, or says whether there is none or more than one |
| Tries.Trie.TryGet | src/CuteEVM01/Out/trie/trie.go:99-106 | returns what the represented trie holds; what was loaded stays loaded; on a missing node the root is unchanged |
| Tries.Trie.TryUpdate | src/CuteEVM01/Out/trie/trie.go:164-180 | afterwards the object holds the updated trie; an empty value deletes; on a missing node nothing changes |
| Tries.Trie.TryDelete | src/CuteEVM01/Out/trie/trie.go:260-268 | afterwards the object holds the trie without the key |
| Tries.Apply | src/CuteEVM01/Out/trie/trie.go:164-180 | any sequence of updates and deletions leaves the object holding the trie of that history, or reports a node that is missing |
| Tries.SameOutcome | src/CuteEVM01/Out/trie/trie.go:164-180 | histories that leave the same value under every key, in terms of key bytes, build the same trie |
| Tries.ApplyBoth | src/CuteEVM01/Out/trie/trie.go:164-180 | two trie objects hold the same trie after histories with the same outcome, over whatever databases |
| HexKeys.KeybytesToHex | src/CuteEVM01/Out/trie/encoding.go:68-77 | the loop computes the terminated hex form |
| HexKeys.CompactOf | src/CuteEVM01/Out/trie/encoding.go:37-52 | the loop computes the hex-prefix form |
| HexKeys.CompactRoundTrip | src/CuteEVM01/Out/trie/encoding.go:37-66 | the hex-prefix form is read back to the same key, for keys with and without terminator, of either parity |
| HexKeys.CompactInjective | src/CuteEVM01/Out/trie/encoding.go:37-52 | different keys have different hex-prefix forms |
| HexKeys.HexRoundTrip | src/CuteEVM01/Out/trie/encoding.go:68-91 | key bytes survive the hex form |
| HexKeys.DecodeNibbles | src/CuteEVM01/Out/trie/encoding.go:93-97 | fills the buffer from the given place on with the packed nibbles, and nothing before it |
| HexKeys.CommonPrefix | src/CuteEVM01/Out/trie/encoding.go:100-111 | the loop finds the length of the longest common prefix |
| RlpItems.ReadExactly | src/CuteEVM01/Out/rlp/raw.go:39-156 | the reader accepts bytes as an item followed by a rest if and only if they are that item's encoding followed by that rest |
| RlpItems.EncodeInjective | src/CuteEVM01/Out/rlp/encode.go:137-211 | different items have different encodings |
| RlpItems.CountValues | src/CuteEVM01/Out/rlp/raw.go:74-84 | the loop counts the values by splitting, with the splitter's errors |
| RlpItems.CountEncoded | src/CuteEVM01/Out/rlp/raw.go:74-84 | in the content of an encoded list it counts all items |
| RlpRaw.SplitWrap | src/CuteEVM01/Out/rlp/raw.go:39-45 | splitting a wrapped value gives its kind, content and rest back |
| RlpRaw.SplitIsWrapped | src/CuteEVM01/Out/rlp/raw.go:86-156 | whatever splits is the canonical wrapping of what it splits into |
| RlpEncbuf.WeaveEmit | src/CuteEVM01/Out/rlp/encode.go:162-248 | string data and deferred list heads, woven together, are the recursive encoding |
| RlpEncbuf.Encbuf.EncodeString | src/CuteEVM01/Out/rlp/encode.go:192-211 | appends the encoding of the string |
| RlpEncbuf.Encbuf.OpenList | src/CuteEVM01/Out/rlp/encode.go:213-217 | records where the list starts and how much header space came before |
| RlpEncbuf.Encbuf.CloseList | src/CuteEVM01/Out/rlp/encode.go:219-226 | the size of the list is everything written since it was opened, headers included |
| RlpEncbuf.Encbuf.EncodeItem | src/CuteEVM01/Out/rlp/encode.go:493-527 | the buffer grows by what the item tree emits, for every item tree |
| RlpEncbuf.IntSize | src/CuteEVM01/Out/rlp/encode.go:645-651 | the length of the big-endian form |
| RlpWriters.ToBytes | src/CuteEVM01/Out/rlp/encode.go:232-248 | fills a buffer of exactly the right size with the woven bytes |
| RlpWriters.ToWriter | src/CuteEVM01/Out/rlp/encode.go:250-272 | hands the same bytes to a writer |
| RlpWriters.EncReader.Read | src/CuteEVM01/Out/rlp/encode.go:283-304 | successive reads of any sizes hand out the woven bytes, each once and in order, and end-of-file exactly at the end |
| RlpWriters.EncReader.Next | src/CuteEVM01/Out/rlp/encode.go:308-339 | the next piece, without losing or repeating anything |
| RlpWriters.EncodeBoth | src/CuteEVM01/Out/rlp/encode.go:82-107 | `EncodeToBytes` and `Encode` give the recursive encoding of Appendix B of the Yellow Paper |
| RlpStream.DecodeBytes | src/CuteEVM01/Out/rlp/decode.go:146-160 | accepts exactly the encodings, and returns the item that was encoded |
| RlpStream.Stream.PeekKind | src/CuteEVM01/Out/rlp/decode.go:884-915 | the header ahead, whether it is in bounds, and the end of the innermost list |
| RlpStream.Stream.ReadHeader | src/CuteEVM01/Out/rlp/decode.go:917-977 | a header is consumed and read as the slice reader reads it |
| RlpStream.Stream.ReadUint | src/CuteEVM01/Out/rlp/decode.go:979-1003 | a size without leading zero, in big-endian form |
| RlpStream.Stream.WillRead | src/CuteEVM01/Out/rlp/decode.go:1031-1049 | reading is refused exactly if it exceeds the innermost list or the input limit; both are charged otherwise |
| RlpStream.Stream.Bytes | src/CuteEVM01/Out/rlp/decode.go:662-683 | the content of the string ahead; a single byte that should have been its own encoding is refused |
| RlpStream.Stream.EnterList | src/CuteEVM01/Out/rlp/decode.go:771-783 | the content of the list becomes the window |
| RlpStream.Stream.LeaveList | src/CuteEVM01/Out/rlp/decode.go:787-802 | only at the end of the list; the enclosing list moves past the whole of it |
| RlpStream.Stream.DecodeInterface | src/CuteEVM01/Out/rlp/decode.go:525-547 | decodes the item ahead exactly as the recursive reader does, errors included |
| RlpStream.Stream.DecodeListSlice | src/CuteEVM01/Out/rlp/decode.go:337-350 | all items of the list ahead, and then past it |
| RlpStream.Stream.DecodeSliceElems | src/CuteEVM01/Out/rlp/decode.go:352-379 | items until the innermost list ends |
| TrieCodec.DecodeEncoded | src/CuteEVM01/Out/trie/node.go:117-203 | decoding a stored node gives the node back, with hashed children as hashes and embedded ones in full |
| TrieStorage.LoadedItem | src/CuteEVM01/Out/trie/hasher.go:75-158 | the stored form, and so the hash, does not depend on how much of the trie is loaded |
| TrieStorage.OneLevelLoaded | src/CuteEVM01/Out/trie/hasher.go:121-207 | what reading a stored node gives stands for the trie that was stored |
| TrieStorage.StoreKeeps | src/CuteEVM01/Out/trie/hasher.go:75-207 | committing stores all of the trie that was not stored and disturbs nothing |
| TrieStorage.CommitReopens | src/CuteEVM01/Out/trie/trie.go:414-433 | committing a trie and opening it at its root hash gives the same trie |
| TrieStorage.RootHashDetermined | src/CuteEVM01/Out/trie/trie.go:406-433 | two tries with the same pairs have the same root encoding, whatever each has loaded |
| TrieProof.VerifyProof | src/CuteEVM01/Out/trie/proof.go:106-130 | the loop computes `Verify` |
| TrieProof.VerifyEnds | src/CuteEVM01/Out/trie/proof.go:106-130 | `Verify` is how the loop of single rounds ends on any database: its verdict after some number of rounds, or `Endless` exactly if no number of rounds ends it, which is when it comes back to a node without having consumed any of the key |
| TrieProof.GetOneLevel | src/CuteEVM01/Out/trie/proof.go:132-154 | following a key through a stored node agrees with the trie up to the next hash |
| TrieProof.VerifyAgrees | src/CuteEVM01/Out/trie/proof.go:106-154 | the verdict is what the trie holds, or the first proof element that is missing |
| TrieProof.VerifySound | src/CuteEVM01/Out/trie/proof.go:106-154 | in a database addressed by content, an accepted proof agrees with the trie, present or absent |
| TrieProof.Collect | src/CuteEVM01/Out/trie/proof.go:36-66 | the nodes on the way to the key, loaded where necessary, or the node that is missing |
| TrieProof.WriteElements | src/CuteEVM01/Out/trie/proof.go:67-90 | each node of the path that is stored on its own becomes a proof element, after `fromLevel` of them |
| TrieProof.Prove | src/CuteEVM01/Out/trie/proof.go:36-90 | writes exactly the proof elements of the key |
| TrieProof.ProofVerifies | src/CuteEVM01/Out/trie/proof.go:36-154 | verifying what `Prove` wrote returns what the trie holds, for every key and every non-empty trie |
| TrieDatabase.Database.constructor | src/CuteEVM01/Out/trie/database.go:301-321 | an empty cache over a closed disk |
| TrieDatabase.Database.Insert | src/CuteEVM01/Out/trie/database.go:343-368 | caches the node at the end of the flush list and counts up what it refers to; the size drifts by 65536 exactly if the 16-bit sum wraps |
| TrieDatabase.Database.Reference | src/CuteEVM01/Out/trie/database.go:498-516 | one more reference, once per parent except from the meta-root; sizes stay exact |
| TrieDatabase.Database.DropReference | src/CuteEVM01/Out/trie/database.go:544-554 | the parent forgets one reference from outside, if it has one |
| TrieDatabase.Database.Release | src/CuteEVM01/Out/trie/database.go:555-591 | gives up one reference: the node goes, with everything that only it kept, or its counter falls by one |
| TrieDatabase.Database.TearDown | src/CuteEVM01/Out/trie/database.go:568-590 | in mid-cascade every counter still covers the references that are held or outstanding |
| TrieDatabase.Database.Unlink | src/CuteEVM01/Out/trie/database.go:569-580 | the flush list without the node, wherever it stood |
| TrieDatabase.Database.Dereference | src/CuteEVM01/Out/trie/database.go:519-541 | the meta-root holds one reference less; only nodes that nothing refers to leave the cache |
| TrieDatabase.Database.FlushOldest | src/CuteEVM01/Out/trie/database.go:629-658 | writes nodes from the oldest on until what remains fits, and says where it stopped |
| TrieDatabase.Database.DropOldest | src/CuteEVM01/Out/trie/database.go:667-676 | the oldest node leaves the list and the cache, and its weight the totals |
| TrieDatabase.Database.DropUntil | src/CuteEVM01/Out/trie/database.go:667-679 | the second loop drops exactly what was written |
| TrieDatabase.Database.Cap | src/CuteEVM01/Out/trie/database.go:598-692 | afterwards the reported size is at most the limit or the list is empty; whatever left the cache is stored with all it referred to |
| TrieDatabase.Database.SizeNow | src/CuteEVM01/Out/trie/database.go:849-859 | the reported size is what the nodes weigh, plus the drift |
| TrieDatabase.Database.CommitNode | src/CuteEVM01/Out/trie/database.go:772-797 | children first: whatever is dealt with, so is everything it refers to |
| TrieDatabase.Database.FlushBatch | src/CuteEVM01/Out/trie/database.go:786-796 | a full batch is written and uncached, or nothing changes |
| TrieDatabase.Database.Commit | src/CuteEVM01/Out/trie/database.go:700-769 | on success everything that could be reached from the root among the cached nodes is stored and no longer cached |
| TrieDatabase.Database.Put | src/CuteEVM01/Out/trie/database.go:810-841 | a node that has been written leaves the list and the cache; the sum of the two totals stays exact, although its children are taken off the other total |
| TrieDatabase.Database.ReachableAvailable | src/CuteEVM01/Out/trie/database.go:343-841 | garbage collection is safe: in every reachable state each node that can be reached from the meta-root is cached or stored, with its content |
| TrieDatabase.Database.CachedReachable | src/CuteEVM01/Out/trie/database.go:343-591 | nothing leaks: while counters are exact, every cached node can be reached from the meta-root |
| TrieCacheFacts.SizeIs | src/CuteEVM01/Out/trie/database.go:849-859 | the size formula counts each cached node once, and the meta-root not at all |
| TrieCacheFacts.Childs | src/CuteEVM01/Out/trie/database.go:184-214 | the references from outside once each, then those inside from left to right |
| TrieCompletion.CommittedReopens | src/CuteEVM01/Out/trie/database.go:700-797 | a trie whose root is stored is stored in full and can be opened at its root hash |
| TrieSync.Sync.constructor | src/CuteEVM01/Out/trie/sync.go:83-93 | over a child-closed database, with the root asked for, and nothing else, unless it is empty or at hand |
| TrieSync.Sync.AddEntry | src/CuteEVM01/Out/trie/sync.go:96-167 | asks for an entry exactly if it is neither empty nor at hand; the parent then waits for one thing more |
| TrieSync.Sync.AddRoot | src/CuteEVM01/Out/trie/sync.go:96-167 | one more thing to fetch in full; no request is made for what is at hand |
| TrieSync.Sync.Schedule | src/CuteEVM01/Out/trie/sync.go:250-259 | a new request, or more waiters for the one that is pending |
| TrieSync.Sync.ProcessOne | src/CuteEVM01/Out/trie/sync.go:181-223 | refuses exactly what was not asked for, what was delivered before and what does not decode, without changing anything; otherwise the data is taken as delivered and what it refers to is stored or asked for; if the callback fails, only what it had asked for by then is, and the node waits for that alone |
| TrieSync.Sync.AwaitMissing | src/CuteEVM01/Out/trie/sync.go:207-221 | a node waits for exactly those of its references that are not at hand |
| TrieSync.Sync.Process | src/CuteEVM01/Out/trie/sync.go:181-223 | stops at the first failure and says which; `committed` is true exactly if something was stored; data arrives in order |
| TrieSync.Sync.CommitRequest | src/CuteEVM01/Out/trie/sync.go:330-347 | a complete request is stored, its waiters count down, and those that become complete are stored in turn |
| TrieSync.Sync.Commit | src/CuteEVM01/Out/trie/sync.go:227-240 | writes a prefix of the order, all of it on success; what is written is closed under references wherever writing stops |
| TrieSync.Sync.StoredClosed | src/CuteEVM01/Out/trie/sync.go:227-347 | what is stored is closed under references, and so is what is written |
| TrieSync.Sync.RefersStored | src/CuteEVM01/Out/trie/sync.go:227-347 | all that the stored bytes of an entry refer to is stored, and the stored bytes are those that were delivered |
| TrieSync.Sync.NothingPending | src/CuteEVM01/Out/trie/sync.go:243-245 | when nothing is pending, everything that can be reached through the stored bytes from what was asked for is stored |
| TriePresence.OpensExactly | src/CuteEVM01/Out/trie/sync.go:83-347 | a trie whose root is stored can be opened in full at its root hash exactly when every stored node of it has all that it refers to stored |
| TrieCompletion.TrieDelivered | src/CuteEVM01/Out/trie/sync.go:83-347 | when nothing is pending, a trie whose root was asked for can be opened in full at its root hash exactly when those of its nodes that were read in part, as raw entries or by a callback that failed, happen to have their children stored |
| TrieCompletion.RawRoot | src/CuteEVM01/Out/trie/sync.go:83-167 | a run with nothing pending and the trie not there: the root's bytes were stored before as a raw entry |
| TrieCompletion.FailingCallback | src/CuteEVM01/Out/trie/sync.go:181-347 | a run with nothing pending and the trie not there: the callback asks for an entry and then fails, and the root is stored when the entry arrives |
| TrieCompletion.TwoLeaves | src/CuteEVM01/Out/trie/sync.go:83-347 | a trie that meets what these two runs ask of theirs, under every hash function that tells its blobs apart |
| TrieEmbedding.HashChildrenAreAll | src/CuteEVM01/Out/trie/sync.go:263-325 | an embedded node holds no hash, so the hashes among a stored node's children are all that it refers to |
| TrieIterator.NextChild | src/CuteEVM01/Out/trie/iterator.go:307-343 | the next child that is not nil, and what is left after it |
| TrieIterator.NodeIterator.constructor | src/CuteEVM01/Out/trie/iterator.go:135-142 | ahead is the traversal from the first path that is not before the start |
| TrieIterator.NodeIterator.Peek | src/CuteEVM01/Out/trie/iterator.go:259-293 | the next node of what is left, with or without what is below the current one; a missing node loses nothing |
| TrieIterator.NodeIterator.Push | src/CuteEVM01/Out/trie/iterator.go:345-351 | enters the node that was peeked |
| TrieIterator.NodeIterator.Pop | src/CuteEVM01/Out/trie/iterator.go:353-357 | back to the parent and its path |
| TrieIterator.NodeIterator.Seek | src/CuteEVM01/Out/trie/iterator.go:240-256 | skips exactly what is before the key, whole subtries unseen; a search that fails on a missing node can be taken up again |
| TrieIterator.NodeIterator.Next | src/CuteEVM01/Out/trie/iterator.go:221-238 | visits what is ahead one by one; after a failure the same nodes are still ahead |
| TrieListing.Iterator.Next | src/CuteEVM01/Out/trie/iterator.go:45-57 | the first pair still to be shown; none only if there is none or a node is missing, and then nothing is lost |
| TrieListing.List | src/CuteEVM01/Out/trie/iterator.go:38-42 | what is to be shown is the traversal's values from the start on |
| TrieListing.Listing | src/CuteEVM01/Out/trie/iterator.go:45-57 | shown are exactly the trie's pairs whose key is not before the start or is a prefix of it, once each, in increasing order of paths |
| TrieListing.KeyOrder | src/CuteEVM01/Out/trie/iterator.go:307-343 | path order is byte order, except that a key comes after the keys that extend it |
| TrieListing.PrefixShown | src/CuteEVM01/Out/trie/iterator.go:240-256 | a start is not a lower bound on key bytes: a proper prefix of it is shown |
| TrieOrder.VisitsIncrease | src/CuteEVM01/Out/trie/iterator.go:307-343 | a traversal meets paths in strictly increasing order |
| TrieOrder.VisitsFaithful | src/CuteEVM01/Out/trie/iterator.go:158-178 | a terminated path is met exactly at a value, and the trie holds that value there |
| TrieOrder.PairVisited | src/CuteEVM01/Out/trie/iterator.go:307-343 | every pair of the trie is met |
| JumpAnalysis.CodeBitmap | src/CuteEVM01/analysis.go:23-46 | a bit is set exactly if the byte is push data of the instruction scan, also for a push cut off by the end of the code |
| JumpAnalysis.Set | src/CuteEVM01/analysis.go:9-11 | sets this bit and no other |
| JumpAnalysis.Set8 | src/CuteEVM01/analysis.go:12-15 | sets these eight bits, across the byte border, and no other |
| JumpAnalysis.CodeSegment | src/CuteEVM01/analysis.go:18-20 | tells instructions from data |
| JumpAnalysis.NextStart | src/CuteEVM01/analysis.go:23-46 | after an instruction and its data comes an instruction or the end |
| EvmContract.Contract.ValidJumpdest | src/CuteEVM01/contract.go:62-92 | with either cache the answer is: a JUMPDEST that is an instruction, below 2^62 |
| EvmContract.Contract.UseGas | src/CuteEVM01/contract.go:126-132 | takes the amount if there is that much, nothing otherwise |
| EvmMemory.Memory.GasCost | src/CuteEVM01/gas_table.go:27-54 | the part of the fee not paid yet, so all fees add up to the fee of the final size; refused above 0x1FFFFFFFE0 bytes; nothing overflows |
| EvmMemory.FeeFits | src/CuteEVM01/gas_table.go:27-54 | no step of the fee computation exceeds 64 bits |
| EvmMemory.FeeMonotone | src/CuteEVM01/gas_table.go:27-54 | more memory never costs less |
| EvmMemory.Memory.Resize | src/CuteEVM01/memory.go:48-52 | grows with zeroes in whole words, and never shrinks |
| EvmMemory.Memory.Set | src/CuteEVM01/memory.go:22-32 | writes what fits and leaves the rest |
| EvmMemory.Memory.Set32 | src/CuteEVM01/memory.go:35-45 | writes the 32 bytes of the word |
| EvmMemory.Memory.Get | src/CuteEVM01/memory.go:55-68 | a copy of the region |
| EvmMemory.RegionEnd | src/CuteEVM01/common.go:11-33 | the end of a region, unless it exceeds 64 bits |
| EvmMemory.ToWordSize | src/CuteEVM01/common.go:63-69 | the number of words that hold so many bytes |
| EvmStorageGas.NetOfWrites | src/CuteEVM01/gas_table.go:132-174 | over any writes to a slot, charges minus refunds are 200 per write plus an amount that depends only on the original, first and last values |
| EvmStorageGas.OrderDoesNotMatter | src/CuteEVM01/gas_table.go:132-174 | two ways to the same value cost the same per write |
| EvmStorageGas.RevokesOnlyEarned | src/CuteEVM01/gas_table.go:108-174 | a write takes back no more than the slot has earned, and takes back exactly when a cleared slot is set again |
| EvmStorageGas.RefundNeverNegative | src/CuteEVM01/gas_table.go:132-174 | over any writes the refund stays at least what the slot's value has earned |
| EvmWorld.CoversStore | src/CuteEVM01/gas_table.go:132-174 | across all slots an SSTORE keeps the refund counter above all that may still be taken back |
| EvmWorld.CoversAtStart | src/CuteEVM01/gas_table.go:132-174 | so it is at the beginning of a transaction |
| EvmWorld.SupplyTransfer | src/CuteEVM01/Out/core/evm.go:91-94 | a transfer keeps the sum of all balances, also to oneself |
| EvmWorld.SupplyDestroy | src/CuteEVM01/instructions.go:863-869 | self-destruction keeps the sum, except that naming oneself as heir destroys exactly the balance, in every world |
| EvmGas.AllowanceKeepsOne64th | src/CuteEVM01/gas.go:24-38 | a call that can be paid for gets what it asks for but leaves a 64th |
| EvmGas.AllowanceWrap | src/CuteEVM01/gas.go:24-38 | if the base cost exceeds the gas, the subtraction wraps and the call still ends out of gas |
| EvmGas.MemoryNeed | src/CuteEVM01/memory_table.go:19-113 | the memory an operation needs covers every region it touches, in whole words, or exceeds 64 bits |
| EvmOps.OperationsCharge | src/CuteEVM01/jump_table.go:49-1094 | under every rule set an operation that lets the contract go on costs something, its stack bounds are consistent, and its costs and regions look at no more than it takes |
| EvmOps.PushWidth | src/CuteEVM01/jump_table.go:155-1094 | a push advances over exactly its data |
| Evm.Advance | src/CuteEVM01/interpreter.go:231-240 | after every instruction the program counter is at an instruction or past the end |
| Evm.Machine.StoreCost | src/CuteEVM01/gas_table.go:108-175 | the metered cost; when a refund is revoked the counter holds at least that much; the counter stays covered |
| Evm.Machine.CallCost | src/CuteEVM01/gas_table.go:381-439 | base, memory and allowance add up exactly; the allowance is that of `callGas` |
| Evm.Machine.SuicideCost | src/CuteEVM01/gas_table.go:449-473 | the refund is added once per account |
| Evm.Machine.MemoryGas | src/CuteEVM01/gas_table.go:27-54 | exactly the fee for the growth plus the amount |
| Evm.Machine.constructor | src/CuteEVM01/evm.go:103-135 | a machine at depth 0 over a world that the transaction has not written yet, where the refund counter covers what may be taken back |
| Evm.Machine.WordGas | src/CuteEVM01/gas_table.go:207-229 | exactly the fee, the amount and the price per word |
| Evm.Machine.LogCost | src/CuteEVM01/gas_table.go:177-205 | exactly the fee, the price per topic and the price per byte |
| Evm.Machine.Charge | src/CuteEVM01/interpreter.go:183-212 | what was paid covers the least cost and, for calls, the gas passed on; the memory then covers every region |
| Evm.Machine.Call | src/CuteEVM01/evm.go:153-214 | on error the state is as at entry and no gas is left unless it reverted or failed a pre-check; depth and read-only flag are restored; a plain transfer has exactly its effect |
| Evm.Machine.CallHere | src/CuteEVM01/evm.go:220-281 | the same for `CallCode` and `DelegateCall`; nothing is touched in a read-only tree |
| Evm.Machine.StaticCall | src/CuteEVM01/evm.go:285-318 | from Byzantium on nothing inside changes balances, nonces, code, storage, logs or refunds |
| Evm.Machine.RunContract | src/CuteEVM01/evm.go:26-49 | a precompiled contract, or the interpreter, within the contract's gas |
| Evm.Machine.Run | src/CuteEVM01/interpreter.go:93-131 | every nested run ends, by its gas; depth and read-only flag are restored; the supply never grows |
| Evm.Machine.Loop | src/CuteEVM01/interpreter.go:157-242 | over the whole run the stack stays within 1024 items, memory accesses in bounds and the program counter at instructions |
| Evm.Machine.Step | src/CuteEVM01/interpreter.go:163-240 | a step that goes on has taken gas |
| Evm.Machine.ExecuteState | src/CuteEVM01/instructions.go:613-627 | exactly this slot, log or account changes |
| Evm.Machine.ExecuteMemory | src/CuteEVM01/instructions.go:588-611 | exactly this region changes, to the word, the byte or the return data; what is returned is what memory held; return data out of bounds changes nothing |
| Evm.Machine.ExecuteLocal | src/CuteEVM01/instructions.go:936-951 | duplicating and swapping touch exactly these items |
| Evm.Machine.ExecuteLog | src/CuteEVM01/instructions.go:874-895 | one more log entry, with the topics and data given |
| Evm.Machine.ExecuteJump | src/CuteEVM01/instructions.go:629-653 | goes only to a valid destination |
| Evm.Machine.ExecuteCall | src/CuteEVM01/instructions.go:735-841 | pushes 1, or 0 with the state as before; only the region for the return data changes; gas comes back up to what was passed |
| Evm.Machine.ExecuteCreate | src/CuteEVM01/instructions.go:674-733 | gas comes back up to what was passed |
| Evm.Machine.CreateAt | src/CuteEVM01/evm.go:333-402 | on error the state is as at entry, except for the creator's nonce; no gas is left unless it reverted or failed a pre-check |
| Evm.Machine.Deploy | src/CuteEVM01/evm.go:371-401 | the code is stored exactly if it is paid for and within the limit |
| EvmPool.Interpreter.RunFrame | src/CuteEVM01/interpreter.go:93-243 | with pooled, mutable words a frame and all its callees show their surroundings exactly what they would show on stacks of values; words of outer frames and operands in use are untouched |
| EvmPool.Interpreter.Execute | src/CuteEVM01/interpreter.go:93-100 | the same for a call from outside |
| EvmPool.Interpreter.Step | src/CuteEVM01/interpreter.go:219-224 | the check of the pool after each step never panics |
| EvmPool.Interpreter.VerifyIntegerPool | src/CuteEVM01/int_pool_verifier.go:25-31 | pooled words still hold the check value |
| EvmPool.Interpreter.Get | src/CuteEVM01/intpool.go:23-37 | the word is in no other place |
| EvmPool.Interpreter.Put | src/CuteEVM01/intpool.go:41-52 | the words go to the pool unless it is full, and are in no other place |
| EvmPool.Interpreter.Pop | src/CuteEVM01/stack.go:32-36 | the word moves from the stack into the instruction's hands |
| EvmPool.Interpreter.Push | src/CuteEVM01/stack.go:22-27 | the word moves from the instruction's hands onto the stack |
| EvmPool.Interpreter.OpDup | src/CuteEVM01/stack.go:46-48 | a copy in another word |
| EvmPool.Interpreter.OpSwap | src/CuteEVM01/stack.go:42-44 | exactly these two words change places |
| EvmPool.Interpreter.Enter | src/CuteEVM01/instructions.go:674-841 | the callee sees the value it was given, and the operands still hold their values when the callee has run |
| EvmPool.Interpreter.Plain | src/CuteEVM01/instructions.go:369-933 | each other instruction takes, shows and leaves the values it should |
| EvmPool.Interpreter.Compute | src/CuteEVM01/instructions.go:24-367 | each computing instruction leaves the 256-bit word that the Yellow Paper defines |
| EvmPool.Interpreter.OpSdiv | src/CuteEVM01/instructions.go:60-77 | division of the signed values, truncated, although the operands are made positive in place |
| EvmPool.Interpreter.OpSmod | src/CuteEVM01/instructions.go:90-107 | remainder with the sign of the dividend |
| EvmPool.Interpreter.OpExp | src/CuteEVM01/instructions.go:109-128 | the power modulo 2^256, shortcuts included |
| EvmPool.Interpreter.Exp | src/CuteEVM01/Out/common/math/big.go:206-219 | squaring over all bits of the exponent's 64-bit words gives the power modulo 2^256; the base is changed, against the function's comment |
| EvmPool.Interpreter.OpSignExtend | src/CuteEVM01/instructions.go:130-148 | the masks extend the sign bit |
| EvmPool.Interpreter.OpByte | src/CuteEVM01/instructions.go:271-281 | the byte counted from the most significant one |
| EvmPool.Interpreter.OpShl | src/CuteEVM01/instructions.go:312-325 | multiplication by the power of two, nothing from 256 on |
| EvmPool.Interpreter.OpShr | src/CuteEVM01/instructions.go:330-343 | division by the power of two, nothing from 256 on |
| EvmPool.Interpreter.OpSar | src/CuteEVM01/instructions.go:348-367 | floor division of the signed value, only the sign from 256 on |
| EvmPool.ByteAt | src/CuteEVM01/Out/common/math/big.go:144-156 | reading a byte out of 64-bit words is division by a power of 256 |
| EvmPool.U256 | src/CuteEVM01/Out/common/math/big.go:183-185 | the mask is the remainder modulo 2^256, also of negative numbers |
| EvmPool.Interpreter.S256 | src/CuteEVM01/Out/common/math/big.go:194-199 | the two's complement value, in the word itself or in a new one |
| EvmBits.BitsAnd | src/CuteEVM01/instructions.go:247-253 | conjunction works bit by bit |
| EvmBits.BitsOr | src/CuteEVM01/instructions.go:255-261 | disjunction works bit by bit |
| EvmBits.BitsXor | src/CuteEVM01/instructions.go:263-269 | exclusive or works bit by bit |

## Left out

Not modelled:

- Keccak, elliptic curves and the bodies of precompiled contracts: hashes are functions on byte strings, assumed without collisions where a result says so, and a precompiled contract has an arbitrary price and outcome.
- `StateDB`: accounts, storage, logs and the refund counter are a value that snapshots copy; its journal and tries are not modelled.
- Time, tracing, metrics, logging, the `runtime` and `main` packages: no bearing on the results; cancelling a run is a choice at every step.
- `poolOfIntPools` and concurrency: one interpreter with one pool; locks are not modelled.
- Snappy's framing format, checksums, streams and assembly variants; reuse of a caller's `dst`; 32-bit integers, so the error code for literals over 2^31 does not occur.
- RLP reflection, struct tags, integers, booleans and `Raw`: items are byte strings and lists; a `Stream` without input limit and its sticky header error are not modelled.
- `SecureTrie`, difference and union iterators, `LeafProof`, `Hash` and `Parent` of the iterator: they add little to the node iterator and the trie.
- The trie's node cache flags, and the number of nodes that `VerifyProof` returns.
- The write cache's clean cache, preimages, metrics and locks; 32-bit counters of references do not wrap; the all-zero hash is a constructor of its own; whether a batch is full, and whether a write fails, is a choice.
- The download queue's priorities and `Missing`; requests are named by hash, not by pointer; a Bloom filter is one that never denies what is stored.

Stated with conditions, or for less than one might expect:

- TrieProof.VerifyProof: where the source never returns the model returns `Endless`, and where it panics, at a full node below the end of the key, `Panics`.
- TrieProof.VerifySound: needs a proof database addressed by content, because `VerifyProof` does not hash what it reads.
- TrieStorage.StoreKeeps: the hash and the dirty flag that a node caches are not modelled, so every node is hashed and stored anew.
- TrieStorage.CommitReopens: likewise without the cached hashes and dirty flags.
- TrieDatabase.Database.Insert: a hash stands for one content, so inserting it once as a raw blob and once as a node with children is excluded; the 16-bit counters of `children` do not wrap.
- TrieDatabase.Database.Dereference: requires a reference by the meta-root if the root is cached; the source lowers the counter without one.
- TrieDatabase.Database.Reference: from a node other than the meta-root only to what is older or stored, and never in a cycle; hashes cannot form cycles.
- TrieDatabase.Database.CachedReachable: while no counter is too high; a node that left the cache by being written leaves the counters of what it refers to as they are, and those nodes go by being written themselves.
- TrieCompletion.TrieDelivered: the store is addressed by content; the scheduler trusts the data it is given.
- TrieSync.Sync.AddEntry: an entry of the database that is asked for as a sub-trie is taken to decode; the source asks for it again if it does not.
- TrieSync.Sync.ProcessOne: a callback is a function of the leaf, and the entries it asks for get the depth after its node's; in the source it may keep state, and it chooses the depth.
- TrieSync.Sync.Schedule: the order in which requests are handed out is not stated.
- TrieListing.Iterator.Next: the trie's keys are byte strings, as its operations ensure; `LeafKey` panics on others.
- TrieIterator.NodeIterator.Next: after a failed step that was to skip the current node, the node has been skipped; what is then ahead is stated, and calling it again with the same argument skips once more.
- Evm.Machine.Run: the words that computing instructions leave are arbitrary; `EvmPool` states them.
- Evm.Machine.ExecuteCreate: the address of a new contract is arbitrary, and that 0 on the stack means that nothing happened is not stated, because before Homestead it does not.
- EvmPool.Interpreter.Plain: what an instruction reads from memory, state or context, and whether a jump is valid, is given with the instruction.
- SnappyBlock.SearchMatch: which of several matches is found is not stated.
