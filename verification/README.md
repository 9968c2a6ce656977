# Verified cores of NTFS-3G

A Dafny model of six stateful cores of NTFS-3G, with proofs about what they keep, what they
undo and what they may never do.

- **LZNT1 compression** (`Lznt1*.dfy`): the encoder as a function of the block (`Lznt1LazyParse`,
  `Lznt1Reference`), told apart from all other token lists by the matches there are (`Lznt1Choice`), and as the program with hash chains, tag bytes filled in afterwards and the
  stored fallback, which writes exactly that; the decoder as a function and as the in-place
  program; and the block loop with its "all zeroes, make a hole" decision.
- **Record locks** (`RecordLocks.dfy`): the lock list of a file and the single in-place pass that
  skips, merges, trims, splits and deletes.
- **The inode table** (`NodeChains`, `NodeTree`, `InodeTable`, `InodePath`): two chained hash tables
  over a reference-counted tree, lookup and forget counts, rename, and path reconstruction in a
  growing right-aligned buffer. Only allocated nodes are keys of the node map, so every use of a
  freed node would be an unprovable map access.
- **Requests and interrupts** (`InterruptProtocol`, `InterruptProgress`, `InterruptDelivery`,
  `RequestLinks`, `RequestSession`): the protocol as a state machine whose steps lie between two mutex
  operations, safe, free of deadlock and losing no interrupt, and the session with its intrusive rings of pointers, whose steps are those of
  the state machine.
- **The LRU cache** (`LruSpec`, `LinkedLists`, `LruDeck`, `HashIndex`, `LruCache`): entries, free
  entries, hash chains and free links in the same cells, against a bounded move-to-front sequence.
- **Bitmaps** (`Bitmap`, `FreeBits`): a run of bits updated through an 8 KiB window, and the count of
  free bits through a table.
- **ACLs and identities** (`Sids`, `ModeAcl`, `AclGrants`, `AclMeaning`, `AclBytes`, `SecurityDescr`,
  `PosixList`, `PosixDesc`, `PosixClasses`, `PosixInherit`): ids to SIDs and back, modes to access control
  entries and back through the stored bytes of a security descriptor, what any list of entries means for
  each class of users, POSIX ACL sorting, merging, checking and inheritance.

Code that updates fields or buffers is modelled by classes and methods with loops; each such method
is tied to a function of the old state, and the lemmas are about those functions. Most proofs hide the
definitions they do not need (`hide`), so that each obligation stays small.

Where a promise fails, the exact condition is part of the statement: a block of three or four zero
bytes is not recognised as zero (`Lznt1CompSet.ZeroTestExact`), a user id whose low 30 bits are zero is
lost (`Sids.RoundTrip`), a range that ends at the last offset is reported with length zero
(`RecordLocks.FlockRoundTrip`), a rename below the node's own descendant makes a cycle
(`NodeTree.AttachedAcyclic`), an entry recycled after a failed allocation leaves a broken list
(`LruDeck.GivenBackBroken`), a smaller cache may no longer hold the first keys of a bigger
one once a call uses a key that only the bigger one has, by an enter or a fetch alone (`LruSpec.RunExact`),
an accepted security descriptor may have an owner that ends beyond its storage if the owner begins
before the group ends (`SecurityDescr.OwnerCondition`), or an entry of a type that is not checked whose
SID does (`SecurityDescr.EntryCondition`), the full access that a comment claims for administrators and
the system leaves out the right to delete what is in a directory (`AclGrants.AdminsGetAll`), and an accepted POSIX descriptor may have default entries out
of order if they begin later than right behind the access entries (`PosixDesc.DefaultsCondition`).

## Model

| member | source | states |
|---|---|---|
| `Lznt1Decoder.BitSplitsAgree` | libntfs-3g/compress.c:586-588 | the shift loop of the decoder gives, at every position, exactly the offset width that the encoder reaches by doubling |
| `Lznt1Decoder.PhraseWordReadsBack` | libntfs-3g/compress.c:586-602 | a codable (distance, length) pair packed in 16 bits is split into the same pair by the decoder |
| `Lznt1Decoder.ReadGroup` | libntfs-3g/compress.c:553-629 | reading the tokens of one tag byte applies exactly the tokens that were written under it |
| `Lznt1Decoder.ReadSerialized` | libntfs-3g/compress.c:535-629 | decoding a serialized token list gives the expansion of the tokens, overlapping copies included |
| `Lznt1RoundTrip.SubBlockReadsBack` | libntfs-3g/compress.c:500-548 | one encoded sub-block, compressed or stored, decodes to the block followed by zeroes up to 4096 |
| `Lznt1RoundTrip.CompressedReadsBack` | libntfs-3g/compress.c:531-629 | the compressed form of a parse decodes to the parsed block, zero-filled |
| `Lznt1RoundTrip.BlockSetReadsBack` | libntfs-3g/compress.c:485-548 | concatenated sub-blocks ended by a null header decode to the data, cut or zero-filled to any multiple of 4096 |
| `Lznt1LazyParse.AgreementIs` | libntfs-3g/compress.c:208-229 | the reference agreement is the length of the longest match with a candidate: a match of n bytes exists exactly if n is no more |
| `Lznt1LazyParse.LongestGenuine` | libntfs-3g/compress.c:179-238 | the reference search returns the caller's best or a genuine earlier match |
| `Lznt1LazyParse.LongestOfAll` | libntfs-3g/compress.c:137-147 | short of the nice length none of the candidates within the search depth has a longer match |
| `Lznt1LazyParse.ChoiceGenuine` | libntfs-3g/compress.c:333-410 | whatever the lazy choice takes at a position is the literal there or a genuine match that can be coded there |
| `Lznt1Choice.PlacesAre` | libntfs-3g/compress.c:164-238 | the places tried are the newest earlier positions with the same hash: none is passed over |
| `Lznt1Choice.BestIs` | libntfs-3g/compress.c:149-243 | a match found is with the nearest place that repeats as much, or 18 bytes, and is all that this place repeats; short of 18 bytes no tried place repeats more |
| `Lznt1Choice.ChooseChosen` | libntfs-3g/compress.c:333-410 | a literal is put out exactly where no tried place repeats three bytes, or the longest match is shorter than 18 bytes and the next position has a longer one; else the nearest of the longest matches is |
| `Lznt1Choice.ChosenUnique` | libntfs-3g/compress.c:333-410 | at a position at most one token is the one so chosen |
| `Lznt1Choice.ParseChosen` | libntfs-3g/compress.c:316-419 | the parse of every block is the one token list all of whose tokens are so chosen |
| `Lznt1Reference.LazyParses` | libntfs-3g/compress.c:316-419 | the lazy parse of every block is a valid token list that stands for the block |
| `Lznt1Reference.SerializeGrows` | libntfs-3g/compress.c:412-442 | more tokens always take more bytes, so a parse broken off for want of room would not have fitted |
| `Lznt1Reference.CompressedEncodes` | libntfs-3g/compress.c:427-442 | the bytes that are a function of the block, compressed or stored, encode the block |
| `Lznt1Reference.HeaderOf` | libntfs-3g/compress.c:427-442 | for every block the header word has signature 3, the size less three in its low 12 bits, and its top bit exactly if the block is compressed, which is then shorter than the stored form |
| `Lznt1Reference.ZeroesParse` | libntfs-3g/compress.c:316-419 | a block of zeroes is parsed as literals up to four bytes, else as one literal and one phrase |
| `Lznt1MatchFinder.CompressContext.Insert` | libntfs-3g/compress.c:164-171 | putting a position on its hash chain keeps every chain the decreasing list of all earlier positions of its hash, and returns the newest earlier one |
| `Lznt1MatchFinder.CompressContext.SkipPosition` | libntfs-3g/compress.c:248-259 | a position passed over is put on its chain all the same, so the chains stay complete |
| `Lznt1MatchFinder.CompressContext.Extend` | libntfs-3g/compress.c:208-229 | the two extension loops give the length of the longest match with the candidate, up to the limit |
| `Lznt1MatchFinder.CompressContext.Search` | libntfs-3g/compress.c:179-238 | the walk along the pointers of a chain finds exactly what the reference search over all earlier positions finds |
| `Lznt1MatchFinder.CompressContext.BestMatch` | libntfs-3g/compress.c:149-243 | size and rel are those of the reference search, and the chains stay complete |
| `Lznt1Reference.CopyBackMatch` | libntfs-3g/compress.c:604-624 | copying back a genuine match byte by byte, overlap included, reproduces the input |
| `Lznt1Encoder.TagWriter.Literal` | libntfs-3g/compress.c:406-410 | a literal is emitted as one byte with a clear tag bit |
| `Lznt1Encoder.TagWriter.Phrase` | libntfs-3g/compress.c:388-392 | a phrase is emitted as its word with a set tag bit |
| `Lznt1Encoder.TagWriter.CloseGroup` | libntfs-3g/compress.c:412-418 | after eight tokens the tag byte left open is filled in and the next one reserved |
| `Lznt1Encoder.WidenedBits` | libntfs-3g/compress.c:328-332 | the doubled offset limit and halved length limit are those of the bit split at the position |
| `Lznt1Encoder.ParseBlock` | libntfs-3g/compress.c:316-419 | the loop ends with the whole lazy parse written down, or with a first part of it that already takes the whole room |
| `Lznt1Encoder.Seal` | libntfs-3g/compress.c:427-442 | the bytes are the compressed form exactly when that is shorter than the stored form, else the stored form |
| `Lznt1Encoder.CompressBlock` | libntfs-3g/compress.c:276-448 | for every block of 1 to 4096 bytes the output is one function of the block, an encoding of it of 4 to 4098 bytes whose header word has the signature, the size and the compression bit that the format wants, and nothing outside the 4100 bytes of room is touched |
| `Lznt1CompSet.LooksZeroSound` | libntfs-3g/compress.c:1117-1136 | an encoded block that passes the comparison of its first bytes decodes to zeroes only |
| `Lznt1CompSet.ZeroTestExact` | libntfs-3g/compress.c:1117-1136 | on what the encoder writes, the comparison succeeds exactly for zero blocks that are not 3 or 4 bytes long |
| `Lznt1CompSet.SetReadsBack` | libntfs-3g/compress.c:1140-1147 | what is written decodes to the input, zero-filled or cut to any multiple of 4096, whatever follows it |
| `Lznt1CompSet.RoomLeft` | libntfs-3g/compress.c:1097-1100 | two extra bytes per sub-block and two more are enough for the overshoot of every sub-block |
| `Lznt1CompSet.ZeroesSaved` | libntfs-3g/compress.c:1104-1114 | zero data is never given up for want of room, as each of its sub-blocks takes seven bytes at most |
| `Lznt1CompSet.PackedReadsBack` | libntfs-3g/compress.c:1140-1147 | the encoded data with terminator and padding decodes to the input |
| `Lznt1CompSet.CompSet` | libntfs-3g/compress.c:1072-1163 | gives up exactly if the encoder's bytes of all the data leave no cluster to save; else "nothing to write" exactly for data seen as zero, which always happens where seven bytes per sub-block leave a cluster; else writes the encoder's bytes, terminator and padding, which read back and save a cluster |
| `Lznt1InPlace.CopyBackUnique` | libntfs-3g/compress.c:604-624 | the in-place copy loop of a phrase is the only result that satisfies the copy equation |
| `Lznt1InPlace.PhraseInto` | libntfs-3g/compress.c:577-626 | a phrase is copied in place as the decoding function says, or refused |
| `Lznt1InPlace.SubBlockInto` | libntfs-3g/compress.c:494-634 | one sub-block decoded in place has the outcome, position and bytes of the decoding function |
| `Lznt1InPlace.DecompressInto` | libntfs-3g/compress.c:465-634 | the in-place decoder refines the decoding function on all bytes |
| `RecordLocks.Merge` | libfuse-lite/fuse.c:2503-2514 | absorbing a neighbour of the same type keeps the meaning of list and request together |
| `RecordLocks.Cut` | libfuse-lite/fuse.c:2520-2535 | what is left of an overlapping lock of another type, at either side, holds what it held there |
| `RecordLocks.Split` | libfuse-lite/fuse.c:2530-2534 | a lock that contains the request is split with the second node, and holds on both sides |
| `RecordLocks.PutIn` | libfuse-lite/fuse.c:2543-2547 | inserting the grown request at the place found makes the list the overlay of the request on the old one |
| `RecordLocks.CompatibleKept` | libfuse-lite/fuse.c:2455-2466 | an insertion after no conflict was found keeps the locks of different owners compatible |
| `RecordLocks.ConflictIs` | libfuse-lite/fuse.c:2455-2466 | the test on single locks finds a conflict exactly if, by what is held at the offsets, another owner stands against the request |
| `RecordLocks.FileLocks.Conflict` | libfuse-lite/fuse.c:2455-2466 | returns the first lock in the way; in an orderly list nothing exactly if no other owner holds an offset of the range, for writing or against a request to write |
| `RecordLocks.FileLocks.Insert` | libfuse-lite/fuse.c:2481-2552 | for every owner and offset the held type becomes the requested one inside the range and is unchanged elsewhere; each owner's locks stay sorted, disjoint and coalesced; every lock left is a piece of an old one, process id included, or the request grown; a node allocated beforehand is there each time one is needed, and a whole-range unlock needs none |
| `RecordLocks.FileLocks.InsertAll` | libfuse-lite/fuse.c:2481-2552 | after any sequence of calls the last request covering an offset decides what is held there |
| `RecordLocks.FileLocks.TryLock` | libfuse-lite/fuse.c:2455-2552 | a call is granted exactly if it is a release or no other owner holds an offset of the range, for writing or against a request to write; a refused one changes nothing; owners stay compatible |
| `RecordLocks.FlockRoundTrip` | libfuse-lite/fuse.c:2554-2569 | a lock reported and set again is the same; a range comes back unless it ends at the last offset, and then covers the same |
| `RecordLocks.FlockCovers` | libfuse-lite/fuse.c:2554-2569 | a range of given length covers its length of offsets, and one of length zero all from its start on |
| `NodeChains.PushedSound` | libfuse-lite/fuse.c:297-302 | pushing a node on its bucket keeps every bucket a chain of exactly the nodes that belong there |
| `NodeChains.RemovedSound` | libfuse-lite/fuse.c:285-295 | so does unlinking one from anywhere in its bucket |
| `NodeTree.LastChild` | libfuse-lite/fuse.c:318-372 | a parent that loses its last reference has no name and no other child |
| `NodeTree.DetachedTree` | libfuse-lite/fuse.c:318-338 | taking a name away keeps the counts equal to children plus lookups, names unique and parents acyclic |
| `NodeTree.ReleasedTree` | libfuse-lite/fuse.c:366-372 | dropping the lookups of a nameless node keeps the tree, deleting the node only when it has no child |
| `NodeTree.AttachedTree` | libfuse-lite/fuse.c:340-354 | giving a name under a parent keeps the tree if the name is free and the parent is not below the node |
| `NodeTree.AttachedAcyclic` | libfuse-lite/fuse.c:340-354 | a naming leaves the parent chains without cycle exactly if the parent is not the node or below it |
| `InodeTable.UnlinkFrom` | libfuse-lite/fuse.c:285-335 | the walk finds the node and unlinks it; the end of the chain is not reached |
| `InodeTable.FewIds` | libfuse-lite/fuse.c:374-383 | no more ids are in use than there are nodes, so next_id ends |
| `InodeTable.SamePair` | libfuse-lite/fuse.c:374-383 | two places in the order of ids have the same (generation, id) pair exactly if they are a multiple of 2^64 apart |
| `InodeTable.NeverReissued` | libfuse-lite/fuse.c:374-383 | over any run, no pair is handed out twice while the generation has moved by less than 2^32 |
| `InodeTable.Table.constructor` | libfuse-lite/fuse.c:3130-3176 | the new table holds the root alone and is valid |
| `InodeTable.Table.GetNodeNocheck` | libfuse-lite/fuse.c:256-266 | finds the node of an id, or nothing exactly if no node has it |
| `InodeTable.Table.GetNode` | libfuse-lite/fuse.c:268-277 | the abort is not reached for an id that is in the table |
| `InodeTable.Table.LookupNode` | libfuse-lite/fuse.c:385-396 | finds the node under a parent id and name, or nothing exactly if the name is free |
| `InodeTable.Table.UnrefNode` | libfuse-lite/fuse.c:356-372 | both assertions hold; the node is freed with its last reference and leaves both tables |
| `InodeTable.Table.UnhashName` | libfuse-lite/fuse.c:318-338 | the name goes, the abort is not reached, and everything else stays valid |
| `InodeTable.Table.HashName` | libfuse-lite/fuse.c:340-354 | the node gets its name and parent, the parent one more reference |
| `InodeTable.Table.NextId` | libfuse-lite/fuse.c:374-383 | ends; the (generation, id) pair strictly increases to the next usable one: only 0, the reserved id and ids in use are passed over |
| `InodeTable.Table.FindNode` | libfuse-lite/fuse.c:398-426 | a known name only gains a lookup; a new one becomes a fresh node with one lookup, whose (generation, id) is appended to the strictly increasing record of all handed out and equals none of the last 2^64 places; all others are alike |
| `InodeTable.Table.ForgetNode` | libfuse-lite/fuse.c:563-577 | the assertion holds; with its last lookup a node loses its name and stays exactly while it has children; only nodes without lookups go; the id counter and generation stay |
| `InodeTable.Table.RemoveNode` | libfuse-lite/fuse.c:579-588 | the named node, if any, loses its name and nothing else changes but an unreferenced parent going; the id counter and generation stay |
| `InodeTable.Table.RenameNode` | libfuse-lite/fuse.c:590-624 | the node has the new place, the one found there no name, all others are alike; a missing source or a hidden target leaves everything unchanged; the id counter and generation stay |
| `InodePath.PathBuffer.NewSize` | libfuse-lite/fuse.c:438-447 | doubling ends at a size that is enough and fits 32 bits |
| `InodePath.PathBuffer.Grow` | libfuse-lite/fuse.c:449-456 | the text is unchanged at the end of the larger buffer |
| `InodePath.PathBuffer.AddName` | libfuse-lite/fuse.c:433-471 | a slash and the name are put before the text, through any growth |
| `InodePath.ClimbTop` | libfuse-lite/fuse.c:530-544 | the climb ends at the root with all names written, or at a node without a name |
| `InodePath.GetPathName` | libfuse-lite/fuse.c:511-556 | the slash-joined names of all ancestors, or nothing exactly if one below the root has no name |
| `InterruptProtocol.TouchesLive` | libfuse-lite/fuse_lowlevel.c:153-169 | in a state that satisfies the invariant no enabled step touches a freed request |
| `InterruptProtocol.StepKeepsInv` | libfuse-lite/fuse_lowlevel.c:956-1028 | every step keeps the invariant: counts equal holders, queued interrupts have distinct targets and none targets a request in flight |
| `InterruptProtocol.RunSafe` | libfuse-lite/fuse_lowlevel.c:1287-1339 | in every interleaving from the empty session the invariant holds and only live requests are touched |
| `InterruptProtocol.FreedOnce` | libfuse-lite/fuse_lowlevel.c:147-169 | a freed request is never freed again |
| `InterruptProtocol.NothingLeaks` | libfuse-lite/fuse_lowlevel.c:153-169 | when no thread is busy, the live requests are exactly the queued interrupts |
| `InterruptProgress.NeverStuck` | libfuse-lite/fuse_lowlevel.c:964-975 | a busy thread can move, or waits for a request's mutex whose holder can move |
| `InterruptProgress.NoDeadlock` | libfuse-lite/fuse_lowlevel.c:956-981 | in no state of any run with a busy thread is every thread blocked |
| `InterruptProgress.Releases` | libfuse-lite/fuse_lowlevel.c:964-973 | the holder of a request's mutex gives it back within two steps of its own |
| `InterruptProgress.FewMoves` | libfuse-lite/fuse_lowlevel.c:153-169 | without new requests, however replies and internal steps are interleaved, there are no more of them than a number read off the state |
| `InterruptProgress.RestInTheEnd` | libfuse-lite/fuse_lowlevel.c:153-169 | once they cannot be continued no thread is busy and only queued interrupts are live |
| `InterruptProgress.CanRest` | libfuse-lite/fuse_lowlevel.c:153-169 | from every state some such steps bring the session to rest |
| `InterruptDelivery.NothingInvented` | libfuse-lite/fuse_lowlevel.c:956-1007 | in every state of every run an interrupter is at the request its INTERRUPT names, which is marked once it has been there; a request is marked, or its function called, only if an INTERRUPT for it was received |
| `InterruptDelivery.Delivered` | libfuse-lite/fuse_lowlevel.c:956-981 | over every run an INTERRUPT received while its request is in flight is freed only after the request has been marked, or freed as well |
| `InterruptDelivery.ReceivedWaits` | libfuse-lite/fuse_lowlevel.c:982-1007 | an INTERRUPT whose request is not in flight waits in the queue, unless one for the same request does |
| `InterruptDelivery.DispatchNotes` | libfuse-lite/fuse_lowlevel.c:1009-1028 | a request is marked at its dispatch exactly if an INTERRUPT for it waits |
| `InterruptDelivery.QueueLeaves` | libfuse-lite/fuse_lowlevel.c:1009-1028 | an INTERRUPT leaves the queue only for a request that comes: its own, which is then marked, or another, and then it is answered |
| `InterruptDelivery.MarkStays` | libfuse-lite/fuse_lowlevel.c:956-981 | over every run a mark stays until the request is freed |
| `InterruptDelivery.CalledBack` | libfuse-lite/fuse_lowlevel.c:1212-1221 | over every run, once a thread has registered a function and until its next step, an interrupt that has marked the request has called the function, whether it came before or after |
| `RequestLinks.AddRing` | libfuse-lite/fuse_lowlevel.c:138-145 | a request added before the head becomes the last of its ring; the other ring and all requests on neither are untouched |
| `RequestLinks.DelRing` | libfuse-lite/fuse_lowlevel.c:130-136 | a ring goes on without the request deleted; the other ring and all requests not on this one are untouched |
| `RequestLinks.DelAlone` | libfuse-lite/fuse_lowlevel.c:124-136 | deleting a request linked only to itself changes no link |
| `RequestLinks.Undisturbed` | libfuse-lite/fuse_lowlevel.c:124-145 | a ring is not disturbed by changes to requests outside it |
| `RequestSession.UnlinkRings` | libfuse-lite/fuse_lowlevel.c:153-169 | the deletion in free_req, of a request in flight or linked to itself, leaves the rings of the state machine's next state |
| `RequestSession.Session.FindInFlight` | libfuse-lite/fuse_lowlevel.c:960-961 | the pointer walk finds the first request in flight with the unique, or none |
| `RequestSession.Session.FindQueued` | libfuse-lite/fuse_lowlevel.c:982-986 | the pointer walk finds the first INTERRUPT in the queue with the target, or none |
| `RequestSession.Session.DispatchRequest` | libfuse-lite/fuse_lowlevel.c:1009-1028 | dispatch with check_interrupt on the pointers is the step of the state machine, in each of its three cases |
| `RequestSession.Session.ReceiveInterrupt` | libfuse-lite/fuse_lowlevel.c:990-1007 | so is do_interrupt up to the release of the global lock |
| `RequestSession.Session.Perform` | libfuse-lite/fuse_lowlevel.c:153-169 | every step of every thread, done on requests and pointers in memory, is the step of the state machine; links of freed requests are never followed |
| `RequestSession.Session.PerformAll` | libfuse-lite/fuse_lowlevel.c:1287-1339 | every interleaving of enabled actions is the run of the state machine |
| `LruSpec.ApplyKeeps` | libntfs-3g/cache.c:147-447 | every call keeps the keys unique and the number of items within the size |
| `LruSpec.RunKeeps` | libntfs-3g/cache.c:147-447 | so does every run of calls |
| `LruSpec.Inclusion` | libntfs-3g/cache.c:147-447 | over every run of accesses, each look-up entering the item after a miss, a smaller cache holds the first keys of a bigger one |
| `LruSpec.FetchExact` | libntfs-3g/cache.c:147-205 | a look-up keeps the first keys of the bigger cache in the smaller exactly if the smaller is empty or has the key, or the bigger has it not |
| `LruSpec.EnterExact` | libntfs-3g/cache.c:212-329 | entering keeps them exactly if the smaller has the key, or the bigger has it not, or the smaller is empty and the key heads the bigger |
| `LruSpec.WithoutExact` | libntfs-3g/cache.c:376-432 | an invalidation keeps them exactly if the same places go from both, but for a rest of the smaller that goes as a whole |
| `LruSpec.RunExact` | libntfs-3g/cache.c:147-447 | over every run of the four calls the smaller cache has the first keys of the bigger throughout exactly if each call meets its condition when it is made |
| `LruSpec.EnterAlone` | libntfs-3g/cache.c:212-329 | a run in which entering without a look-up breaks it: an item that only the bigger cache still has moves to the front of the smaller one alone |
| `LruSpec.FetchAlone` | libntfs-3g/cache.c:147-205 | a run in which a look-up without entering breaks it: the item moves to the front of the bigger cache alone |
| `HashIndex.InsertSound` | libntfs-3g/cache.c:63-97 | an insertion keeps every link on exactly one list and every entry on the chain of its hash |
| `HashIndex.DropSound` | libntfs-3g/cache.c:103-138 | so does a removal from anywhere in a chain |
| `HashIndex.Index.Find` | libntfs-3g/cache.c:158-170 | the chain search finds an entry with the key, or none exactly if no indexed entry has it |
| `HashIndex.Index.Insert` | libntfs-3g/cache.c:63-97 | the entry is indexed; neither branch that gives up hashing is reached |
| `HashIndex.Index.Drop` | libntfs-3g/cache.c:103-138 | the entry leaves the index and its link is free; the branch that gives up hashing is not reached |
| `LruDeck.UnlinkedLoose` | libntfs-3g/cache.c:337-357 | an entry taken out of the list leaves a sound list of the others |
| `LruDeck.ToppedSound` | libntfs-3g/cache.c:296-300 | an entry whose key is not cached may become the head |
| `LruDeck.GivenBackBroken` | libntfs-3g/cache.c:304-318 | the recycling after a failed allocation always leaves links that stand for no two lists whatever |
| `LruCache.Cache.constructor` | libntfs-3g/cache.c:474-550 | the new cache is empty and valid, indexed if there are hash values |
| `LruCache.Cache.Search` | libntfs-3g/cache.c:158-184 | by the index or along the list, the same entry is found |
| `LruCache.Cache.Fetch` | libntfs-3g/cache.c:147-205 | a hit moves the item to the front, a miss changes nothing, and the counters follow |
| `LruCache.Cache.Enter` | libntfs-3g/cache.c:212-329 | a cached item is left alone; a new one becomes the head, and the oldest goes if the cache was full |
| `LruCache.Cache.Discard` | libntfs-3g/cache.c:337-357 | the entry moves from the list to the free list |
| `LruCache.Cache.Invalidate` | libntfs-3g/cache.c:376-432 | exactly the selected items go, with an index only those that hash like the probe; the rest keeps its order; the number of removals is returned |
| `LruCache.Cache.Remove` | libntfs-3g/cache.c:434-447 | exactly the entry given goes |
| `LruCache.Cache.Perform` | libntfs-3g/cache.c:147-447 | each call acts on the items as the bounded move-to-front sequence does |
| `LruCache.Cache.PerformAll` | libntfs-3g/cache.c:147-447 | so does every run of fetch, enter, invalidate and remove, with an index or without |
| `LruCache.SideBySide` | libntfs-3g/cache.c:147-447 | of two caches under the same accesses the bigger holds every key that the smaller holds |
| `Bitmap.BitSet` | libntfs-3g/bitmap.c:56-64 | exactly the bit is set to the value; other values change nothing |
| `Bitmap.BitGetAndSet` | libntfs-3g/bitmap.c:90-101 | the old bit is returned and exactly the bit is set |
| `Bitmap.FirstByte` | libntfs-3g/bitmap.c:148-165 | the bits of a partial first byte are right, and the count runs to -1 exactly if the run ends inside it |
| `Bitmap.LastByte` | libntfs-3g/bitmap.c:183-209 | the low bits of a partial last byte are right and the others kept |
| `Bitmap.FullWindow` | libntfs-3g/bitmap.c:171-214 | a window without the partial last byte is ready for writing |
| `Bitmap.SetBitsInRun` | libntfs-3g/bitmap.c:115-255 | ends; exactly the bits of the run have the value, for any alignment, count and number of windows; both error branches inside the loop are unreachable; a negative argument changes nothing |
| `FreeBits.BitCountIs` | libntfs-3g/attrib.c:7205-7209 | the masked subtractions, the fold and the remainder count the bits of a byte |
| `FreeBits.TableEntry` | libntfs-3g/attrib.c:7211-7221 | the table holds the number of zero bits of each byte |
| `FreeBits.CountChunk` | libntfs-3g/attrib.c:7244-7257 | words from the end and the bytes left over together count all zero bits of a chunk |
| `FreeBits.GetFreeBits` | libntfs-3g/attrib.c:7223-7265 | the number of zero bits of the whole bitmap, -1 for an empty one |
| `FreeBits.RunMovesCount` | libntfs-3g/bitmap.c:115-255 | a run update moves that number by exactly the bits it flips |
| `Sids.FindSid` | libntfs-3g/acls.c:417-498 | the explicit SID of the first entry with the id, else the implicit one of the first pattern, else none |
| `Sids.FindImplicit` | libntfs-3g/acls.c:363-410 | the carry loop finds the id hidden in the last two sub-authorities, or 0 |
| `Sids.FindId` | libntfs-3g/acls.c:505-544 | the id of the first entry with the SID, else the implicit id, else 0 |
| `Sids.NoOverflow` | libntfs-3g/acls.c:344-354 | with an accepted pattern the last sub-authority does not overflow and the SID is a user SID |
| `Sids.ImplicitRoundTrip` | libntfs-3g/acls.c:363-498 | the id comes back from its implicit SID, except a user id whose low 30 bits are zero |
| `Sids.ImplicitInjective` | libntfs-3g/acls.c:417-498 | no two ids share an implicit SID, and none stands for a user and a group |
| `Sids.RoundTrip` | libntfs-3g/acls.c:417-544 | an id survives the way to its SID and back exactly if no earlier entry takes the SID and, for an implicit user, the low 30 bits are not zero |
| `Sids.LostUser` | libntfs-3g/acls.c:386-389 | the user id 2^30 is lost with every pattern |
| `Sids.RootIsAdmin` | libntfs-3g/acls.c:417-544 | the id 0 has the SID S-1-5-32-544, which comes back as 0 exactly if no explicit entry before the first pattern takes that SID |
| `ModeAcl.StdMeans` | libntfs-3g/acls.c:3200-3280 | grants and denials of the standard case amount to the mode |
| `ModeAcl.OwnGrpMeans` | libntfs-3g/acls.c:3288-3359 | so they do if owner and group are the same |
| `ModeAcl.OwnAdminMeans` | libntfs-3g/acls.c:3478-3555 | and if one of them is the administrator |
| `ModeAcl.FoldTally` | libntfs-3g/acls.c:2445-2749 | what the interpreter of each case adds up along the entries built for a mode |
| `ModeAcl.ModeRoundTrip` | libntfs-3g/acls.c:4123-4141 | every 12-bit mode, file or directory, is read back from its entries, for user or administrator SIDs |
| `AclGrants.AdminsGetAll` | libntfs-3g/acls.c:2691-2722 | whatever an entry built for a mode grants to anyone is granted to administrators and to the system, but for the right to delete what is in a directory: the system has the rights of an entry exactly if that is not among them |
| `AclGrants.DeletersAre` | libntfs-3g/acls.c:2480-2530 | a class has that right exactly in a directory that it may write |
| `AclGrants.Inherited` | libntfs-3g/acls.c:2445-2749 | a file passes no entry on; a directory passes all on to files and directories without end, but not the special bits, and a denial of execution to files only |
| `AclGrants.NoExecInside` | libntfs-3g/acls.c:2560-2575 | an entry that only what is inside gets is there exactly in a directory |
| `AclMeaning.StepSum` | libntfs-3g/acls.c:3228-3262 | in each of the three cases an entry adds its rights to what is kept for its class and kind, and to nothing else |
| `AclMeaning.Told` | libntfs-3g/acls.c:3200-3555 | along every list of entries, a right is in a sum exactly if an entry of that kind for that class has it, and the flags say which entries there are |
| `AclMeaning.PermissionsMean` | libntfs-3g/acls.c:3200-3555 | for every list of entries and each of the three cases, a class has r, w or x exactly if one of the rights for it is granted to the class, by itself, from group or world, or by default, and is denied neither to the class nor to everyone |
| `AclMeaning.SpecialsMean` | libntfs-3g/acls.c:2945-3034 | for every list the set-id and sticky bits are the rights granted to the null SID, and the mode has 12 bits |
| `AclBytes.SidBack` | libntfs-3g/acls.c:168-185 | a stored SID is read back, its authority in six bytes included |
| `AclBytes.AceBack` | libntfs-3g/acls.c:2540-2546 | a stored entry is read back with its size |
| `SecurityDescr.BuildAcls` | libntfs-3g/acls.c:2445-2749 | the DACL written in place is the stored form of the entries for the mode and stays in its room |
| `SecurityDescr.BuildDescr` | libntfs-3g/acls.c:2859-2938 | the descriptor has its layout within the size computed beforehand; the error branch is not reached |
| `SecurityDescr.ValidAcl` | libntfs-3g/acls.c:550-604 | the loop accepts exactly lists whose entries have the wanted sizes within range |
| `SecurityDescr.AclOkMeans` | libntfs-3g/acls.c:550-604 | the recursion behind valid_acl holds exactly for lists each of whose entries begins and ends within range, with its SID inside where the type has one there |
| `SecurityDescr.AcceptedWithin` | libntfs-3g/acls.c:606-690 | of an accepted descriptor the group SID and all entries of both lists lie within its storage, and the owner SID if it is the group's, begins behind its end or the longest SID would fit |
| `SecurityDescr.OwnerCondition` | libntfs-3g/acls.c:606-690 | the owner SID of all accepted descriptors with given places of owner and group lies within the storage exactly if the owner is the group, begins behind its end, or has room for the longest SID |
| `SecurityDescr.AcceptedReadable` | libntfs-3g/acls.c:615-690 | an accepted descriptor can be interpreted if each entry of its DACL has a type whose SID is checked or room for the longest SID |
| `SecurityDescr.EntryCondition` | libntfs-3g/acls.c:550-604 | in all accepted descriptors with an entry of given type at a given place, the SID read of it lies within the storage exactly if valid_acl checks that type or the longest SID has room there |
| `SecurityDescr.ForeignEntry` | libntfs-3g/acls.c:594-598 | an accepted descriptor of 64 bytes with an entry of type 5 whose SID ends beyond |
| `SecurityDescr.LaidOk` | libntfs-3g/acls.c:615-690 | every descriptor of this layout passes ntfs_valid_descr with any room behind it, and ntfs_attr_size is its end |
| `SecurityDescr.BuildPermissions` | libntfs-3g/acls.c:3200-3555 | reading the entries one after the other, whatever their types and wherever the parts of the descriptor stand, gives the mode of the list, none without a DACL: each class has exactly the permissions that the entries grant and do not deny |
| `SecurityDescr.ModeThroughStorage` | libntfs-3g/acls.c:2859-2938 | a mode stored as a descriptor fits, is valid, and is interpreted as the same mode |
| `PosixList.SortPass` | libntfs-3g/acls.c:1155-1172 | a pass swaps stably; one that swaps puts one more entry in its final place |
| `PosixList.SortRange` | libntfs-3g/acls.c:1154-1173 | the loop ends with a sorted stable permutation and touches nothing else |
| `PosixList.SortPosix` | libntfs-3g/acls.c:1137-1200 | both lists become sorted stable permutations of themselves |
| `PosixList.MergeLists` | libntfs-3g/acls.c:1475-1536 | the merge of two strictly sorted lists is strictly sorted and has exactly the keys of both, the first winning |
| `PosixDesc.PassesIs` | libntfs-3g/acls.c:1012-1064 | the loop body accepts an entry exactly if the list stays in order with it |
| `PosixDesc.ValidPosix` | libntfs-3g/acls.c:970-1085 | accepts exactly the descriptors whose two lists are in order and whose header agrees with them |
| `PosixDesc.DefaultsCondition` | libntfs-3g/acls.c:970-1085 | in all accepted descriptors with given counts the default entries are in order exactly if there is none, they begin right behind the access entries, or too few entries come before them for the three standard ones |
| `PosixInherit.HeaderIs` | libntfs-3g/acls.c:1092-1125 | the header mode is the special bits and the mode of the entries |
| `PosixInherit.PosixHeader` | libntfs-3g/acls.c:1092-1125 | the loop computes that mode and the tags present |
| `PosixClasses.ModeTells` | libntfs-3g/acls.c:1092-1125 | the mode of an ordered list has for each class the permissions of its entry, the mask standing for the group where there is one |
| `PosixInherit.TagsTell` | libntfs-3g/acls.c:1092-1125 | the tags computed for a list have the bit of a standard tag exactly if an entry has that tag |
| `PosixInherit.AcceptedMode` | libntfs-3g/acls.c:1064-1085 | the test on the mode passes exactly a null mode and one that has for each class the permissions of its entry, the mask standing for the group |
| `PosixInherit.HeaderWithin` | libntfs-3g/acls.c:1092-1125 | entries within a mode give a header mode within it |
| `PosixInherit.AdaptDefaults` | libntfs-3g/acls.c:1386-1407 | each default entry is cut down to the mode, the group's only if no mask limits it |
| `PosixInherit.SortedList` | libntfs-3g/acls.c:1444-1447 | the collected entries are in order once sorted |
| `PosixInherit.ValidParent` | libntfs-3g/acls.c:1357-1400 | a valid parent has default entries in order if they begin right behind its access entries or there is none |
| `PosixInherit.ModeInherits` | libntfs-3g/acls.c:1386-1447 | a class with a default entry gets the bits of it that are in the creation mode, the mask standing for the group; one without gets its bits of the creation mode less the umask; the special bits are those of the mode |
| `PosixInherit.EntriesPassOn` | libntfs-3g/acls.c:1386-1447 | entries for named users and groups, and the group entry under a mask, are passed on as they are, and nothing is added but missing standard entries |
| `PosixInherit.BuildInherited` | libntfs-3g/acls.c:1357-1473 | for every parent whose default entries, if any, are in order, every mode and umask: the result passes ntfs_valid_posix; each class has the bits of its default entry that are in the mode, or those of the mode less the umask; without default entries the mode is the requested one less the umask; the entries are those of the parent cut down plus the missing ones, and a directory gets the default entries unchanged |

## Left out

- Allocation failure: allocations are taken to succeed everywhere, except that `LruDeck.GivenBackBroken` shows what the recycling in the cache leaves behind.
- Lznt1InPlace.DecompressInto: for damaged streams, reads or writes beyond a buffer are one explicit outcome and not followed further.
- Lznt1CompSet.CompSet: the write to the device and its error are not modelled.
- Runlist surgery around compressed attributes: it needs the runlist and cluster allocator, which are not part of this model.
- RecordLocks.FileLocks.Insert: the allocation error is left out.
- RecordLocks.FileLocks.TryLock: the caller asks the file system for conflicts, which is not part of this model; the search of locks_conflict stands for it.
- RecordLocks.FileLocks.InsertAll: waiting for a lock (the retry in the caller) is left out.
- InodeTable.Table.FindNode: lookup and reference counts are unbounded, not 64 and 32 bits wide; fewer than 2^32 - 2 nodes are taken to be alive, without which next_id would not end.
- InodeTable.Table.NextId: fewer than 2^32 - 2 nodes are taken to be alive.
- InodeTable.Table.RenameNode: the open count and the hidden mark of a node are left out; the caller keeps the promise that a directory is not moved below itself.
- InodePath.GetPathName: the whole path is taken to fit the 32-bit buffer size.
- InterruptProtocol.RunSafe: session exit, the payload of requests and the signal sent to an interrupted thread are left out.
- LruCache.Cache.constructor: at least two entries are wanted; the reuse of the oldest entry says in a comment that it assumes three.
- LruCache.Cache.Fetch: comparison is equality of keys, consistent with the hash; the release callback is left out.
- Bitmap.SetBitsInRun: positions are mathematical integers, so the truncation of the byte position to an int is not modelled; the run lies within the attribute and reads and writes succeed.
- SecurityDescr.BuildPermissions: a SID that ends beyond the storage is not read further; `SecurityDescr.EntryCondition` says when that can happen.
- SecurityDescr.EntryCondition: an entry that overlaps the one before it, as entries of unchecked types may, is not placed.
- SecurityDescr.LaidOk: descriptors with a system ACL are checked by the model but not built.
- PosixInherit.BuildInherited: parents whose default entries are out of order, which ntfs_valid_posix may accept, are excluded.
- The translation between POSIX ACLs and NTFS ACLs, which is documented as approximate for foreign ACLs.
- Inheritance of NTFS ACLs (ntfs_inherit_acl) and the parsing of the mapping file.
- Directory lookup and index handling, device access, mounting, option parsing, signals and the session loop.
- The request wrappers of the FUSE library, reply marshalling, timeouts and the renaming of hidden files.
- Boot sector, collation, extended attributes and EFS: mostly branch-level checks that would add only easy members.
