# A verified model of the http2d core

http2d is a SPDY/HTTP server written in C. Around its sockets and event loop it carries self-contained algorithmic
code: a threaded AVL tree, an ARC page cache indexed by that tree, a merge sort on intrusive lists, digests, codecs
and the buffers a connection writes from. This project models that code in Dafny and proves what it is for.

Code that works by changing fields is modelled by classes, arrays and loops; what it computes is stated by functions
on values, and the laws are lemmas about those functions or invariants that every method keeps.

| files | what they model |
|---|---|
| `avl_keys`, `avl_shape`, `avl_rotate`, `avl_context`, `avl_order`, `avl_remove`, `avl_tree`, `avl_walk` | the threaded AVL tree: key order, memory as a tree with threads, rotations, insertion, deletion, traversal |
| `arc_spec`, `arc_proofs`, `arc_lists`, `arc_policy`, `arc_runs` | the ARC cache as a state machine, its invariants, the policy written on the four lists alone, recency order, and whole runs |
| `arc_rings`, `arc_store`, `arc_cache` | the cache object, over lists that are rings of embedded links and an index that is the AVL tree |
| `list_spec`, `list_ring`, `list_sort` | circular lists and bottom-up merge sort |
| `hash_blocks`, `hash_counts`, `sha1_rounds`, `sha1_digest`, `sha1_vectors`, `md5_rounds`, `md5_digest`, `md5_vectors` | SHA-1 and MD5: the rounds as the code writes them, contexts fed piece by piece, and the known digests of the standards, round by round |
| `base64`, `uri_escape`, `uri_code`, `buffer_replace`, `crc32`, `crc32_table`, `crc32_code`, `crc32_residue` | codecs, text replacement and checksums |
| `common`, `bit_masks` | what the models share; the shifts, masks and ors of the source, and the arithmetic the models write for them |
| `byte_buffer`, `write_path`, `spdy_frames` | the growable buffer, the two write buffers of a connection, SPDY frames and header blocks |

How the tree is modelled: `AvlShape.Fits(m, t, lo, hi)` says that the fields in memory `m` are those of the tree `t`
whose in-order neighbours are `lo` and `hi`: child links where there is a child, threads to the exact neighbours where
there is none, and balance fields equal to the height differences. A tree with a hole (`Ctx`) stands for the part above
a node. `Avl.Valid()` is `Fits` for the whole tree, balance at every node and increasing keys; `Avl.Contents()` is the
finite map the tree stands for.

How the cache is modelled: every public call holds the cache mutex, so one call is one step. What the callbacks return
(a re-fetch that works or fails, a new page or none) is part of the step, so a statement about every run covers every
behaviour of the callbacks. `adopted`, `blanks` and `failed` are history, not state of the code. The object `ArcCache.Cache`
keeps its four lists as rings of links (`ListRing`) and its index as a tree (`AvlTree.Avl`); its methods take exactly the
steps of the machine through them, and report a fault exactly where the code would follow a null pointer.

Some promises turned out to be false of the code. They are kept as the code has them and proved exactly:

- A re-adopted entry skips the eviction, and then a lookup may take the LRU entry of an empty list. A lookup fails if
  and only if `NoVictim` holds (`ArcProofs.StepSafe`), which needs a re-adoption before, and `ArcRuns.OneReadoptionCrashes`
  is a run in which one re-adoption is enough.
- The comparison of the tree goes through a `short`. It orders two keys rightly if and only if the difference of their
  lengths survives that (`AvlKeys.NodeCmpIsRankOrderIff`), and it takes keys of different lengths for the same key if and
  only if the lengths differ by a multiple of 65536 (`AvlKeys.LookEqualIff`). The tree is proved for all keys that compare
  rightly with those it holds.
- Escaping and unescaping gives a text back if and only if it holds no NUL and hides no escape sequence inside a longer
  character (`UriEscape.RoundTripIff`, `UriEscape.HiddenExample`); UTF-8 text hides none. Escaping an empty text adds two
  of the three bytes of `%00`.
- The length of a SPDY frame comes back if and only if it is below 2^24 (`SpdyFrames.LengthFitsIff`).
- Moving the content of an empty list to a new head leaves the new head as it was (`ListRing.Reparent`).
- The comment above `MD5Final` says that the bit count is stored most significant byte first; the code stores the
  low-order word first, as RFC 1321 asks, and the model follows the code.

## Model

| member | source | states |
|---|---|---|
| AvlKeys.CmpBufIsRankOrder | src/buffer.c:943-973 | for every two keys, NUL bytes and case folding included, the comparison has the sign of the difference of the keys read as base-256 numbers: it is a total order |
| AvlKeys.NodeCmpIsRankOrderIff | src/avl.c:71-81 | for every two keys the sign that survives the conversion to short is that order if and only if the length difference survives |
| AvlKeys.CloseKeysCompare | src/avl_generic.c:230-230 | lengths less than 2^15 apart survive |
| AvlKeys.ShortKeepsSignIff | src/avl_generic.c:230-230 | exactly which length differences keep their sign in a short |
| AvlKeys.LookEqualIff | src/buffer.c:943-973 | the tree takes two keys for the same exactly when they share a rank or when their lengths differ by a multiple of 2^16, and then their ranks differ |
| AvlKeys.SameRankIff | src/buffer.c:943-973 | keys share a place in the order exactly when they are equal up to case folding and bytes after a NUL |
| AvlKeys.SameRankOfSpellings | src/buffer.c:943-973 | for every two keys: they share a place in the order exactly when they have one length and, at every position that no NUL precedes, hold the same byte or, when case is ignored, a byte of 65..90 and that byte plus 32 |
| AvlKeys.SpellingsOfText | src/buffer.c:943-973 | for a key without NUL: exactly when that holds at every position |
| AvlKeys.ShorterRanksLower | src/buffer.c:943-973 | the shorter of two keys ranks lower |
| AvlKeys.LowerByteRanksLower | src/buffer.c:943-973 | of two keys of one length, that with the lower byte at the first position where they are not the same ranks lower; letters count as small ones when case is ignored |
| AvlKeys.CanonOfText | src/buffer.c:943-953 | NUL-free keys of a case-sensitive tree are told apart exactly |
| AvlShape.PlugFits | src/avl_generic.c:93-129 | memory represents a whole tree if and only if it represents the part above a node and the subtree at it |
| AvlShape.PlugInOrder | src/avl_generic.c:93-129 | the in-order sequence of a tree is what lies before a hole, what fills it, and what lies after |
| AvlShape.PlugBalanced | src/avl_generic.c:209-224 | a tree is balanced exactly when the part above a node and the subtree at it are |
| AvlShape.RethreadFirst | src/avl_generic.c:470-472 | redirecting the leftmost thread of a subtree changes its predecessor and nothing else |
| AvlShape.RethreadLast | src/avl_generic.c:486-488 | the same for the rightmost thread and the successor |
| AvlShape.SizeAtLeastMinNodes | src/avl_generic.c:37-37 | an AVL tree has at least the Fibonacci-like number of nodes for its height |
| AvlShape.HeightFitsPath | src/avl_generic.c:37-37 | a tree of fewer than 2^32 nodes is at most 45 high, the length of the path arrays |
| AvlRotate.LeftBalancesExact | src/avl_generic.c:132-168 | the balance formulas of a left rotation are the exact height differences for subtrees of any heights |
| AvlRotate.RightBalancesExact | src/avl_generic.c:170-206 | the same for a right rotation |
| AvlRotate.RotateLeft | src/avl_generic.c:132-168 | in memory: the rotated tree with exact links, threads and balances, only the two nodes touched |
| AvlRotate.RotateRight | src/avl_generic.c:170-206 | the mirror image |
| AvlRotate.RotationsSettleLeft | src/avl_generic.c:209-224 | a root off by two to the left ends balanced, by the single or the double rotation, with the height it must have |
| AvlRotate.RotationsSettleRight | src/avl_generic.c:209-224 | the same to the right |
| AvlRotate.NodeBalance | src/avl_generic.c:209-224 | any root off by at most two becomes balanced with the same nodes in the same order, and memory represents the result |
| AvlContext.IsLeftTest | src/avl_generic.c:289-289 | the pointer comparison of the loops tells whether the subtree hangs on the left |
| AvlContext.PathTop | src/avl_generic.c:232-283 | the last used slot of the path array is the parent of the current node |
| AvlContext.RaiseFits | src/avl_generic.c:306-311 | adjusting the balance field of the parent makes memory represent the tree one level up |
| AvlContext.GrownParent | src/avl_generic.c:287-312 | a subtree that grew and leans makes its parent at most off by two |
| AvlContext.ShrunkParent | src/avl_generic.c:549-575 | a subtree that lost a level makes its parent at most off by two |
| AvlContext.PlugWhole | src/avl_generic.c:303-304 | once a subtree has the height recorded above it, the whole tree is well formed again |
| AvlContext.LinkLeftFits | src/avl_generic.c:256-262 | a node hung on a free left side, with its two threads, fits |
| AvlContext.LinkRightFits | src/avl_generic.c:271-277 | a node hung on a free right side, with its two threads, fits |
| AvlOrder.SearchMiss | src/avl_generic.c:582-616 | a search that runs into an empty side proves the key absent from the map |
| AvlOrder.SearchHit | src/avl_generic.c:582-616 | a search that meets an equal key has found its value |
| AvlOrder.InsertAtHole | src/avl_generic.c:227-283 | filling the place where the search ended keeps the order and adds exactly the new binding |
| AvlOrder.BindingsAdd | src/avl_generic.c:413-579 | taking one node out of the sequence takes exactly its binding out of the map |
| AvlRemove.RemainderFits | src/avl_generic.c:456-498 | the only child of a deleted node, rethreaded, represents the rest of the subtree |
| AvlRemove.RemoveFits | src/avl_generic.c:456-498 | replacing a node by its remainder under the parent leaves memory representing the smaller tree |
| AvlRemove.SpineRebase | src/avl_generic.c:499-546 | the left edge below a replaced node still fits below its successor |
| AvlRemove.ReplaceByChildFits | src/avl_generic.c:499-546 | the successor that was the right child, moved up, represents the tree without the node |
| AvlRemove.ReplaceByDeepFits | src/avl_generic.c:499-546 | the same for a successor deeper down |
| AvlRemove.ReplacedInSteps | src/avl_generic.c:515-545 | the two groups of assignments together make exactly that replacement |
| AvlTree.Avl.constructor | src/avl_generic.c:67-80 | an empty, well-formed tree |
| AvlTree.Avl.Spellings | src/avl_generic.c:582-616 | the map answers a key exactly when some node holds a spelling of it, and with the value of that node |
| AvlTree.Avl.Compare | src/avl.c:71-81 | the sign of the comparison is the order of the keys |
| AvlTree.Avl.Get | src/avl_generic.c:582-616 | the value bound to the key, ret_not_found exactly when there is none, ret_error for an empty key; it succeeds exactly when a node holds the key or, where case is ignored, a respelling of it, and gives the value of that node |
| AvlTree.Avl.Descend | src/avl_generic.c:235-283 | the ancestors are recorded without overrunning the 45 slots; the walk ends at the key or at the free side where it belongs |
| AvlTree.Avl.Settle | src/avl_generic.c:288-301 | balancing one node and hanging the result on its parent |
| AvlTree.Avl.Bump | src/avl_generic.c:306-309 | adjusting one balance field on the way up |
| AvlTree.Avl.RebalanceGrown | src/avl_generic.c:287-312 | the loop towards the root restores a well-formed balanced tree with the same nodes |
| AvlTree.Avl.LinkLeft | src/avl_generic.c:256-262 | the new leaf and its threads on the left |
| AvlTree.Avl.LinkRight | src/avl_generic.c:271-277 | the new leaf and its threads on the right |
| AvlTree.Avl.NodeAdd | src/avl_generic.c:227-315 | inserting keeps all invariants and adds exactly one binding; a duplicate returns ret_error and changes nothing |
| AvlTree.Avl.Add | src/avl.c:115-128 | the same from key and value; an empty key is refused, and so is exactly every spelling of a key the tree holds |
| AvlTree.Avl.FindNext | src/avl_generic.c:500-513 | the in-order successor and the way down to it, within the 45 slots |
| AvlTree.Avl.UnlinkLeaf | src/avl_generic.c:457-468 | deleting a leaf |
| AvlTree.Avl.UnlinkWithRight | src/avl_generic.c:470-483 | deleting a node with a right child only |
| AvlTree.Avl.UnlinkWithLeft | src/avl_generic.c:485-498 | deleting a node with a left child only |
| AvlTree.Avl.UnlinkBoth | src/avl_generic.c:499-546 | deleting a node with two children: the successor takes its place, the other nodes stay in order |
| AvlTree.Avl.RebalanceShrunk | src/avl_generic.c:549-575 | the loop towards the root after a removal restores a well-formed balanced tree |
| AvlTree.Avl.Del | src/avl_generic.c:413-579 | the map without the key, all invariants kept, in all four shapes; a missing key changes no field; it succeeds exactly when a node holds a spelling of the key |
| AvlWalk.NeighboursInOrder | src/avl_generic.c:109-129 | where node_next and node_prev lead are the in-order neighbours |
| AvlWalk.Successor | src/avl_generic.c:109-118 | node_next of the i-th node is the next one, null after the last |
| AvlWalk.While | src/avl_generic.c:626-654 | every node once, in key order, until the callback objects |
| AvlWalk.Len | src/avl_generic.c:657-673 | the number of bindings of the map |
| AvlWalk.NodeHeight | src/avl_generic.c:318-337 | one more than the larger of both recursive calls is the true height |
| AvlWalk.NodeCheck | src/avl_generic.c:340-387 | accepts every well-formed tree |
| AvlWalk.Check | src/avl_generic.c:619-623 | accepts every well-formed tree |
| AvlWalk.MrProper | src/avl_generic.c:676-703 | every node is released exactly once and none is read after its release |
| ArcProofs.MoveRefs | src/cache.c:84-88 | moving an entry between lists keeps lists, tags and counts in agreement |
| ArcProofs.EvictRefs | src/cache.c:397-410 | evicting drops the reference the list stood for: the entry lingers or is freed, never both |
| ArcProofs.ReplaceRefs | src/cache.c:342-377 | turning a page into a ghost keeps reference safety; T1 gives it exactly when it is longer than the target, or as long on a hit of B2 |
| ArcProofs.NewCrashesIff | src/cache.c:380-421 | making room finds no victim exactly when B2 has to give one up and is empty |
| ArcProofs.VictimExists | src/cache.c:380-421 | without re-adoptions there is always a victim |
| ArcProofs.NewMakesRoom | src/cache.c:380-421 | after making room one more page fits within all bounds |
| ArcProofs.UpdateSafe | src/cache.c:502-567 | a hit keeps reference safety and all bounds, whether or not the re-fetch works |
| ArcProofs.ReleaseRefs | src/cache.c:166-236 | a released entry is freed exactly when that was its last reference, and then it was on no list |
| ArcProofs.StepSafe | src/cache.c:570-652 | every legal step keeps reference safety, the bounds and the tally; it fails if and only if a new page finds no victim |
| ArcProofs.RunSafeFrom | src/cache.c:570-652 | the same over every run, counting re-adoptions |
| ArcLists.StepFollows | src/cache.c:570-652 | every step leaves exactly the four lists, target, counters and handles of the policy: which page gives way by comparing T1 with the target after the hit, which ghost is forgotten, where the entry goes, and the target moved by the quotient of the ghost lengths, at least 1, cut to 0..c |
| ArcLists.GivesWayIff | src/cache.c:342-377 | a page of T1 becomes a ghost of B1 exactly when the step hits a ghost or needs room, the page is the least recent, and T1 exceeds the target or equals it on a hit of B2; a page of T2 becomes a ghost of B2 exactly when it is the least recent and T1 gives none |
| ArcLists.ReplaceIs | src/cache.c:342-377 | the same for replace alone, as lists before and after |
| ArcLists.RoomIs | src/cache.c:380-421 | making room, in its five cases, as lists before and after |
| ArcLists.WithoutAt | src/list.h:92-97 | an entry taken out leaves the others of its list in their order |
| ArcPolicy.NewOrder | src/cache.c:380-421 | a new page is first on T1; every list keeps its order and loses at most its least recent entry |
| ArcPolicy.GhostHitOrder | src/cache.c:423-500 | a ghost hit moves the target up for B1 and down for B2 and, if the re-fetch works, puts the page first on T2 |
| ArcPolicy.StepOrder | src/cache.c:570-652 | in every step each list loses at most the entry looked up or its least recent one and gains at most one at the front; the target moves only on ghost hits, in the right direction; and the whole step is that of the policy on lists |
| ArcRings.Rings.AddFront | src/cache.c:49-54 | the entry is first on its list, its links are in that ring, and the three other rings are untouched |
| ArcRings.Rings.Del | src/cache.c:56-61 | the entry is off its list and its ring, and the three other rings are untouched |
| ArcRings.Rings.GetLru | src/cache.c:63-68 | the owner of the link before the head is the last entry of the list; none for an empty list |
| ArcRings.RingsApart | src/cache.c:49-61 | the four rings share no link |
| ArcStore.Store.Find | src/cache.c:590-595 | the lookup in the tree finds exactly the entry indexed under the key |
| ArcStore.Store.NewEntry | src/cache.c:92-111 | a new entry with its key and its own links, on no list |
| ArcStore.Store.AddIndex | src/cache.c:638-638 | the tree gains exactly the binding of the entry |
| ArcStore.Store.Unindex | src/cache.c:203-204 | the tree loses exactly the binding of the key of the entry |
| ArcStore.Store.Free | src/cache.c:113-126 | an entry that is on no list and not in the tree goes with its key and links |
| ArcCache.Cache.constructor | src/cache.c:287-325 | the initial state is safe: no entry, empty lists, all counters and the target zero |
| ArcCache.Cache.CacheListDel | src/cache.c:56-61 | list, counter and tag change together |
| ArcCache.Cache.CacheListAdd | src/cache.c:49-54 | list, counter and tag change together |
| ArcCache.Cache.CacheListSwap | src/cache.c:84-88 | the entry moves to the front of the other list |
| ArcCache.Cache.EntryRef | src/cache.c:156-163 | one reference more |
| ArcCache.Cache.EntryUnrefGuts | src/cache.c:166-236 | one reference less; at zero the entry leaves index and list and is freed |
| ArcCache.Cache.ReplacePage | src/cache.c:342-377 | the transition of replace: the lists after are those before with the page of T1 or T2 that the target decides on turned into a ghost |
| ArcCache.Cache.EvictLru | src/cache.c:397-410 | the transition of one eviction; a fault exactly when the list is empty |
| ArcCache.Cache.CacheListMakeFirst | src/cache.c:78-82 | the entry moves to the front of its list |
| ArcCache.Cache.MakeRoom | src/cache.c:380-421 | the transition of on_new_added; a fault exactly when it has none |
| ArcCache.Cache.UpdateGhostB1 | src/cache.c:423-461 | target, replacement and re-fetch of a ghost of B1, in the order of the code, and the code returned |
| ArcCache.Cache.UpdateGhostB2 | src/cache.c:464-499 | the same for B2, which does not accept ret_ok_and_sent |
| ArcCache.Cache.Update | src/cache.c:502-567 | the transition of a hit, and the value returned |
| ArcCache.Cache.GetKnownEntry | src/cache.c:592-652 | a key in the index: re-adoption of a lingering entry, or a hit |
| ArcCache.Cache.EnterPage | src/cache.c:592-652 | a new key: room is made before the page is asked for; a fault exactly when there is no victim |
| ArcCache.Cache.Get | src/cache.c:570-652 | through rings and tree, exactly one step of the machine, from a valid cache to a valid cache; a fault exactly when that step fails; the lists, target and counters of the policy; ret_ok, ret_no_sys or ret_error exactly by the list of the entry and what the fetch returns; and the entry handed out, which is held |
| ArcCache.Cache.EntryUnref | src/cache.c:239-256 | exactly one release step through rings and tree; ret_ok exactly when the entry is gone |
| ArcRuns.ArcInvariant | src/cache.c:342-567 | every run without re-adoptions: T1+T2 <= c, T1+B1 <= c, total <= 2c, target in range, no missing victim; while nothing failed, no ghosts below capacity and T1+T2 = c from then on |
| ArcRuns.ReadoptionBounds | src/cache.c:592-652 | after k re-adoptions the bounds are off by at most k, and lookups are hits, misses, re-adoptions or blank |
| ArcRuns.ReferenceSafety | src/cache.c:156-236 | every run: exact counts, an entry lives exactly while listed or held, the index is exact, the lists are disjoint |
| ArcRuns.OneReadoptionCrashes | src/cache.c:380-421 | a legal run of fifteen lookups with one re-adoption whose last lookup has no victim |
| ListSpec.MergeSorted | src/list.c:78-110 | merging two sorted runs gives a sorted run |
| ListSpec.MergeStable | src/list.c:91-103 | entries that tie keep their order, those of the first run first |
| ListSpec.PassPermutes | src/list.c:62-115 | a pass loses and invents nothing, for any comparator |
| ListSpec.PassDoubles | src/list.c:62-120 | a pass doubles the width of the sorted runs |
| ListSpec.PassStable | src/list.c:62-115 | a pass keeps the order of ties |
| ListSpec.SortIsStableSorting | src/list.c:52-127 | for every total preorder the result is a stable sorted permutation |
| ListSpec.SortIsTheStableSorting | src/list.c:52-127 | and it is the only one |
| ListRing.InitHead | src/list.h:47-50 | an empty list |
| ListRing.IsEmpty | src/list.h:68-72 | true exactly for the empty list |
| ListRing.Add | src/list.h:74-81 | the entry comes first, the ring stays linked both ways |
| ListRing.AddTail | src/list.h:83-90 | the entry comes last, the ring stays linked both ways |
| ListRing.Del | src/list.h:92-97 | the ring without the entry, whose own links keep their values |
| ListRing.Reparent | src/list.h:99-109 | the content under a new head; an empty list changes nothing |
| ListRing.Invert | src/list.c:130-144 | the same entries in the opposite order |
| ListSort.FindRun | src/list.c:68-75 | the length of the first run and the start of the second |
| ListSort.MergeRuns | src/list.c:77-111 | the links are rewritten to the merge of the two runs, the rest of the circle untouched |
| ListSort.OnePass | src/list.c:62-117 | one pass makes a ring of the merged runs; nmerges <= 1 exactly when one pair of runs covered the list |
| ListSort.Sort | src/list.c:52-127 | terminates for every list, the empty one included, and leaves a ring of the sorted entries |
| HashBlocks.Feed | src/sha1.c:206-247 | what a state remembers of a message is the fold over its blocks and its tail |
| HashBlocks.PaddingFills | src/sha1.c:270-297 | the padding fills the last block with the fewest zeros (section 5.1.1 of FIPS 180-4) |
| HashBlocks.OneBlockPad | src/sha1.c:279-286 | padding that fits the current block |
| HashBlocks.TwoBlockPad | src/sha1.c:279-286 | padding that needs an extra block |
| HashCounts.LowCarry | src/sha1.c:212-217 | the low word comes out smaller exactly when it carried |
| Sha1Rounds.Extend | src/sha1.c:140-145 | the message schedule (section 6.1.2 of FIPS 180-4), with the words Sha1Vectors gives it |
| Sha1Rounds.NextWordBack | src/sha1.c:141-144 | a word of the schedule, turned back by one place, is the exclusive or of the words 3, 8, 14 and 16 before it |
| Sha1Rounds.ConstSquares | src/sha1.c:36-40 | the four constants are 2^30 times the square roots of 2, 3, 5 and 10, rounded down |
| Sha1Rounds.LogicBits | src/sha1.c:30-34 | bit by bit the functions are choice, parity, majority and parity |
| Sha1Rounds.RotMultiplies | src/sha1.c:45-46 | the rotations by 1, 5 and 30 multiply by 2, 2^5 and 2^30 modulo 2^32 - 1 |
| Sha1Vectors.AbcBlock | src/sha1.c:73-188 | the eighty words and rounds of the block of "abc", one by one |
| Sha1Vectors.AbcDigest | src/sha1.c:190-297 | the digest of "abc" is a9993e36 4706816a ba3e2571 7850c26c 9cd0d89d (appendix A of FIPS 180-2) |
| Sha1Vectors.AlphabetDigest | src/sha1.c:190-297 | the digest of the message of 56 bytes, which needs two blocks, is 84983e44 1c3bd26e baae4aa1 f95129e5 e54670f1 |
| Sha1Rounds.RolesTurn | src/sha1.c:49-70 | each of the six unravelled macros, seen through the roles of its registers, is the generic round |
| Sha1Rounds.UnravelledForm | src/sha1.c:146-165 | the eighty unravelled rounds give the words of the generic loop for every digest and block |
| Sha1Rounds.GenericForm | src/sha1.c:176-186 | the generic loops compute the rounds of section 6.1.2 of FIPS 180-4 |
| Sha1Rounds.SwapFetched | src/sha1.c:90-99 | swapping a little-endian word reads it big-endian |
| Sha1Digest.LoadWords | src/sha1.c:90-99 | the sixteen words of a block |
| Sha1Digest.CountsAdd | src/sha1.c:212-217 | the two-word bit count is exact modulo 2^64 for inputs of any length |
| Sha1Digest.LengthFieldValue | src/sha1.c:288-295 | the last eight bytes spell the bit length modulo 2^64, most significant byte first |
| Sha1Digest.Sha1.Transform | src/sha1.c:73-188 | one block of SHA-1 |
| Sha1Digest.Sha1.Update | src/sha1.c:206-247 | the context has seen the old message followed by the buffer |
| Sha1Digest.Sha1.PadBuffer | src/sha1.c:279-286 | the buffer and digest after padding, in both cases |
| Sha1Digest.Sha1.Final | src/sha1.c:270-297 | the digest of the whole padded message |
| Sha1Digest.DigestOfPieces | src/sha1.c:190-297 | the digest does not depend on how the message is cut into pieces |
| Md5Rounds.RewrittenIsLogic | src/md5.c:139-143 | the rewritten functions F1 and F2 are F and G of section 3.4 of RFC 1321 |
| Md5Rounds.LogicBits | src/md5.c:139-143 | bit by bit: F and G are choices, H is parity, I complements y except where x is clear and z set |
| Md5Vectors.AbcDigest | src/md5.c:47-133 | the digest of "abc" is 900150983cd24fb0d6963f7d28e17f72 (appendix A.5 of RFC 1321), step by step |
| Md5Vectors.AlnumDigest | src/md5.c:47-133 | the digest of the 62 letters and digits, which needs two blocks, is d174ab98d277d9f5a5611c2c9f419d9f |
| Md5Rounds.Md5StepIsMix | src/md5.c:146-147 | MD5STEP is the operation of the standard |
| Md5Rounds.TurnA | src/md5.c:164-231 | a step that assigns a register in place is the next step of the standard, seen through the roles of the registers, which come back every four steps |
| Md5Rounds.Md5Transform | src/md5.c:154-237 | for every state and block the 64 steps, with their words, constants and rotations, compute the four rounds of section 3.4 of RFC 1321 |
| Md5Digest.CountsAdd | src/md5.c:70-72 | the two-word byte count is exact modulo 2^64 |
| Md5Digest.LengthWords | src/md5.c:126-127 | the two length words are the bit length modulo 2^64 |
| Md5Digest.LengthFieldValue | src/md5.c:126-127 | the last eight bytes spell it, least significant byte first (section 3.2 of RFC 1321) |
| Md5Digest.Md5.constructor | src/md5.c:47-57 | a context that has seen nothing |
| Md5Digest.Md5.Transform | src/md5.c:154-237 | one block of MD5 on the sixteen words of the buffer, least significant byte first |
| Md5Digest.Md5.Update | src/md5.c:63-97 | the context has seen the old message followed by the input |
| Md5Digest.Md5.PadBuffer | src/md5.c:106-122 | the buffer and state after padding, in both cases |
| Md5Digest.Md5.Final | src/md5.c:103-133 | the digest of the whole padded message |
| Md5Digest.DigestOfPieces | src/md5.c:47-133 | the digest does not depend on how the message is cut into pieces |
| Base64.TablesInverse | src/buffer.c:1606-1624 | the decoding table inverts the alphabet and skips the padding character |
| Base64.AlphabetIs | src/buffer.c:1686-1718 | the alphabet of section 4 of RFC 4648, range by range, and the padding character = |
| Base64.TestVectors | src/buffer.c:1676-1725 | the test vectors of section 10 of RFC 4648 |
| Base64.SkipsOutside | src/buffer.c:1626-1629 | a byte outside the alphabet is skipped wherever it stands |
| Base64.UnpackNext | src/buffer.c:1629-1646 | one more letter completes the byte the switch on the phase writes |
| Base64.RoundTrip | src/buffer.c:1586-1725 | decoding an encoded string gives it back, for every string of bytes |
| Base64.EncodeBase64 | src/buffer.c:1676-1725 | the loop writes the encoding into the space asked for |
| Base64.DecodeBase64 | src/buffer.c:1586-1669 | the in-place decoder that flushes 127 bytes at a time equals the decoder on values; its writes stay behind its reads, and its table is indexed within bounds |
| Base64.EncodeIsText | src/buffer.c:1686-1718 | encoder output is text below 128 |
| Base64.EncodeThenDecode | src/buffer.c:1586-1725 | the two functions in a row give every string back, whatever the sign of char |
| UriEscape.EscapeLength | src/buffer.c:1338-1407 | the counting pass predicts the exact length of the output |
| UriEscape.RoundTripIff | src/buffer.c:1263-1459 | unescaping what was escaped gives the text back exactly when it holds no NUL and hides no escape |
| UriEscape.HiddenExample | src/buffer.c:1366-1389 | a text with an escape inside a longer character does not come back |
| UriEscape.Utf8RoundTrip | src/buffer.c:1186-1225 | NUL-free UTF-8 text always comes back |
| UriEscape.TablesSound | src/buffer.c:1413-1459 | all three tables escape NUL and the percent sign, and no hexadecimal digit |
| UriEscape.TablesExact | src/buffer.c:1413-1459 | exactly which bytes each table escapes: control characters, space, #, %, ? and all from DEL on; of delimiters also :, @, [ and ]; of arguments also &, + and ; |
| UriEscape.EscapeIs | src/buffer.c:1378-1384 | an escape is % and two digits of 0123456789abcdef; digits in both cases are read; a NUL comes back as a space |
| UriCode.UnescapeUri | src/buffer.c:1263-1320 | in place, with the length kept equal to that of the text: the first NUL is at that position |
| UriEscape.UnescapeNulFree | src/buffer.c:1302-1312 | unescaping brings no NUL into a text |
| UriCode.NextChar | src/buffer.c:1186-1225 | the next character, cut short by the terminator |
| UriCode.CountPass | src/buffer.c:1338-1356 | the number of escapes |
| UriCode.WritePass | src/buffer.c:1362-1389 | the escaped text after what the buffer held |
| UriCode.EscapeWithTable | src/buffer.c:1322-1411 | the text appended, with the length of the counting pass; an empty source appends two bytes of an escaped NUL |
| UriCode.EscapeThenUnescape | src/buffer.c:1263-1459 | both calls in a row give a non-empty text back exactly when it holds no NUL and hides no escape |
| BufferReplace.FindFirst | src/buffer.c:2055-2055 | the search finds the first occurrence, and none only when there is none |
| BufferReplace.ReplacedIsRejoined | src/buffer.c:2083-2102 | replacing is cutting at leftmost non-overlapping occurrences and joining with the replacement |
| BufferReplace.CutUnique | src/buffer.c:2083-2102 | there is only one such cut |
| BufferReplace.ResultLength | src/buffer.c:2051-2066 | the sizing pass computes the length of the result and whether anything matches |
| BufferReplace.WriteResult | src/buffer.c:2083-2102 | the writing pass fills exactly that length with the result |
| BufferReplace.ReplaceString | src/buffer.c:2017-2113 | the NUL-free content becomes the replacement; ret_deny for an empty pattern or a buffer without memory |
| BufferReplace.SubstituteString | src/buffer.c:2129-2208 | the destination holds what ReplaceString would leave when something matches, nothing and ret_not_found otherwise |
| BitMasks.EncoderSextets | src/buffer.c:1705-1708 | the sextets of the encoder model are what the shifts, masks and ors of the code compute |
| BitMasks.DecoderBytes | src/buffer.c:1635-1643 | the bytes of the decoder model are what the shifts, masks and ors of the code compute |
| BitMasks.LengthWord | src/md5.c:127-127 | the second length word of the model is the or of the code, for counters of 32 bits |
| BitMasks.BufferedBytes | src/sha1.c:278-278 | the number of buffered bytes of both hash models is the masked count of the code |
| BitMasks.LeadBytes | src/buffer.c:1186-1225 | the length of a character in the model is the one the masks of the code find |
| BitMasks.EscapeBits | src/buffer.c:1366-1389 | the bit of a character in a table, and its two digits, are those the code picks |
| BitMasks.FrameBits | src/spdy.c:70-122 | the control bit set and cleared, and the masks a reader applies |
| Crc32.StepLinear | src/crc32.c:17-26 | a division step is linear over exclusive or |
| Crc32.DivideIsSteps | src/crc32.c:17-26 | taking in bits one at a time is combining the byte first and stepping eight times |
| Crc32.EightSteps | src/crc32.c:17-17 | eight steps are a shift and a word chosen by the low byte |
| Crc32Table.TableIsDivision | src/crc32.c:24-89 | each of the 256 entries is the remainder of its index |
| Crc32Code.ByteStep | src/crc32.c:17-17 | one round of the loop is eight steps of polynomial division |
| Crc32Code.CrcComposes | src/crc32.c:99-110 | continuing a checksum over a second string is the checksum of the concatenation |
| Crc32Residue.Residue | src/crc32.c:99-110 | a string followed by its checksum, lowest byte first, has the checksum 0x2144df1c, for every string |
| Crc32Residue.CheckValue | src/crc32.c:92-110 | the checksum of "123456789" is 0xcbf43926 |
| Crc32Code.Crc32Partial | src/crc32.c:99-110 | the table-driven loop computes division bit by bit, lowest bit first (section 8 of RFC 1952) |
| Crc32Code.Crc32Whole | src/crc32.c:92-96 | the checksum from scratch |
| WritePath.NothingLost | src/connection.c:191-239 | over every run: bytes sent, then the TLS buffer, then the other, are all bytes produced in order |
| WritePath.OffersFirst | src/connection.c:200-216 | what a write hands to the socket comes first of all that waits, and is empty exactly when nothing waits |
| WritePath.RetrySame | src/connection.c:204-216 | a TLS write that has to be tried again is tried with the same bytes, exactly when it had bytes or nothing was produced |
| ByteBuffer.Buffer.Grow | src/buffer.c:148-163 | more memory by the amount asked for and the extra; the bytes in use keep their places |
| ByteBuffer.Buffer.Add | src/buffer.c:185-211 | the bytes go after the content, in memory that grows when needed, with a terminator |
| ByteBuffer.Buffer.AddBuffer | src/buffer.c:214-218 | the content of another buffer goes after the content |
| ByteBuffer.Buffer.Prepend | src/buffer.c:739-759 | the bytes go before the content, which moves up over itself |
| ByteBuffer.Buffer.Clean | src/buffer.c:99-105 | no content is left |
| ByteBuffer.Buffer.MoveToBegin | src/buffer.c:772-786 | the content without its first bytes, moved down over itself |
| ByteBuffer.Buffer.Swap | src/buffer.c:107-125 | the two buffers change places |
| ByteBuffer.Buffer.MrProper | src/buffer.c:85-97 | neither content nor memory is left |
| WritePath.Connection.DoWrite | src/connection.c:191-239 | one write step: swap, offer, drop what was sent |
| WritePath.Connection.SwapBuffers | src/connection.c:202-216 | new bytes come to the buffer TLS writes from, exactly when it is empty |
| WritePath.Connection.Add | src/request-spdy.c:191-193 | new bytes go to the end of the first buffer |
| SpdyFrames.CtrlRoundTrip | src/spdy.c:70-104 | a reader recovers version 3, type, flags and the length modulo 2^24, whatever follows |
| SpdyFrames.LengthFitsIff | src/spdy.c:70-104 | the length comes back exactly when it is below 2^24 |
| SpdyFrames.WriteCtrl | src/spdy.c:84-104 | the eight bytes of the head, and no other byte |
| SpdyFrames.WriteSynReply | src/spdy.c:107-123 | the twelve bytes of a reply head |
| SpdyFrames.SynReplyCovers | src/spdy.c:107-123 | version 3 and type 2; the length field covers exactly the bytes after the 8-byte head, exactly when they fit 24 bits; the stream number reads back in 31 bits |
| SpdyFrames.WriteData | src/spdy.c:126-147 | the eight bytes of a data head |
| SpdyFrames.DataRoundTrip | src/spdy.c:126-147 | the control bit is clear and stream, flags and length read back |
| SpdyFrames.HeadExamples | src/spdy.c:70-147 | network byte order, and a reply head and a data head byte for byte |
| SpdyFrames.BlockExample | src/request-spdy.c:99-119 | the block of one header byte for byte |
| SpdyFrames.BlockRoundTrip | src/request-spdy.c:99-119 | for any sequence of headers the block parses back to exactly those pairs in order (section 2.6.10 of draft-mbelshe-httpbis-spdy-00) |
| SpdyFrames.Reply.HeaderAdd | src/request-spdy.c:99-119 | one more pair at the end of the block |
| SpdyFrames.Reply.HeaderFinish | src/request-spdy.c:170-199 | the head and the compressed block go after what the connection has to write; the block compressed is the one that parses back |

## Left out

- Sockets, TLS, libev, zlib, threads, DNS, plugin loading, configuration, tracing and logging: foreign calls or plumbing. The compressor is a parameter, what a socket reports is a parameter.
- Memory that cannot be allocated, and lengths that overflow an int: allocation succeeds and integers are unbounded, except where a width is written out (the short of the tree comparison, the hash counters, SPDY fields).
- ArcCache.Cache: list tag and reference count of the live entries are records in a table. Entry locks, clean_cb and free_cb are not modelled, and neither is http2d_cache_mrproper. After a fault nothing is promised.
- ArcCache.Cache.Get: keys have to compare rightly with the keys of the live entries, of which there are fewer than 2^32 - 1.
- AvlWalk.NodeCheck: accepts well-formed trees; it does not reject all others, because the code drops the results of its recursive calls.
- AvlTree.Avl: the tree lock, the callback table and `http2d_avl_set_case` on a tree that already holds keys. Insertion and deletion share one model of their identical descent.
- ListSort.Sort: the comparator is a function of the two entries that does not look at their links.
- Sha1Rounds: words have 32 bits; on machines with a 64-bit unsigned long the code truncates to 32 bits at every step.
- Md5Digest.Md5: the sixteen words of the buffer are bytes, read least significant first. Of the final memset, which clears only the size of a pointer, nothing is stated.
- Base64.DecodeBase64: where char is signed, bytes of 128 and more index before the decoding table, and the input has to be text below 128, which encoder output is; where char is unsigned there is no such condition.
- BufferReplace: patterns and texts hold no NUL, and the length given for a pattern is its length.
- WritePath: the socket is assumed to send a prefix and report its length, TLS to write all or nothing.
- The SPDY receive path, connection recycling, iovec and path helpers, HTML escaping, buffer slices, status tables and version strings.
