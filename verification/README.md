# SPOCP server core: a Dafny model

SPOCP is a policy server: clients ask whether a request, written as an S-expression, is covered by a
stored rule, and rules may carry boundary conditions that plugins decide. This project models the
parts of the server that hold state, and proves what they are for.

- **Rule store** (`UidOrder`, `RbShape`, `RbLinks`, `RbRepair`, `RbSearch`, `RbTree`, `RuleStore`): the
  intrusive red-black tree of `include/tree.h`, node objects with parent pointers and all, used by
  `lib/bsdrb.c` as a finite map from uids to rules. A ghost tree and a ghost path to the root describe
  what the link fields spell out; each branch of the two repair loops is a transformation of that pair.
- **SHA-1** (`Sha1Spec`, `Sha1Stream`, `Sha1Answers`): FIPS 180-1 as the standard writes it, with the digests
  it prints for its two short examples, and the streaming code of `lib/sha1.c` with its circular schedule,
  renamed variables and 64-bit words, proved to refine it.
- **Locks and pools** (`RwLock`, `Pool`, `ThreadPool`, `BackendList`, `BackendPool`, `BackendLimit`,
  `PoolViews`, `LockCalls`, `WorkCalls`, `BackendCalls`): the reader/writer lock, the worker pool and the backend connection pool as step machines
  over any number of threads. Waiting on a condition releases the mutex and joins the wait set, a signal
  wakes at least one waiter if there is one, and spurious wake-ups are allowed. The linked lists underneath
  are classes, and `PoolViews` ties them to the sequences of the step machines. The last three modules say what
  one call achieves, alone and, for the search of a connection, in any run.
- **Boundary conditions** (`Bcond`, `BcondMeaning`, `BcondEval`, `BcondRuns`, `BcondFaults`): from canonical text through the
  parse tree to expressions in a growing table, from there to verdicts, and what the code does to texts
  it cannot translate.
- **S-expressions and buffers** (`Decimal`, `Octets`, `Sexp`, `Spelling`, `Escapes`, `Chunks`, `IoBuf`): printing, parsing
  and size computation, the conversion of token lists, and the output buffer with its frames.
- **Hash** (`JenkinsHash`, `HashAnswer`): the word mixer and the byte hash built on it.

Where the code does not do what its comments or documentation say, the model follows the code, and the
difference is stated as a theorem:

- The carry test of `sha1_update` compares a 32-bit sum with an unmasked length, so a piece of 2^29 bytes
  or more can miscount (`Sha1Stream.HighCount` gives the exact condition, `LargePieceMiscounts` an input).
- An unlock by a thread that does not hold the lock lets two writers overlap, or a writer and a reader
  (`RwLock.StrayWriteUnlockBreaksExclusion`, `StrayReadUnlockBreaksExclusion`); the exclusion theorems are
  about runs in which such a call finds its counter zero and fails (`RwLock.ExclusionCanFailIff`).
- With two producers, `tpool_add_work` can dereference null (`ThreadPool.LookupCanFailIff`).
- Two concurrent pushes can take the connection pool beyond its maximum (`BackendLimit.LimitCanBeExceededIff`).
- `get_str` on an empty text, and on no other, reports success with a wrapped length (`Octets.GetStr`), and
  the parsers then read beyond the text (`Sexp.ParseBeyondIff`, `Bcond.ParseCondBeyondIff`).
- DIGITS is wrong from 10^6 on (`Decimal.DigitsExactIff`), which decides when the printers are faithful
  (`Sexp.WrittenIff`, `Chunks.RoomsIff`) and why the buffer is not affected (`IoBuf.OctetRoom`).
- Anonymous boundary conditions written as lists all get the name of the text behind them, usually the
  empty one (`BcondFaults.AnonymousName`), so the later ones cannot be found (`AnonymousCollide`).
- A refused boundary condition changes the table unless its leftmost name is undefined
  (`BcondFaults.RefusedUnchangedIff`, `RefusedLeavesUser`).
- An empty list can make the translation dereference null (`BcondFaults.AddCrashesIff`, `EmptyListCrashes`),
  and deleting an unknown name always does (`DelCrashesIff`).
- `iobuf_insert` goes on using the caller's place after the buffer may have moved, so a length tag that needs
  growth can be lost (`IoBuf.TagDanglesIff`, `TagCanDangle`).
- `iobuf_shift` misplaces the message mark (`IoBuf.ShiftMarkIff`, `ShiftStraysIff`).
- Returning an item that is in no pool makes the stored size of the active pool wrong (`Pool.Return`).
- `bsdrb_empty` answers 0 for an empty store.

## Model

| member | source | states |
|---|---|---|
| `RuleStore.Insert` | lib/bsdrb.c:63-78 | returns 1 and the map from uids to instances grows by exactly the new pair, or returns 0 and the map is unchanged because the uid was there; the tree stays valid either way |
| `RuleStore.Remove` | lib/bsdrb.c:80-105 | returns 1 exactly for a stored key; the map loses exactly that key and the tree stays valid |
| `RuleStore.Find` | lib/bsdrb.c:48-61 | agrees with the map on every key, and the number n of steps satisfies 2^n <= (size+1)^2 |
| `RuleStore.Init` | lib/bsdrb.c:36-46 | a valid store that holds the empty map |
| `RuleStore.Empty` | lib/bsdrb.c:107-112 | answers 0 exactly for the empty map (the name suggests the opposite; the code is followed) |
| `RuleStore.All` | lib/bsdrb.c:114-133 | lists the instance of every rule exactly once, in strictly ascending uid order |
| `RuleStore.Free` | lib/bsdrb.c:135-146 | frees every rule exactly once, in order, and leaves an empty valid tree |
| `RuleStore.FirstToFree` | lib/bsdrb.c:141 | the walk starts at the first rule of the ordered sequence, or at nothing exactly if the tree is empty |
| `RuleStore.FreeFirst` | lib/bsdrb.c:141-145 | the successor saved before the removal is still the first remaining rule after it, because removal relinks nodes and moves no payload |
| `RuleStore.ContentsWith` | lib/bsdrb.c:63-78 | inserting a rule into the ordered sequence adds exactly its key to the map |
| `RuleStore.ContentsWithout` | lib/bsdrb.c:80-105 | deleting a rule from the ordered sequence removes exactly its key from the map |
| `UidOrder.StrcmpTrichotomy` | lib/bsdrb.c:15-18 | strcmp is 0 exactly on equal uids and changes sign when its arguments are swapped |
| `UidOrder.LessTransitive` | lib/bsdrb.c:15-18 | the order by strcmp is transitive, hence a strict total order |
| `UidOrder.LessIff` | lib/bsdrb.c:15-18 | the order is that of the dictionary: one uid comes before another if and only if it is a proper prefix or has the smaller character at the first difference |
| `RbTree.RuleHead.Insert` | include/tree.h:580-609 | a new key: the ordered sequence gains exactly the element, at its place, and every red-black condition holds again; a present key: the existing node is returned and nothing changes |
| `RbTree.RuleHead.InsertColor` | include/tree.h:391-433 | from a tree whose only flaw is a red node under a red one, the loop ends in a red-black tree with the same in-order sequence |
| `RbTree.RuleHead.InsertColorLeft` | include/tree.h:397-413 | one turn with the parent a left child: the sequence is kept, at most the same kind of flaw is left at the next focus, and the measure of the climb decreases |
| `RbTree.RuleHead.InsertColorRight` | include/tree.h:397-430 | the mirrored turn with the parent a right child |
| `RbTree.RuleHead.RecolorLeft` | include/tree.h:399-405 | red uncle: memory spells out the recoloured subtree at the grandparent |
| `RbTree.RuleHead.RecolorRight` | include/tree.h:415-421 | the mirrored recolouring |
| `RbTree.RuleHead.StraightenLeft` | include/tree.h:406-413 | black uncle: the one or two rotations leave exactly the turned subtree in memory |
| `RbTree.RuleHead.StraightenRight` | include/tree.h:422-429 | the mirrored rotations |
| `RbTree.RuleHead.Remove` | include/tree.h:513-578 | exactly the given node leaves, the other nodes keep their order, and the tree is red-black again |
| `RbTree.RuleHead.RemoveColor` | include/tree.h:435-511 | from a tree whose only flaw is one missing black node at the focus, the loop ends in a red-black tree with the same sequence |
| `RbTree.RuleHead.RemoveColorLeft` | include/tree.h:441-473 | one turn with the focus a left child: the flaw moves up or disappears; every field read, the sibling's included, exists |
| `RbTree.RuleHead.RemoveColorRight` | include/tree.h:474-506 | the mirrored turn |
| `RbTree.RuleHead.LowerLeft` | include/tree.h:442-447 | a red right sibling is rotated above the parent, and the new sibling is returned |
| `RbTree.RuleHead.LowerRight` | include/tree.h:475-480 | the mirrored case |
| `RbTree.RuleHead.FillLeft` | include/tree.h:455-470 | a black right sibling with a red child: the rotations leave the refilled subtree in memory |
| `RbTree.RuleHead.FillRight` | include/tree.h:488-503 | the mirrored case |
| `RbTree.RuleHead.OuterLeft` | include/tree.h:456-465 | the inner red child of a right sibling is rotated above it |
| `RbTree.RuleHead.OuterRight` | include/tree.h:489-498 | the mirrored case |
| `RbTree.RuleHead.RefillLeft` | include/tree.h:466-470 | the last recolouring and rotation bring the missing black node |
| `RbTree.RuleHead.RefillRight` | include/tree.h:499-503 | the mirrored case |
| `RbTree.RuleHead.TurnSiblingRed` | include/tree.h:452-454 | a black sibling without red children turns red |
| `RbTree.RuleHead.SwapOut` | include/tree.h:522-561 | a node with two children: its successor takes its place, fields and colour, and what is left to repair is the successor's old place |
| `RbTree.RuleHead.Unlink` | include/tree.h:530-539 | field by field: the child takes the element's place below the parent or the head |
| `RbTree.RuleHead.Splice` | include/tree.h:562-573 | a node with at most one child leaves the tree in memory, the child hanging in its place |
| `RbTree.RuleHead.Copy` | include/tree.h:542-553 | field by field: the element receives the old node's links and its neighbours point to it |
| `RbTree.RuleHead.Replace` | include/tree.h:542-553 | in memory, exactly the rule at the focus is replaced |
| `RbTree.RuleHead.TurnLeft` | include/tree.h:336-354 | a left rotation, field by field, for every combination of absent neighbours |
| `RbTree.RuleHead.RotateLeft` | include/tree.h:336-354 | after it memory spells out the rotated subtree in the same place of the same tree, parent links included |
| `RbTree.RuleHead.TurnRight` | include/tree.h:356-374 | a right rotation, field by field |
| `RbTree.RuleHead.RotateRight` | include/tree.h:356-374 | after it memory spells out the rotated subtree in the same place |
| `RbTree.RuleHead.Attach` | include/tree.h:598-606 | the new red leaf hangs in the hole where the search ended |
| `RbTree.RuleHead.HangLeaf` | include/tree.h:598-606 | field by field: the element becomes a red leaf below the parent or the head, and no other link changes |
| `RbTree.RuleHead.Find` | include/tree.h:611-627 | returns the node with the key exactly if there is one, after n steps with 2^n <= (size+1)^2 |
| `RbTree.RuleHead.PathBound` | include/tree.h:47-55 | a path no longer than the height has at most 2 lg(n+1) nodes |
| `RbTree.RuleHead.Next` | include/tree.h:629-649 | the node after the one at position k of the ordered sequence, null after the last |
| `RbTree.RuleHead.Ascend` | include/tree.h:637-647 | without a right child the climb through the parent links ends at the in-order successor |
| `RbTree.RuleHead.Descend` | include/tree.h:633-636 | the walk to the left ends at the first node of the subtree |
| `RbTree.RuleHead.MinMax` | include/tree.h:651-664 | the first or the last node of the ordered sequence, null for an empty tree |
| `RbRepair.GrandparentExists` | include/tree.h:395-398 | whenever the insert loop reads the grandparent, there is one |
| `RbRepair.SiblingExists` | include/tree.h:441-443 | a focus that lacks a black node has a sibling, so the remove loop never dereferences a missing one |
| `RbRepair.RecoloredFlaw` | include/tree.h:400-404 | recolouring moves the flaw to the grandparent and raises the black height there by one |
| `RbRepair.RecoloredWhole` | include/tree.h:400-404 | recolouring keeps the in-order sequence |
| `RbRepair.TurnedOk` | include/tree.h:406-413 | with a black uncle the rotations leave a black subtree without any flaw |
| `RbRepair.TurnedWhole` | include/tree.h:406-413 | and keep the in-order sequence |
| `RbRepair.InsertDone` | include/tree.h:432-433 | painting the root black after the insert loop gives a red-black tree |
| `RbRepair.LoweredFlaw` | include/tree.h:443-447 | rotating a red sibling away keeps the flaw as it is and makes the sibling black |
| `RbRepair.SiblingRedFlaw` | include/tree.h:448-454 | painting the sibling red moves the missing black node one level up |
| `RbRepair.OuterRedOk` | include/tree.h:456-465 | rotating the inner red child outwards keeps heights, order and colours below the parent |
| `RbRepair.RefilledOk` | include/tree.h:466-472 | the last rotation leaves a red-black tree with the same sequence |
| `RbRepair.RemoveDone` | include/tree.h:509-511 | painting the focus black after the remove loop gives a red-black tree |
| `RbRepair.SplicedFlaw` | include/tree.h:562-576 | taking out a red node leaves no flaw, a black one exactly one missing black node |
| `RbSearch.SearchMiss` | include/tree.h:617-626 | a search that ends in an empty place has excluded every key of the tree |
| `RbSearch.RemovalPoint` | include/tree.h:513-578 | the node at the focus sits at one position of the ordered sequence, and deleting it keeps the order |
| `RbSearch.ReplacedWhole` | include/tree.h:522-553 | putting the successor in the removed node's place deletes exactly that node from the sequence |
| `RbShape.HeightBound` | include/tree.h:47-55 | 2^height <= (n+1)^2 for every red-black tree |
| `RbShape.BlackHeightBounds` | include/tree.h:47-55 | a tree of black height h is at most 2h+1 high and holds at least 2^h - 1 nodes |
| `RbShape.UnplugRedBlack` | include/tree.h:47-55 | the conditions on the whole tree give those on any subtree and on its surroundings |
| `RbShape.PlugRedBlack` | include/tree.h:47-55 | and conversely |
| `Sha1Stream.Digest` | lib/sha1.c:198-261 | for every message and every way of cutting it into calls of less than 2^29 bytes, the digest is the one of section 4 and 7 of FIPS 180-1 for the whole message |
| `Sha1Stream.Process` | lib/sha1.c:41-196 | one call computes the compression of section 7 of FIPS 180-1 for every state and block, on words of 64 bits whose low halves alone matter |
| `Sha1Stream.FiveRounds` | lib/sha1.c:72-187 | five rounds with renamed variables equal five rounds with shifted registers |
| `Sha1Stream.TwentyRounds` | lib/sha1.c:83-187 | the same for the twenty rounds of one choice of the macros F and K |
| `Sha1Stream.P` | lib/sha1.c:72-75 | the macro that changes two variables is one round of section 7, read in another order |
| `Sha1Stream.NextWord` | lib/sha1.c:65-70 | the 16-word circular array always delivers word t of the 80-word schedule (section 8 against section 7 of FIPS 180-1) |
| `Sha1Stream.LowTemp` | lib/sha1.c:74 | the sum of five wide words agrees with the 32-bit sum in its low half, whatever the high halves |
| `Sha1Stream.LowRotate` | lib/sha1.c:63 | so do the three shifts, although they leave garbage in the high half |
| `Sha1Stream.LowF` | lib/sha1.c:72-75 | so do the rewritten logical functions, which equal those of section 5 of FIPS 180-1 |
| `Sha1Stream.Context.constructor` | lib/sha1.c:29-39 | the initial state of section 7 and an exact counter of zero |
| `Sha1Stream.Context.Update` | lib/sha1.c:198-232 | after any call the registers hold the complete blocks of the extended message and the buffer its rest; the counter stays exact exactly when the carry is seen |
| `Sha1Stream.Context.Finish` | lib/sha1.c:241-261 | the digest of the message followed by the padding that the counter words describe |
| `Sha1Stream.FillBuffer` | lib/sha1.c:215-221 | completing the buffered block processes exactly that block |
| `Sha1Stream.TakeBlocks` | lib/sha1.c:223-227 | the loop processes exactly the whole blocks of the input |
| `Sha1Stream.KeepRest` | lib/sha1.c:229-231 | the rest of the input is kept behind what the buffer held |
| `Sha1Stream.HighCount` | lib/sha1.c:209-213 | the two-word counter stays the bit length modulo 2^64 if and only if the comparison on line 213 sees the carry |
| `Sha1Stream.SmallPiece` | lib/sha1.c:209-213 | below 2^29 bytes it always does |
| `Sha1Stream.LargePieceMiscounts` | lib/sha1.c:209-213 | a first piece of 2^29 bytes counts one carry too many |
| `Sha1Stream.ExactPadding` | lib/sha1.c:247-254 | an exact counter gives the padding of section 4 of FIPS 180-1 |
| `Sha1Stream.WrongPadding` | lib/sha1.c:247-254 | a counter that is off gives a different padded message |
| `Sha1Answers.AbcDigest` | lib/sha1.c:41-261 | the definition that the code refines gives the digest printed in appendix A of FIPS 180-1 for abc |
| `Sha1Answers.LettersDigest` | lib/sha1.c:41-261 | and the digest of appendix B for the message of 56 letters, which is padded to two blocks |
| `Sha1Answers.BytesOfPack` | lib/sha1.c:46-61 | a word packed from four bytes gives these bytes back in their order |
| `Sha1Answers.PackBytesOf` | lib/sha1.c:46-61 | and the bytes of a word pack to the word |
| `Sha1Answers.RootConstants` | lib/sha1.c:83-187 | the four constants are the integer parts of 2^30 times the square roots of 2, 3, 5 and 10 |
| `RwLock.MutualExclusion` | lib/rdwr.c:29-97 | in every reachable state a thread that writes overlaps no other thread's reading or writing, nested read locks and failing unlocks included |
| `RwLock.SignalReachesWriter` | lib/rdwr.c:71-72 | the single signal meets sleeping writers only, so if anybody sleeps it wakes a writer |
| `RwLock.NoLostWakeup` | lib/rdwr.c:29-97 | a free lock with sleepers and a free mutex always has a woken thread |
| `RwLock.NoDeadlock` | lib/rdwr.c:29-97 | if no thread can move, all are outside or asleep; sleepers imply a thread that has the lock, and one outside unless a sleeper itself has it |
| `RwLock.RunKeepsInv` | lib/rdwr.c:29-97 | every run of any number of threads calling any operation in any order, with spurious wake-ups, keeps the invariant of counts, mutex and wait set, as long as an unlock by a thread without the lock finds its counter zero |
| `RwLock.StrayWriteUnlockBreaksExclusion` | lib/rdwr.c:80-97 | for any two threads, a run in which one without the lock calls the write unlock and both write at the same time |
| `RwLock.StrayReadUnlockBreaksExclusion` | lib/rdwr.c:60-78 | for any two threads, a run in which one without the lock calls the read unlock and a writer overlaps a reader |
| `RwLock.ExclusionCanFailIff` | lib/rdwr.c:60-97 | without that discipline two writers can overlap if and only if there are two threads, and a writer and a reader under the same condition |
| `LockCalls.ReadLock` | lib/rdwr.c:29-42 | an undisturbed read lock is taken at once if and only if nobody writes, and otherwise the thread ends asleep; nothing else changes |
| `LockCalls.WriteLock` | lib/rdwr.c:44-58 | an undisturbed write lock is taken at once if and only if nobody reads or writes |
| `LockCalls.ReadUnlock` | lib/rdwr.c:60-78 | an undisturbed read unlock gives up exactly one share and wakes sleepers if and only if it was the last |
| `LockCalls.WriteUnlock` | lib/rdwr.c:80-97 | an undisturbed write unlock ends the writing and wakes every sleeper |
| `LockCalls.FailingUnlock` | lib/rdwr.c:60-97 | an unlock that finds its counter zero changes nothing |
| `Pool.List.constructor` | server/pool.c:6-18 | an empty well-formed pool |
| `Pool.List.Add` | server/pool.c:161-181 | the list gains the item at its tail; links both ways, ends and size stay consistent |
| `Pool.List.Pop` | server/pool.c:20-42 | the last item leaves with null links, or null from an empty pool |
| `Pool.List.Remove` | server/pool.c:128-159 | exactly the given member leaves and the others keep their order, whether it is head, tail, both or in the middle; a detached item changes nothing but the size, so the pool stays consistent if and only if the item was in it |
| `Pool.List.Count` | server/pool.c:183-203 | the walk along the links counts the stored size |
| `Pool.Return` | server/pool.c:209-222 | one item moves from the active to the tail of the free pool and no other item moves; the active pool stays consistent if and only if the item was in it |
| `ThreadPool.EachItemInOnePlace` | server/tpool.c:146-257 | in every interleaving of any number of producers and workers each work item is in exactly one of free, active, a producer's hand or a worker's hand |
| `ThreadPool.EachJobRunsAtMostOnce` | server/tpool.c:334-455 | each accepted routine is queued, claimed by one worker, or in the log, exactly one of these, and the log holds nothing twice |
| `ThreadPool.WorkIsAttended` | server/tpool.c:334-366 | an active item never coexists with all workers asleep and no signal pending |
| `ThreadPool.SingleProducerIsSupplied` | server/tpool.c:210-235 | with one producer the lookup on line 233 always finds an item and the branch on line 222 is never taken |
| `ThreadPool.LookupCanFailIff` | server/tpool.c:210-235 | some run makes line 235 dereference null if and only if there are two producers and the queue may hold at least one item |
| `ThreadPool.StepPlaced` | server/tpool.c:146-257 | every step keeps every item in exactly one place, growth of the free pool included |
| `ThreadPool.StepTraced` | server/tpool.c:334-455 | every step keeps each job in at most one place and runs none a second time |
| `ThreadPool.StepAttended` | server/tpool.c:348-366 | every step keeps queued work attended |
| `WorkCalls.SubmitQueues` | server/tpool.c:174-257 | an undisturbed submission puts the routine at the end of the active pool in the last free item, after making new items if there was none, and wakes a sleeping worker |
| `WorkCalls.SubmitRefused` | server/tpool.c:174-197 | without a free item at the largest size it is turned away and both pools stay as they were |
| `WorkCalls.WorkerRuns` | server/tpool.c:340-441 | an undisturbed turn of a worker runs exactly the routine queued last and puts its item at the end of the free pool |
| `WorkCalls.WorkerSleeps` | server/tpool.c:340-366 | with nothing queued a worker goes to sleep |
| `BackendPool.NoSharedConnection` | lib/be_cpool.c:141-258 | in every interleaving of push, get and return no two threads have the same connection |
| `BackendPool.GetterWaitsForReturn` | lib/be_cpool.c:202-213 | a getter that waits for a connection's lock waits only for a thread finishing its return |
| `BackendPool.NoDeadlock` | lib/be_cpool.c:156-213 | the opposite lock orders of push and get cannot deadlock: when nothing can move, nobody is inside the code |
| `BackendPool.GetReturnsNamed` | lib/be_cpool.c:204-243 | what a get hands out has the requested name and is locked by the getter, in every reachable state |
| `BackendPool.ListOrderedByAcquisition` | lib/be_cpool.c:160-174 | the list has no duplicates and is ordered by last acquisition |
| `BackendPool.RunKeepsInv` | lib/be_cpool.c:141-258 | every run keeps the invariant that ties locks, status fields, list and owners together; testing for room and adding are separate steps |
| `BackendLimit.LimitCanBeExceededIff` | lib/be_cpool.c:71-174 | some run makes the pool larger than its maximum if and only if there are two threads and the maximum is positive, because the test on line 146 holds no lock |
| `BackendLimit.Adds` | lib/be_cpool.c:149-180 | a thread past the test adds its connection whatever the size is by then |
| `BackendPool.MoveToEndOrdered` | lib/be_cpool.c:215-235 | moving the acquired connection to the end keeps the order |
| `BackendCalls.GetSearches` | lib/be_cpool.c:202-241 | in every run: a get about to take a connection has passed every one before it in the list, and one that leaves with nothing has passed every connection of the list, each while it was active or of another name and within this call |
| `BackendCalls.GetFinds` | lib/be_cpool.c:202-241 | an undisturbed get hands out the first connection of the list that has the name and is free, if its lock is free, and nothing else changes |
| `BackendCalls.GetFindsNothing` | lib/be_cpool.c:202-241 | if no connection of that name is free it ends in the state it started from |
| `BackendCalls.WantedIsUnlocked` | lib/be_cpool.c:252-258 | if the first such connection is locked, its owner is one step from unlocking it |
| `BackendCalls.PushAdds` | lib/be_cpool.c:141-180 | an undisturbed push below the limit adds one connection of the name, last in the list, active and held by the caller; at the limit it changes nothing |
| `BackendCalls.ReturnFrees` | lib/be_cpool.c:252-258 | a return leaves the connection free and unlocked in its place, whoever has the pool lock |
| `BackendList.ConnectionList.constructor` | lib/be_cpool.c:115-129 | an empty well-formed list |
| `BackendList.ConnectionList.Append` | lib/be_cpool.c:166-174 | a new connection goes to the end of the doubly linked list |
| `BackendList.ConnectionList.MoveToEnd` | lib/be_cpool.c:221-235 | exactly the acquired connection goes to the end, the others keep their order, and the links are well-formed both ways |
| `BackendList.ConnectionList.Unlink` | lib/be_cpool.c:223-229 | a connection that is not the last leaves the chain, from the head or from the middle |
| `PoolViews.WithoutIsDrop` | lib/be_cpool.c:221-235 | under any naming of its items, moving one of the linked list to the end does to the names what the pool's step does to its sequence |
| `PoolViews.Acquire` | lib/be_cpool.c:221-235 | relinking the acquired connection is the step of the connection pool, seen in the names |
| `PoolViews.Link` | lib/be_cpool.c:166-174 | linking a new connection is the step that appends it |
| `PoolViews.Take` | server/pool.c:20-42 | popping from the linked pool takes and leaves what the step of the worker pool takes and leaves, or finds both empty |
| `BcondRuns.RunEvaluates` | lib/bcond.c:791-856 | after any run of documented definitions and for any plugins every entry evaluates to exactly what its own text says, result codes included, the names in it resolved among the entries accepted before it; and to the truth of its text where plugins only grant or deny |
| `BcondEval.TextMeansVerdict` | lib/bcond.c:300-318 | for every table built by bcdef_add and any plugins, adding the text of any documented condition succeeds if and only if its names are defined, and the result evaluates to exactly what the text says |
| `BcondEval.TextMeansTruth` | lib/bcond.c:300-318 | where plugins only grant or deny that is the Boolean meaning of the text |
| `BcondEval.EvalSays` | lib/bcond.c:636-698 | for any plugins the verdict on a translation is v if and only if the condition says v: a negation swaps success and denial and passes other codes on, a conjunction says what its first part that is no success says, a disjunction what its last part says if none succeeds |
| `BcondEval.CodeWasAnswered` | lib/bcond.c:636-698 | a verdict that is neither success nor denial is one that some plugin answered |
| `BcondEval.AndStops` | lib/bcond.c:665-677 | the verdict of a conjunction in terms of its parts |
| `BcondEval.OrStops` | lib/bcond.c:679-687 | the verdict of a disjunction in terms of its parts |
| `BcondMeaning.SaysMeaning` | lib/bcond.c:636-698 | where every name succeeds or denies, what a condition says is its Boolean meaning |
| `BcondMeaning.SaysSame` | lib/bcond.c:636-698 | what a condition says depends on the names in it alone |
| `BcondEval.EvalIsMeaning` | lib/bcond.c:636-698 | with plugins that only grant or deny, the short-circuiting verdict is the Boolean meaning of the condition |
| `BcondEval.EvalTwoValued` | lib/bcond.c:636-698 | with such plugins every verdict is one of the two |
| `BcondEval.TranslatesCond` | lib/bcond.c:397-482 | a documented condition is translated if and only if every name in it is defined, and then faithfully; it never crashes |
| `BcondEval.TextReads` | lib/bcond.c:328-383 | the canonical text of a documented condition parses to its tree |
| `BcondEval.AddsCond` | lib/bcond.c:791-856 | what such a text adds: one entry under the given or made-up name, or a nameless reference, or nothing; earlier entries keep name and meaning |
| `BcondRuns.AddsSpec` | lib/bcond.c:45-78 | a plugin specification becomes a definition if and only if its plugin is known |
| `BcondEval.Evaluate` | lib/bcond.c:636-698 | the recursive evaluation with its two loops terminates, by table position and then expression, and computes the verdict |
| `BcondEval.SaneIsFounded` | lib/bcond.c:417-432 | in every such table references point to strictly earlier definitions |
| `Bcond.AddKeepsSane` | lib/bcond.c:791-856 | whatever text is added, each reference points to a strictly earlier definition, the first of its name, which records it among its users |
| `Bcond.RunSane` | lib/bcond.c:791-856 | so does any run of additions |
| `Bcond.ReferencedIsKept` | lib/bcond.c:868-879 | in every table built by any additions, deletion refuses whatever a live expression refers to |
| `Bcond.RemovableIff` | lib/bcond.c:868-879 | deletion goes ahead for a position if and only if it is the first definition of the name and has neither users nor rules |
| `Bcond.TranslatedOk` | lib/bcond.c:397-482 | translation changes nothing but the users lists, which only grow, and records every reference it makes |
| `Bcond.ParseCondIff` | lib/bcond.c:328-383 | the condition parser accepts exactly the texts of the plain S-expression parser whose lists begin with a keyword, as the same tree |
| `Bcond.ParseBcexp` | lib/bcond.c:328-383 | the cursor-advancing recursion and loop read what the grammar says and leave the cursor behind it |
| `Bcond.ParseCondBeyondIff` | lib/bcond.c:328-383 | the condition parser reads beyond its text if and only if the text is empty |
| `Bcond.Conditions.constructor` | lib/bcond.c:185-193 | an empty table |
| `Bcond.Conditions.FindDef` | lib/bcond.c:199-207 | the first definition of that name, or none |
| `Bcond.Conditions.Translate` | lib/bcond.c:397-482 | the expression, the new users and the refusals of the recursive translation, the null dereference on an empty list included |
| `Bcond.Conditions.Add` | lib/bcond.c:791-856 | the whole new table and the result for every text and name |
| `BcondFaults.RefusedUnchangedIff` | lib/bcond.c:397-482 | a condition with an undefined name leaves the table as it was if and only if its leftmost name is undefined |
| `BcondFaults.RefusedLeavesUser` | lib/bcond.c:417-443 | otherwise the definition of the leftmost name counts as used from then on and is refused deletion |
| `BcondFaults.AddCrashesIff` | lib/bcond.c:397-482 | for conditions whose parts may be empty lists, adding dereferences null if and only if an empty list comes before the first undefined name in reading order, and refuses if and only if an undefined name comes first |
| `BcondFaults.EmptyListCrashes` | lib/bcond.c:791-812 | the text () does it for every table |
| `BcondFaults.FullNeverCrashes` | lib/bcond.c:397-482 | a tree without empty lists never does, for any table and plugins |
| `BcondFaults.CrashNeedsEmptyList` | lib/bcond.c:791-812 | so every text that crashes an addition parses to a tree with an empty list in it |
| `BcondFaults.DelCrashesIff` | lib/bcond.c:868-879 | deletion dereferences null if and only if no definition has the name |
| `BcondFaults.LongNotRefused` | lib/bcond.c:463-465 | a negation of more than one part is refused and leaves the table as it was |
| `BcondFaults.LongRefIsRef` | lib/bcond.c:417-432 | a reference with further parts does what the reference to its first part does |
| `BcondFaults.BareKeywordRefused` | lib/bcond.c:397-416 | a list that holds a keyword alone is refused |
| `BcondFaults.AnonymousName` | lib/bcond.c:819-822 | every anonymous list definition is named after the text behind the list, so all that end their text share one name |
| `BcondFaults.AnonymousFoundIff` | lib/bcond.c:819-822 | such a definition is found under its name if and only if no earlier one has that name |
| `BcondFaults.AnonymousCollide` | lib/bcond.c:819-822 | of two that end their texts alike the second is found under no name at all |
| `Sexp.ParsePrinted` | server/read.c:34-73 | parsing the canonical form of any tree with non-empty atoms gives the tree back and leaves the text behind it untouched |
| `Sexp.PrefixFree` | doc/intro.html:119-135 | no tree's canonical form is a proper prefix of another's, and equal forms are equal trees |
| `Sexp.AcceptedReprints` | server/read.c:34-73 | whatever the parser accepts, reprinted canonically, is read the same way again |
| `Spelling.ParsesIff` | server/read.c:34-73 | a text is accepted as a tree and a rest if and only if it is a spelling of the tree followed by the rest: every atom whole behind its length in some digits, every list closed |
| `Spelling.CutOffRefused` | server/read.c:34-73 | a spelling cut off anywhere is refused |
| `Spelling.UnclosedRefused` | server/read.c:34-73 | so is a list that is never closed |
| `Spelling.CanonicalSpells` | server/read.c:34-73 | the canonical form is one of the spellings |
| `Spelling.CondParsesIff` | lib/bcond.c:328-383 | the condition parser accepts exactly the spellings of trees whose lists begin with a keyword |
| `Spelling.DocumentedForm` | doc/intro.html:144-146 | the canonical form of the documentation's example, character by character |
| `Spelling.ConditionForm` | lib/bcond.c:397-482 | the canonical texts of the four operators, keyword by keyword |
| `Sexp.ParseSexp` | server/read.c:34-73 | the cursor-advancing recursion and loop compute the parse and leave the cursor behind it; the error cases are those of the code |
| `Sexp.WrittenIff` | server/read.c:94-117 | the printer writes the canonical form if and only if every atom is below 10^6 bytes and has only NULs after its first NUL |
| `Sexp.WrittenParses` | server/read.c:34-117 | for such trees what the printer wrote is parsed back to the tree |
| `Sexp.Length` | server/read.c:75-92 | exactly the number of bytes the printer advances over, for every tree |
| `Sexp.Recreate` | server/read.c:94-117 | the recursion through a moving position leaves exactly those bytes and keeps the bytes before them, in a buffer that may end right behind them; a bare empty atom alone needs a byte more |
| `Sexp.Reprint` | util/adv2can.c:587-597 | a buffer of exactly length_sexp bytes takes what recreate_sexp writes, for every tree but a bare empty atom |
| `Sexp.PutField` | server/read.c:98-112 | a sprintf whose terminator falls behind the counted bytes adds exactly those bytes |
| `Sexp.PutCopy` | server/read.c:113-115 | the copied atom ends where the next output starts |
| `Sexp.ParseBeyondIff` | server/read.c:34-73 | the parser reads beyond its text if and only if the text is empty |
| `Sexp.RecreateAtom` | server/read.c:108-115 | the atom branch, with what sprintf, DIGITS and strncpy really do |
| `Sexp.Strncpy` | server/read.c:113 | copies up to the first NUL and pads with NULs |
| `Octets.GetLen` | doc/intro.html:132-134 | get_len of lib/sexp.c: the value and the length of the leading digits |
| `Octets.GetStr` | server/read.c:66-69 | get_str of lib/sexp.c as its callers use it: the string and the cursor behind it, the error, which is a missing character in every case, or, if and only if the text is empty, a success with a wrapped length |
| `Octets.TakeEncoded` | doc/intro.html:119-130 | a length-prefixed string is taken back exactly |
| `Octets.TakenIff` | server/read.c:66-69 | a string is taken if and only if digits, a colon and as many bytes as the digits say stand in front of the rest |
| `Decimal.DigitsExactIff` | include/macros.h:4 | the six-digit macro is exact if and only if the number is below 10^6 |
| `Decimal.PrintValue` | doc/intro.html:122-134 | reading back a printed number gives the number |
| `Chunks.ConvertedTree` | lib/parse.c:701-764 | the token list of any list whose atoms are not parentheses converts to the canonical form of the tree with its escapes decoded, which is the tree itself if there are none; the tokens behind it play no part |
| `Chunks.ConvertedParses` | lib/parse.c:701-764 | and the plain parser reads that form as the decoded tree |
| `Chunks.StopsAtMatch` | lib/parse.c:672-691 | the depth counter stops exactly at the matching parenthesis, whatever follows |
| `Chunks.ReachPast` | lib/parse.c:720-734 | a tree inside a list leaves the counter as it was, and the loop does not stop within it |
| `Chunks.RoomsIff` | lib/parse.c:719-734 | without escapes the first pass counts at most what the second writes, and exactly that if and only if every token is below 10^6 bytes |
| `Chunks.ShortTokensFit` | lib/parse.c:719-756 | with escapes or without, tokens below 10^6 bytes fit the buffer that the first pass measured |
| `Chunks.PlainlyBare` | lib/parse.c:747-749 | decoding changes no tree without backslashes and empties no atom |
| `Chunks.Decoded` | lib/parse.c:747-749 | an atom is decoded in place if it has a backslash |
| `Escapes.UnescapedEscaped` | lib/parse.c:747-749 | decoding (oct_de_escape of lib/oct.c) undoes the doubling of every backslash, for every text |
| `Escapes.UnescapedPlain` | lib/parse.c:747-749 | decoding leaves a text without backslashes as it is |
| `Escapes.UnescapedSpelt` | lib/parse.c:747-749 | decoding gives the text back whichever way each character is written: as itself, a backslash doubled, or any byte as a backslash and two hexadecimal digits of either case |
| `Escapes.UnescapedCut` | lib/parse.c:747-749 | an escape that is cut off leaves the old length, the decoded text in front and the old bytes behind it |
| `Escapes.DeEscape` | lib/parse.c:744-749 | the two-pointer loop of oct_de_escape leaves the decoded text in place, and stops where an escape is cut off |
| `Chunks.ChunkToSexp` | lib/parse.c:701-764 | the two loops over the linked chunks, escapes decoded, and the null results for an empty list, a wrong start and a list that never closes |
| `Chunks.Measure` | lib/parse.c:719-734 | succeeds exactly if the list closes its first parenthesis, and then counts the tokens up to there |
| `Chunks.Fill` | lib/parse.c:740-758 | the second pass writes the converted tokens within the buffer |
| `Chunks.GetSexp` | lib/parse.c:672-691 | takes the tokens up to the closing parenthesis, hangs them behind the given chunk linked both ways, and leaves the rest |
| `Chunks.ChunkAdd` | lib/parse.c:652-662 | links the new chunk behind the last one |
| `Chunks.ConvertedTaken` | lib/parse.c:783-801 | the tokens that the reader takes decide the conversion, although it starts one level too deep |
| `Chunks.Normalize` | lib/parse.c:815-825 | reading and converting compose to the conversion of the token list |
| `IoBuf.ClosedMessagesRead` | server/iobuf.c:75-94 | after any run of adds and length tags from a new buffer in which no tag writes through a dangling pointer, overflowing calls included, a length-value reader of the closed part recovers exactly the closed messages |
| `IoBuf.RunFramed` | server/iobuf.c:75-94 | in such runs the contents are always the frames of the closed messages followed by the open one |
| `IoBuf.TagDanglesIff` | server/iobuf.c:56-94 | a tag can write through a dangling pointer if and only if it is longer than the space left and the buffer may grow |
| `IoBuf.TagCanDangle` | server/iobuf.c:56-94 | a buffer of 1024 bytes with a message of 1023 does it when the reallocation moves the block |
| `IoBuf.RoomyRunIsGood` | server/iobuf.c:75-94 | a run that starts with room for all it adds and seven bytes for each tag never does, whatever the allocator does |
| `IoBuf.InsertDanglesIff` | server/iobuf.c:48-73 | an insertion can if and only if it has to grow the buffer and may, or is given a place outside the text and fits |
| `IoBuf.FramesRead` | doc/draft-hedberg-spocp-tcp-00.html:155-165 | a length-value reader recovers exactly the messages from their frames |
| `IoBuf.ServerReadsIff` | doc/intro.html:130-131 | the server's own reader recovers a frame if and only if its message is not empty |
| `IoBuf.RunSound` | server/iobuf.c:48-345 | every run of operations from a new buffer that loses no write keeps the text, its terminator and the size within 262144 + 4095 bytes, marks left behind by shifts included |
| `IoBuf.StepSound` | server/iobuf.c:48-345 | every operation keeps the bounds, and one that overflows changes nothing |
| `IoBuf.AppendIff` | server/iobuf.c:153-257 | appending succeeds exactly as long as text and terminator fit the present or the largest size |
| `IoBuf.Appends` | server/iobuf.c:218-332 | what a successful call appends: the characters before the first NUL; n characters, or none if the first is NUL; the length in decimal digits without a leading zero, a colon and the string, or nothing for an empty one |
| `IoBuf.WhiteIff` | server/iobuf.c:96-151 | white are the space and the codes 9 to 13 |
| `IoBuf.GrowsBy` | server/iobuf.c:153-216 | a positive increase is granted if and only if the sum stays within 262144, and then adds itself or 4096 bytes, whichever is more |
| `IoBuf.InsertIff` | server/iobuf.c:48-73 | inserting succeeds exactly if it fits, or if the whole insertion added to the present size stays within the largest |
| `IoBuf.OctetRoom` | server/iobuf.c:300-315 | no octet string long enough to break the six-digit macro or the eight-byte length field gets past the size check |
| `IoBuf.ShiftKeepsUnread` | server/iobuf.c:96-151 | shifting drops read text and leading whitespace and nothing else |
| `IoBuf.ShiftMarkIff` | server/iobuf.c:96-151 | after a shift the message mark still marks the same byte if and only if it stood halfway between the first unread character that is not white and the end, or, in a buffer with nothing else unread, at the end |
| `IoBuf.ShiftStraysIff` | server/iobuf.c:96-151 | the mark stays within the text if and only if nothing is left or it stood between that character and the end |
| `IoBuf.GrowthBoundIff` | server/iobuf.c:153-216 | growing always makes the buffer larger, and keeps it within 262144 + 4095 bytes if and only if the increase is positive or the default step stays within the maximum |
| `IoBuf.Buffer.constructor` | server/iobuf.c:17-36 | an empty, terminated buffer of any positive size, sound if the size is within the bound |
| `IoBuf.Buffer.Resize` | server/iobuf.c:153-216 | for any increase, 0 included, the contents and offsets survive the growth, or overflow and nothing changes; used + left + 1 = size |
| `IoBuf.Buffer.Add` | server/iobuf.c:218-257 | appends the C string or leaves everything as it was |
| `IoBuf.Buffer.AddN` | server/iobuf.c:259-285 | appends n bytes, or nothing, successfully, if the first one is NUL |
| `IoBuf.Buffer.AddOctet` | server/iobuf.c:287-332 | appends the length-prefixed octet string exactly, or leaves everything as it was |
| `IoBuf.Buffer.InsertAt` | server/iobuf.c:48-73 | moves the tail up and copies into the gap, offsets unadjusted; if the growth moved the block the caller's place is lost and the text stays as it was |
| `IoBuf.Buffer.AddLenTag` | server/iobuf.c:75-94 | closes the message with its length in front, or overflows and leaves everything as it was, or dangles after a growth that moved the block |
| `IoBuf.Buffer.ShiftText` | server/iobuf.c:96-151 | moves the unread text to the front |
| `IoBuf.Buffer.FlushText` | server/iobuf.c:334-345 | empties the buffer |
| `JenkinsHash.MixBijective` | lib/hashfunc.c:19-47 | the mixer has a two-sided inverse, so it is a bijection on triples of words |
| `JenkinsHash.MixWords` | lib/hashfunc.c:36-47 | the straight-line updates compute the mixer |
| `JenkinsHash.BlockDifferenceReaches` | lib/hashfunc.c:96-143 | two keys of equal length that differ only inside one 12-byte block reach different final registers, whatever the number of blocks |
| `JenkinsHash.TailDifferenceReaches` | lib/hashfunc.c:111-143 | two keys of equal length that differ only in the tail reach different final registers |
| `JenkinsHash.InitialDifferenceReaches` | lib/hashfunc.c:91-143 | different initial values reach different final registers for the same key |
| `JenkinsHash.AddTail` | lib/hashfunc.c:112-142 | the fall-through switch adds the padded tail words and the length |
| `JenkinsHash.Hash` | lib/hashfunc.c:83-147 | the loop and the switch compute the fold over blocks and tail |
| `HashAnswer.EmptyKeyHash` | lib/hashfunc.c:83-147 | the registers for the empty key and initial value 0, the hash being 0xBD49D10D |
| `HashAnswer.GoldenRatio` | lib/hashfunc.c:91 | the initial constant is the integer part of 2^32 times (sqrt 5 - 1)/2 |
| `HashAnswer.ShrDivides` | lib/hashfunc.c:36-47 | a shift to the right divides by the power of two |
| `HashAnswer.ShlMultiplies` | lib/hashfunc.c:36-47 | a shift to the left multiplies by it modulo 2^32 |
| `HashAnswer.XorBitAt` | lib/hashfunc.c:36-47 | a bit of an exclusive or is set if and only if exactly one of the two bits is |
| `HashAnswer.PackBytes` | lib/hashfunc.c:97-105 | a word holds its four bytes, the first one lowest |

## Left out

- Sockets, TLS, SASL, the select loop, dynamic loading, logging, configuration and the backends: I/O and foreign calls.
- The rule-matching engine and the comparison in server/cmp.c.
- Plugin code: a plugin is a function from its name and argument to a verdict; result codes other than success and denial are kept apart but not named.
- tpool blocking mode, tpool_destroy, shutdown, and max_queue_size as a bound on allocated items.
- ThreadPool: each critical section is one step, so instructions inside a section are not interleaved; reads of the queue size outside the lock do not occur in the modelled mode.
- BackendPool: reading and writing a status field is one step; becon_rm and becpool_rm are not modelled; `last` is the order of acquisition, not a clock.
- RwLock: initialisation and destruction of the lock.
- Pool.List.Remove: an item that is linked into some other list, whose neighbours the code would relink.
- Pool.Return: the same, the free pool included; and a null pair of pools, for which the code does nothing.
- bcdef_replace, the unlinking half of bcdef_del, rules attached to definitions by other modules, blob collection and the persistent store.
- Bcond: SHA-1 names are an arbitrary function of the text; a bcdef_add that crashes is followed by no other call in the server, which the runs allow.
- Sexp.Recreate: a bare empty atom needs one byte behind the output, for the terminator that `sprintf` writes; the source's parsers never make one.
- Octets.GetStr: the digits are read as an unbounded number, so the overflow of a C `int` on lengths of 2^31 and more is not modelled; the byte after a text is taken to be NUL.
- Chunks.ChunkToSexp: what is written must fit what the first pass measured, as it does for tokens below 10^6 bytes (`Chunks.ShortTokensFit`); beyond, the second pass overruns the buffer (`Chunks.RoomsIff`). The chunks themselves keep their escaped texts.
- Chunks.Normalize: the same condition on the tokens.
- Escapes: characters are codes from 0 to 255, so the sign of a C `char` does not show.
- Chunks.GetSexp: the tokenizer get_chunk, with get_base64, get_hex, get_quote and get_token, is a supply of tokens that ends where get_chunk returns null.
- IoBuf.Buffer.InsertAt: the byte after the text is not said to be NUL, and what a write through a dangling pointer destroys is not modelled.
- IoBuf.Buffer.constructor: a size of 0, for which the source writes its terminator outside the block; every caller passes at least 512.
- The direct writes of server/conn.c into a buffer, except the advance of the read position.
- JenkinsHash.Hash: keys are shorter than 2^32 bytes, as the type of the length parameter has it.
- Sha1Stream.Process: `unsigned long` is taken as 64 bits wide; the 32-bit case is the same with empty high halves.
- RuleStore.Remove: the removed node is not released, as in the source; strings are sequences of characters compared by code.
- The splay tree macros of include/tree.h, which nothing instantiates, and memory exhaustion everywhere.
