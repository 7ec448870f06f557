# OwnedC, modelled and proved in Dafny

OwnedC is a small C runtime that tracks who owns every heap block. This project models its hard
parts and proves what they promise: the reference-count cycle collector, the ownership registry with
its quarantine under any interleaving of threads, the JSON parser with roll-back, the channel and the
future that hand blocks between threads, the two bump allocators and the line stripper of the linter.
`dafny verify dfyconfig.toml` checks everything.

## How it is laid out

Each component has two layers. A layer of values (`RcModel`, `RegistryModel`, `BumpModel`,
`ChannelModel`, `FutureModel`, `JsonGrammar`) says what the operations compute, and the theorems are
about it. A layer of classes and in-place algorithms (`RcRuntime`, `Registry`, `BumpPools`, `Channel`,
`Future`, `JsonParser`, `LintStripper.PreprocessLine`) keeps the structures the code keeps: linked
lists with `next` and `prev` pointers, shard heads, the ring, bump offsets, the shared cursor and the
growing buffers. Every method there is proved to compute exactly the step of the value layer.

* Memory is a map from addresses to records that the methods update in place, and pointers are
  addresses. This is closer to the C code than Dafny objects would be: a block's shard is computed
  from its address, `realloc` moves a block, and a released address is handed out again. A released
  address is not in the map, so every dereference is proved to hit allocated memory.
* `HandOff` puts the channel and the future on the registry: their view of the live blocks is the
  registry's, and each of their steps on a block is the registry's step on it; `ChannelOnRegistry` and
  `FutureOnRegistry` run them together. `RcPinned` follows lost references through histories.
  `JsonErrors` and `JsonFirstError` say where a rejected text goes wrong, `JsonReader` that there is a
  number reader that keeps all their contracts.
* `RegistryEffects` and `ChannelEffects` write the effect of every step and of whole calls out field by
  field, from no more than the client has to see to, and prove that a call under way always gets on.
* Threads are state machines. A step is one critical section, or one call into the allocator or the
  task. A run is any sequence of steps of any number of threads; a step that is not enabled changes
  nothing, so a theorem about every sequence is one about every interleaving. The rules clients must
  keep, and the code does not check, are in the `Legal` predicates.
* The allocator may return any address that is not allocated at the moment, released ones included.
* A fatal report stops the thread that makes it. The C program ends there; the other threads of the
  model may go on, which only adds runs.

## The main results

* **Collector.** One collection frees exactly the registered objects that no root reaches, keeps the
  others in order and returns the number freed, on any graph, with cycles, self-edges and duplicate
  edges (`CollectCycles`). Over every history of clients, nothing reachable from a held handle is ever
  freed (`NothingHeldIsFreed`), and while every reference is a handle or a child slot a collection
  frees exactly what no handle reaches (`ExactCollection`). A reference in nobody's hands, because its handle
  was forgotten or its parent was freed, pins all it reaches until a client takes it up and drops it
  (`ExcessBalance`, `PinnedUntilTakenUp`).
* **Registry.** Each allocation is freed once, enters the quarantine once and is released at most once
  (`FreedOnce`); the lists hold what they should between any two steps (`RegistryShape`); a freed block
  stays quarantined exactly until 1024 further frees followed it (`SurvivesTheWindow`), and in between
  every further use of it is reported (`ReuseIsReported`). From every reachable state a thread's own steps
  bring its call to its end (`CallsEnd`), a free that passes the checks leaves its block FREED and last in
  the quarantine (`FreeCallEffect`), and the size in a header is always the one last asked for
  (`SizeIsRequested`).
* **JSON.** The texts accepted are exactly those of a written-out grammar, with the tree that the
  grammar gives them (`AcceptsExactlyTheGrammar`); every text of RFC 8259 is among them
  (`RfcTextIsAccepted`); a failing parse leaves memory as it was and a succeeding one adds the blocks
  of its tree (`Parse`), which `FreeTree` releases again. The error position is where the text goes
  wrong (`WrongAt`): what stands before it could go on.
* **Channel.** No wake-up is lost, messages arrive in order, each once, and the receiver ends up their
  OWNED owner, whatever the interleaving; a thread in a call gets on once the mutex is free or its own
  (`CallsGoOn`). Run together with the registry from its empty state, the
  channel makes only legal calls, and what is under way is published there (`ChannelOnRegistry`).
* **Future.** The awaiting thread gets the task's value, owned, and the future is freed only after the
  worker's last access; run together with the registry its calls are legal too (`FutureOnRegistry`).
* **Bump allocators.** The arena and the region place every non-empty request alike, wrap-around of
  `size_t` included. Over every run all ranges lie in the memory obtained for their blocks exactly when
  neither the rounding, nor a bump, nor header plus size wraps (`RunInsideIffNoWrap`), and then no two
  of them overlap (`RunSafe`). Each later block is opened by a request that did not fit, with the default
  size unless the rounded request is larger (`ArenaBlockSizes`, `RegionChunkSizes`).
* **Stripper.** Every line is code, string literals and comments, the last of which may be unclosed
  (`EveryLineIsWritten`); stripping keeps exactly the code and the quotes (`KeepsExactlyTheCode`), and its
  output is a fixpoint without comments.

Where the code does less than one might expect, the exact condition is proved: `CreateMirror` (the two
allocators start alike exactly from size 1024 on, or when creation fails), `AllocMirror` (the arena
serves requests of size zero, the region does not), `RoundUpLeast` and `InsideIffNoWrap` (wrap-around,
with `HeadersWrap` as an instance), `ExactKept` (counts stay exact unless a handle is forgotten or a
freed object leaves a child behind), `KeepsFaithful` (a claim of a borrowed block makes its state lie),
`FreeingPasses` (await may free the future exactly when at that moment nothing borrows it and it is
SHARED or owned by the awaiting thread), `FreeNodes` (freeing a channel stops exactly when the caller
does not own the node of some message in it). A sender between linking a message and signalling still
owes a wake-up, so the queue may be longer than the woken receivers by one while that sender holds the
mutex; `NoLostWakeup` says so and `BoundIsMet` reaches the bound in both situations. The character at a
JSON error position is one with which the text could not go on, except exactly where it begins a word,
or begins or continues a number that the reader could read on through (`MayGoOn`); `UnfinishedWord` is
an instance.

## Model

| member | source | states |
|---|---|---|
| RcModel.CollectTwice | src/ownedc_rc.c:94-141 | a second collection frees nothing: taking garbage away never makes more garbage |
| RcModel.AliveStays | src/ownedc_rc.c:94-141 | an object reachable from a root is still reachable from a root after the collection |
| RcModel.RootsStay | src/ownedc_rc.c:103-121 | every root, an object with more references than child slots pointing at it, stays a root |
| RcModel.InDegreeMinusExact | src/ownedc_rc.c:103-112 | taking objects out lowers no count of child slots when none of them points at the survivor |
| RcHistory.StepKeepsInv | src/ownedc_rc.c:24-141 | every client step keeps: counts are positive and cover held handles plus child slots, and no registered object has a freed child |
| RcHistory.HistoryInv | src/ownedc_rc.c:24-141 | the same in every state of every history that starts empty |
| RcHistory.NothingHeldIsFreed | src/ownedc_rc.c:48-73 | no drop or collection in any history frees an object reachable from a handle still held |
| RcHistory.LastHandle | src/ownedc_rc.c:48-73 | when the last reference is dropped no registered object has it as a child |
| RcHistory.CollectionSpares | src/ownedc_rc.c:94-141 | in every state a collection spares an object if and only if a held handle reaches it or an object with a reference in nobody's hands does |
| RcHistory.ExactCollection | src/ownedc_rc.c:94-141 | when every reference is a handle or a slot, an object survives a collection if and only if a held handle reaches it |
| RcHistory.ExactKept | src/ownedc_rc.c:24-141 | counts that are exact stay so through a step if and only if it forgets no handle, drops no last handle of an object with children, and collects no garbage with an alive child |
| RcPinned.ExcessBalance | src/ownedc_rc.c:24-141 | the references to an object in nobody's hands change exactly by the handles forgotten, the slots of freed parents and the references taken up again |
| RcPinned.OrphanHasExcess | src/ownedc_rc.c:48-138 | a child that outlives a freed parent, by a drop or a collection, gains an excess, since its slot is not dropped |
| RcPinned.ForgottenHasExcess | src/ownedc_rc.c:42-46 | so does the object of a handle that is lost |
| RcPinned.ReclaimThenDrop | src/ownedc_rc.c:62-69 | a client may drop such a reference by hand, as the code asks of the child of a freed parent, and then it is the code's drop |
| RcPinned.PinnedUntilTakenUp | src/ownedc_rc.c:48-141 | as long as fewer such references were taken up than there are, no drop or collection in any history frees the object or anything it reached, which it goes on reaching |
| RcRuntime.Runtime.RegisterInGc | src/ownedc_rc.c:8-11 | in front of a list l not holding it the object makes the list [rc] + l, and only its own link is written |
| RcRuntime.Runtime.UnregisterFromGc | src/ownedc_rc.c:13-22 | exactly that object leaves the list, the others keep their order |
| RcRuntime.Runtime.New | src/ownedc_rc.c:24-40 | a new object with count 1 and no children at the head of the list, or on failure the payload is freed and nothing else changes |
| RcRuntime.Runtime.Clone | src/ownedc_rc.c:42-46 | the count goes up by one and nothing else changes |
| RcRuntime.Runtime.Drop | src/ownedc_rc.c:48-73 | the count goes down by one; from one on the object leaves the list, and its payload, if any, and then its wrapper are freed; at zero nothing happens |
| RcRuntime.Runtime.RegisterChild | src/ownedc_rc.c:80-84 | the child is appended behind the others unless there are four already |
| RcRuntime.Runtime.CopyCounts | src/ownedc_rc.c:95-101 | every scratch count is the reference count and every mark is clear |
| RcRuntime.Runtime.SubtractChildren | src/ownedc_rc.c:103-112 | every scratch count is the reference count minus the child slots that hold the object, never below zero |
| RcRuntime.Runtime.MarkAlive | src/ownedc_rc.c:86-92 | marking from an object keeps marks inside the alive set and marks all children of what it marks |
| RcRuntime.Runtime.MarkRoots | src/ownedc_rc.c:114-121 | exactly the objects reachable from a positive scratch count are marked |
| RcRuntime.Runtime.Sweep | src/ownedc_rc.c:123-138 | walking a list while unlinking from it frees exactly the unmarked objects and counts them |
| RcRuntime.Runtime.CollectCycles | src/ownedc_rc.c:94-141 | frees exactly the objects no root reaches, in list order, keeps the survivors in order and returns the number freed |
| RcRuntime.ChainUnlink | src/ownedc_rc.c:13-22 | redirecting one link cuts exactly that node out of the chain |
| Ownership.KeepsFaithful | src/runtime.c:302-372 | BORROWED keeps meaning borrowed and not shared through every operation, through a claim if and only if nothing is borrowed |
| RegistryModel.StepKeepsSane | src/runtime.c:103-293 | every step of any thread keeps: lists, ring and block states agree, and every thread holds the block its program point says |
| RegistryModel.StepKeepsInv | src/runtime.c:103-372 | the same together with the history: allocations, wins, entries, releases and borrows |
| RegistryModel.RunInv | src/runtime.c:103-372 | all of it in every state of every run of any number of threads |
| RegistryRuns.EntryRotates | src/runtime.c:285-289 | one rotation of the ring: the new block is last, of a full ring the oldest block and no other is released, and no other block and no list changes |
| RegistryRuns.FreedOnce | src/runtime.c:246-293 | at most one call wins each allocation, each won block enters the quarantine at most once and is released at most once, in order of entry |
| RegistryRuns.FreedIsSomewhere | src/runtime.c:246-293 | a freed allocation is with the thread that won it, in the quarantine, or released; none is lost |
| RegistryRuns.WinnerTouchesAllocated | src/runtime.c:273-289 | until the winner has quarantined its block the block is allocated, FREED and no other winner's, and so are the neighbours it relinks |
| RegistryRuns.RegistryShape | src/runtime.c:90-131 | a block is in the list of its address's shard, once, and in no other, unless it is being inserted, moved or freed |
| RegistryRuns.RingIsTheLast | src/runtime.c:281-292 | the ring is the last min(n, 1024) of n entries, oldest first |
| RegistryRuns.EnteredGrows | src/runtime.c:281-292 | entries into the quarantine are never taken back or reordered |
| RegistryRuns.SurvivesTheWindow | src/runtime.c:285-289 | the k-th entry is quarantined if and only if fewer than 1024 entries followed it, and released otherwise |
| RegistryRuns.ReuseIsReported | src/runtime.c:221-261 | in any run, free, borrow, release and resize of a FREED block stop the thread with the matching report |
| RegistryRuns.BorrowsBalance | src/runtime.c:315-356 | the borrow count is the successful borrows minus the releases of that allocation, across resizing; FREED has none, BORROWED at least one |
| RegistryRuns.RunFaithful | src/runtime.c:302-372 | if blocks are claimed only without borrows, a live block is BORROWED exactly when it has a borrow and is not SHARED |
| RegistryRuns.Accounting | src/runtime.c:430-457 | at rest the lists hold allocations minus frees, none FREED, and the ring min(frees, 1024) |
| RegistryRuns.WalksAtRest | src/runtime.c:134-148 | at rest the counting walks find allocations minus frees active, none freed in the lists, and as leaks exactly the live OWNED or SHARED blocks |
| RegistryRuns.LiveSet | src/runtime.c:167-293 | how each step changes the set of live addresses, which is the heap the other components use |
| RegistryEffects.ShardIs | src/runtime.c:90-92 | there are 64 lists, and two addresses share one if and only if their sixteenths are equal modulo 64 |
| RegistryEffects.ShareEffect | src/runtime.c:358-372 | a share stops its thread as a foreign one if and only if another thread owns the block, and then changes no block; otherwise the header is the old one with state SHARED |
| RegistryEffects.ClaimEffect | src/runtime.c:302-313 | a claim sets owner and state and keeps size and borrows |
| RegistryEffects.BorrowEffect | src/runtime.c:315-338 | a borrow stops its thread if and only if the block is FREED, or another thread's and not SHARED; otherwise one borrow more, and BORROWED unless SHARED |
| RegistryEffects.ReleaseEffect | src/runtime.c:340-357 | a release stops its thread if and only if there is no borrow; otherwise one borrow less, and OWNED after the last of a BORROWED block |
| RegistryEffects.MallocEffect | src/runtime.c:167-198 | the new header: the size asked for, OWNED, no borrows, owned by the caller; no other block changes |
| RegistryEffects.InsertEffect | src/runtime.c:103-114 | the block becomes the first of the list of its address and no other list changes |
| RegistryEffects.FreeEffect | src/runtime.c:255-271 | a free stops its thread if and only if the block is FREED, or lent out, or another thread's and not SHARED, with that report; otherwise the block is FREED and the thread its winner |
| RegistryEffects.UnlinkEffect | src/runtime.c:279-279 | the list of its address loses a won block, and only that |
| RegistryEffects.QuarantineEffect | src/runtime.c:281-292 | the thread is idle and the block last in the ring; of 1024 there the oldest is taken out and given back |
| RegistryEffects.ReallocCheckEffect | src/runtime.c:216-227 | a resize stops its thread if and only if the block is FREED, or another thread's and not SHARED; otherwise it goes on with the size asked for |
| RegistryEffects.ReallocMoveEffect | src/runtime.c:231-236 | the header moves along with the new size and is otherwise the old one |
| RegistryEffects.Progress | src/runtime.c:167-293 | in every reachable state every thread with a call under way has a step, and it leads to the call's next point |
| RegistryEffects.CallsEnd | src/runtime.c:167-293 | from every reachable state a thread that is not stopped comes to the end of its call by its own steps, at most three |
| RegistryEffects.SizeIsRequested | src/runtime.c:183-236 | over every run the size of a block is that of the last successful request for the allocation, its malloc's or its last resize's |
| RegistryEffects.MallocCallEffect | src/runtime.c:167-198 | the whole allocation |
| RegistryEffects.FreeCallEffect | src/runtime.c:246-293 | a whole free of a block that passes the checks: the thread is idle, the block FREED, in no list, last in the quarantine and the last that entered it |
| RegistryEffects.ReallocCallEffect | src/runtime.c:209-239 | a whole resize that passes the checks, whether or not the allocator fails |
| Registry.DllPush | src/runtime.c:103-114 | linking a node in front keeps prev and next mutually inverse |
| Registry.DllCut | src/runtime.c:116-131 | relinking the two neighbours cuts exactly the k-th node and keeps prev and next mutually inverse |
| Registry.Runtime.InsertMeta | src/runtime.c:103-114 | the block becomes the first of the list of its shard, no other list changes |
| Registry.Runtime.RemoveMeta | src/runtime.c:116-131 | the block leaves its list, its pointers are cleared, no other list changes |
| Registry.Runtime.FillHeader | src/runtime.c:177-190 | a new block has the size asked for, is OWNED by the caller and has no borrows |
| Registry.Runtime.FreeDecide | src/runtime.c:255-271 | the free goes ahead if and only if the block is not FREED, has no borrows and is SHARED or the caller's; then its header turns FREED, otherwise the caller stops with the matching report and no header changes |
| Registry.Runtime.FreeUnlink | src/runtime.c:279-279 | a won block leaves the list of its shard; on the real links it is exactly the step Unlink |
| Registry.Runtime.FreeQuarantine | src/runtime.c:281-292 | the block is the last of the ring and the thread idle; of 1024 blocks there the oldest is released and leaves memory, otherwise none |
| Registry.Runtime.Claim | src/runtime.c:302-313 | the caller becomes the OWNED owner and the borrows stay; exactly the step Claim |
| Registry.Runtime.Borrow | src/runtime.c:315-338 | one borrow more and BORROWED unless SHARED; the report and no change if and only if the block is FREED, or another thread's and not SHARED |
| Registry.Runtime.Release | src/runtime.c:340-357 | one borrow less and OWNED after the last of a BORROWED block; the report and no change if and only if there was no borrow |
| Registry.Runtime.Share | src/runtime.c:358-372 | the header turns SHARED if the caller owns the block, otherwise the caller stops with the report and no header changes |
| Registry.Runtime.OwnerMalloc | src/runtime.c:167-198 | a whole allocation without interference: a header with the size asked for, OWNED, without borrows, first in the list of its address, or nothing when the allocator fails |
| Registry.Runtime.OwnerFree | src/runtime.c:246-293 | a whole free without interference: nothing for NULL; a report and nothing else if the block is FREED, lent out, or another thread's and not SHARED; otherwise the thread is idle and the block FREED, in no list and last in the quarantine |
| Registry.Runtime.OwnerRealloc | src/runtime.c:209-239 | NULL allocates, size zero frees, otherwise a report and nothing else, or the block is first in the list of its new address with the new size and otherwise its old header; where it was with its old size when the allocator fails |
| Registry.Runtime.Stats | src/runtime.c:430-457 | the nested walk counts the blocks of the lists by state and adds the occupied ring slots |
| Registry.Runtime.CheckLeaks | src/runtime.c:134-148 | the nested walk counts the blocks of the lists in state OWNED or SHARED |
| JsonTheorems.ReadsDocument | src/owned_json.c:93-243 | for every tree and every choice of white space, parsing the written text consumes it all and gives the tree |
| JsonTheorems.DocumentSound | src/owned_json.c:93-243 | every accepted text is a text of the grammar, with the accepted tree |
| JsonTheorems.AcceptsExactlyTheGrammar | src/owned_json.c:231-243 | a text is accepted with a tree if and only if the grammar derives it with that tree |
| JsonTheorems.OneTree | src/owned_json.c:231-243 | the grammar is unambiguous: one text, one tree |
| JsonTheorems.ReadsValue | src/owned_json.c:216-229 | a written value is read back in front of any text that its numbers stop at |
| JsonTheorems.ValueSound | src/owned_json.c:216-229 | whatever is read as a value is the writing of a value of the grammar |
| JsonTheorems.WhiteSpaceIs | src/owned_json.c:8-13 | after a value exactly blank, tab, line feed, vertical tab, form feed and carriage return may follow |
| JsonTheorems.RawStringReads | src/owned_json.c:60-79 | a quoted raw string, escapes included, is read back and nothing more |
| JsonTheorems.RawStringSound | src/owned_json.c:60-79 | what is read as a string is a quote, characters in which a backslash takes the next one along, and a quote |
| JsonErrors.ErrorPosition | src/owned_json.c:231-243 | what stands before the error position of a rejected text can be continued to an accepted one, and the position is not at white space |
| JsonFirstError.ReportsWhereWrong | src/owned_json.c:231-243 | the text can go on with the character at the error position if and only if, at the value last begun, that character begins a word, or begins or continues a number the reader could read on through |
| JsonFirstError.UnfinishedWord | src/owned_json.c:26-47 | an unfinished word can go on and is still reported at its beginning |
| JsonReader.RfcReader | src/owned_json.c:49-58 | a reader that takes the longest number of section 6 of RFC 8259 keeps every contract stated of the number reader |
| JsonRfc.RfcTextIsAccepted | src/owned_json.c:93-243 | every JSON-text of section 2 of RFC 8259 is accepted with the tree it writes, given the contract of the number reader |
| JsonRfc.RfcIsOk | src/owned_json.c:49-58 | values of sections 3 to 7 of RFC 8259 are values of the wider grammar before any delimiter |
| JsonRfc.RoundTrip | src/owned_json.c:231-243 | parsing a printed tree of RFC 8259 lexemes gives the tree |
| JsonRfc.CompactIs | src/owned_json.c:93-214 | every tree can be written, and its compact form is RFC 8259 when its lexemes are |
| JsonMemory.ArrayStores | src/owned_json.c:123-123 | storing the item and bumping the count extends the array by that item and nothing else |
| JsonMemory.ObjectGrows | src/owned_json.c:184-202 | two buffers that move, even into each other's old place, leave the object as it was |
| JsonMemory.ObjectStores | src/owned_json.c:203-205 | storing key, value and count extends the object by that member and nothing else |
| JsonMemory.SideBySide | src/owned_json.c:106-112 | what a nested call allocates is apart from the tree under construction |
| JsonParser.Runtime.SkipWhitespace | src/owned_json.c:8-13 | the cursor moves over exactly the white space |
| JsonParser.Runtime.ParseRawString | src/owned_json.c:60-79 | allocates the raw lexeme, or nothing when a quote is missing |
| JsonParser.Runtime.ParseNumber | src/owned_json.c:49-58 | reads what the number reader reads, or nothing |
| JsonParser.Runtime.AddItem | src/owned_json.c:113-123 | appends to the buffer, which doubles from 4 when it is full and may move |
| JsonParser.Runtime.ParseItems | src/owned_json.c:106-140 | the loop reads the items of the function, or gives everything back |
| JsonParser.Runtime.ParseArray | src/owned_json.c:93-141 | the array of the function in new blocks, or memory as it was |
| JsonParser.Runtime.AddMember | src/owned_json.c:183-205 | appends key and value to both buffers, which grow together |
| JsonParser.Runtime.ParsePair | src/owned_json.c:157-181 | key, colon and value; the key is released again when one of the others is missing |
| JsonParser.Runtime.ParseObject | src/owned_json.c:143-214 | the object of the function in new blocks, or memory as it was |
| JsonParser.Runtime.ParseValue | src/owned_json.c:216-229 | the value of the function in new blocks, or memory as it was, and the cursor where the function stops |
| JsonParser.Runtime.Parse | src/owned_json.c:231-243 | accepts exactly the texts of the grammar; then memory gains exactly the tree's blocks, otherwise it is as it was and the error position is where the text goes wrong |
| JsonParser.Runtime.FreeTree | src/owned_json.c:245-276 | releases every block of the tree, each while it is live, and no other block |
| JsonParser.Runtime.GetObjectItem | src/owned_json.c:278-286 | the value of the first member with the key, NULL if there is none or the node is no object |
| ChannelModel.StepKeepsInv | src/ownedc_channel.c:33-86 | every step of any thread keeps mutual exclusion, order, ownership and the wake-up bound |
| ChannelModel.RunInv | src/ownedc_channel.c:33-86 | the same over every run from any registry state |
| ChannelModel.WakeByTake | src/ownedc_channel.c:63-72 | taking a message never uncovers another one that a sleeper waits beside |
| ChannelRuns.NoLostWakeup | src/ownedc_channel.c:47-66 | while a receiver is blocked unsignalled, the queue is no longer than the woken receivers yet to look, plus the signal a sender in its critical section still owes |
| ChannelRuns.BoundIsMet | src/ownedc_channel.c:47-66 | runs that reach the bound, with and without a signal owed |
| ChannelRuns.SomebodyMoves | src/ownedc_channel.c:47-73 | whenever a receiver is blocked beside a message, another thread has a step that gets it further |
| ChannelRuns.FirstInFirstOut | src/ownedc_channel.c:47-72 | what was linked is what was taken followed by what is queued, without repetition |
| ChannelRuns.SenderOrder | src/ownedc_channel.c:33-57 | the messages of one sender are linked in the order it sent them |
| ChannelRuns.Conservation | src/ownedc_channel.c:33-86 | messages sent are those on their way in plus queued plus received |
| ChannelRuns.ReceivedOnce | src/ownedc_channel.c:59-86 | over the rest of any run a message keeps its pointer and sender, only advances, and stays with the receiver that took it |
| ChannelRuns.UnderWayIsShared | src/ownedc_channel.c:36-41 | a message is live and SHARED from its share to the receiver's claim, whoever borrows it meanwhile |
| ChannelRuns.NodeFreesCleanly | src/ownedc_channel.c:77-79 | freeing the claimed node passes the registry's checks in every interleaving |
| ChannelRuns.ReceiverOwns | src/ownedc_channel.c:81-85 | the receiver ends as OWNED owner; it may free the message if and only if nothing borrows it, and nobody else may |
| ChannelEffects.ShareEffect | src/ownedc_channel.c:36-41 | a send is stopped if and only if another thread owns the message; otherwise the message is SHARED and under way |
| ChannelEffects.LockEffect | src/ownedc_channel.c:47-65 | whoever waits for the mutex gets it when it is free, and a woken receiver looks at the queue again |
| ChannelEffects.SignalEffect | src/ownedc_channel.c:55-55 | a signal wakes one blocked receiver if there is one, and nobody else |
| ChannelEffects.CheckEffect | src/ownedc_channel.c:63-72 | a receiver blocks if and only if the queue is empty, otherwise it takes the oldest message |
| ChannelEffects.FreeNodeEffect | src/ownedc_channel.c:78-78 | when the free of the node is stopped, and what it takes away otherwise |
| ChannelEffects.CallsGoOn | src/ownedc_channel.c:33-86 | in every reachable state every thread in a call that is not blocked has its next step once the mutex is free or its own |
| ChannelEffects.SendCallEffect | src/ownedc_channel.c:33-57 | a whole send: the message is SHARED and last in the queue with a node of its own, and one blocked receiver, if there is one, is awake |
| ChannelEffects.RecvCallEffect | src/ownedc_channel.c:59-86 | a whole receive: the oldest message has left the queue OWNED by the receiver with its borrows, and its node is gone |
| Channel.LinkShows | src/ownedc_channel.c:47-54 | setting next, tail and an empty head appends the node to the linked queue |
| Channel.TakeShows | src/ownedc_channel.c:67-71 | advancing head, and clearing tail behind the last, takes the first node off |
| Channel.Runtime.constructor | src/ownedc_channel.c:21-31 | a new channel is empty |
| Channel.Runtime.NewNode | src/ownedc_channel.c:43-45 | the allocated node holds the sender's message and no successor; exactly the step AllocNode |
| Channel.Runtime.Append | src/ownedc_channel.c:47-54 | the critical section of send: the queue gains the message at its end, on the real pointers; exactly the step Link |
| Channel.Runtime.Blocks | src/ownedc_channel.c:63-65 | the head pointer is NULL exactly when the queue is empty, and then the receiver blocks and gives the mutex up |
| Channel.Runtime.TakeHead | src/ownedc_channel.c:67-72 | the critical section of recv: the oldest message leaves the queue and its node is returned; exactly the step Check |
| Channel.Runtime.Data | src/ownedc_channel.c:74-74 | the pointer read from a taken node is the pointer its sender passed |
| Channel.Runtime.FreeTaken | src/ownedc_channel.c:77-78 | frees exactly the taken node and never ends in a report; exactly the step FreeNode |
| Channel.Runtime.FreeNodes | src/ownedc_channel.c:95-100 | the walk stops with a report at the first queued node that the caller does not own, if there is one, and frees exactly the nodes before it, once each |
| Channel.Runtime.OnlyUnreceivedNodesRemain | src/ownedc_channel.c:67-78 | every node in memory belongs to a message not received yet |
| FutureModel.RunInv | src/ownedc_future.c:20-91 | mutual exclusion, the value, the wake-up and the life of the future, in every interleaving |
| FutureModel.NoSleepWhenReady | src/ownedc_future.c:33-37 | a blocked await beside a ready result is about to be woken by the worker |
| FutureModel.ReturnsTheValue | src/ownedc_future.c:65-91 | await returns, whenever it does, what the task returned |
| FutureModel.ReturnsAfterTask | src/ownedc_future.c:69-91 | await does not return before the task has |
| FutureModel.ResultIsOwned | src/ownedc_future.c:85-88 | a result that is not NULL ends OWNED by the awaiting thread |
| FutureModel.ArgumentIsClaimed | src/ownedc_future.c:23-28 | the task starts with its argument OWNED by the worker |
| FutureModel.FreedAfterLastAccess | src/ownedc_future.c:76-83 | the future is live until the worker has exited and is freed only after that |
| FutureModel.FreeingPasses | src/ownedc_future.c:83-83 | freeing the future passes the registry's checks if and only if at that moment nothing borrows it and it is SHARED or the awaiting thread owns it, whatever anybody claimed, shared or borrowed before |
| FutureModel.FreeingUntouched | src/ownedc_future.c:43-83 | freeing a future nobody operated on passes if and only if the awaiting thread spawned it |
| FutureModel.NeverStuck | src/ownedc_future.c:20-91 | unless await is over or the task still runs, the worker or the awaiting thread can take a step |
| FutureModel.WorkerSteps | src/ownedc_future.c:20-40 | what the worker does at each point; a task may return NULL or any live block but the future |
| FutureModel.AwaitSteps | src/ownedc_future.c:65-91 | what await does at each point, and when freeing the future stops it |
| FutureModel.WorkerGoesOn | src/ownedc_future.c:20-40 | from every point of every run the worker gets on, or await leaves the mutex the worker waits for |
| FutureModel.AwaitGoesOn | src/ownedc_future.c:65-91 | once the worker has exited await gets on from every point of every run |
| Future.Runtime.constructor | src/ownedc_future.c:43-63 | spawning stores the argument and clears result and flag |
| Future.Runtime.Fulfil | src/ownedc_future.c:33-35 | result and flag go up together; exactly the step WorkerWrites |
| Future.Runtime.Check | src/ownedc_future.c:69-72 | one test of the wait loop: without the flag it blocks and gives the mutex up, with it the result read is the task's value |
| HandOff.HeadersAfter | src/runtime.c:167-372 | what each step of the registry does to the headers of the live blocks, and that no other step touches them |
| HandOff.SharesInRegistry | src/ownedc_channel.c:41-41 | the sender's share of the message is the registry's share |
| HandOff.AllocatesInRegistry | src/ownedc_channel.c:43-43 | a node's header is the one the registry gives it |
| HandOff.LendsInRegistry | src/runtime.c:315-357 | a borrow or release of a message under way is the channel's step Lend, or a report that changes nothing |
| HandOff.FollowsRegistry | src/runtime.c:167-372 | every registry step on blocks not under way is a sequence of the channel's steps elsewhere |
| ChannelOnRegistry.RunInv | src/ownedc_channel.c:33-86 | in every state of every joint run from the empty registry the channel's view is the registry's, the invariants of both hold, and what is under way is published, or still with the thread that allocates it |
| ChannelOnRegistry.CallsAreLegal | src/ownedc_channel.c:77-83 | claims and frees that send and receive make are legal steps of the registry whenever their thread's last call is over |
| ChannelOnRegistry.FreeNodeStep | src/ownedc_channel.c:78-78 | the receiver wins the free of its node and goes on to unlink it |
| ChannelOnRegistry.IsRegistryRun | src/runtime.c:167-372 | the registry of a joint run is one the registry runs to by itself, so its theorems hold there |
| ChannelOnRegistry.IsChannelRun | src/ownedc_channel.c:33-86 | the channel of a joint run is one the channel runs to by itself, so its theorems hold there |
| ChannelOnRegistry.DeliveredInRegistry | src/ownedc_channel.c:81-85 | after the receiver's claim the message is in the registry's lists, OWNED by the receiver |
| ChannelOnRegistry.ThreadGoesOn | src/ownedc_channel.c:33-86 | in every joint state a thread in a call that is not blocked goes on: in the registry until its call there is over, then in the channel once the mutex is free or its own |
| HandOff.OnFutureInRegistry | src/runtime.c:302-372 | claims, shares, borrows and releases of the future are the registry's |
| HandOff.FutureFollowsRegistry | src/runtime.c:167-372 | every other registry step that leaves blocks in transit live is a sequence of the future's steps elsewhere |
| FutureOnRegistry.RunInv | src/ownedc_future.c:20-91 | in every state of every joint run from a spawn in any reachable registry the future's view is the registry's, the invariants of both hold, and what is in transit is published |
| FutureOnRegistry.SpawnExists | src/ownedc_future.c:43-63 | the registry runs from empty to a state with a future just spawned there |
| FutureOnRegistry.CallsAreLegal | src/ownedc_future.c:23-88 | the claims of worker and awaiting thread and the free of the future are legal steps of the registry whenever their thread's last call is over |
| FutureOnRegistry.GoesOn | src/ownedc_future.c:20-91 | in every joint state in which both threads' calls into the registry are over, one of them goes on until await has returned or was stopped |
| FutureOnRegistry.IsRegistryRun | src/runtime.c:167-372 | the registry of a joint run is one the registry runs to by itself |
| FutureOnRegistry.IsFutureRun | src/ownedc_future.c:20-91 | the future of a joint run is one its own model runs to |
| BumpModel.RoundUpLeast | src/ownedc_arena.c:49-49 | rounding gives a multiple of 8, the least one not below the request if and only if it does not wrap |
| BumpModel.ArenaCreateEffect | src/ownedc_arena.c:29-43 | the default size is the one asked for or 1024 if that is more, and an arena whose first block failed has none |
| BumpModel.RegionCreateEffect | src/region.c:11-31 | the default size is the one asked for or 4096 for zero, and there is no region without its first chunk |
| BumpModel.ArenaServes | src/ownedc_arena.c:45-73 | every request of every run goes behind what the last block has in use if it fits there; otherwise it opens a block, of the default size or its own if that is more, if and only if the allocator is willing; all other blocks stay |
| BumpModel.RegionServes | src/region.c:33-58 | the same for every request of a region, whose current chunk is the first, and nothing for size zero |
| BumpModel.ArenaBlockSizes | src/ownedc_arena.c:58-63 | over every run each later block was opened by a request that went to its start, and has the larger of the default size and that request rounded |
| BumpModel.RegionChunkSizes | src/region.c:43-43 | the same for the chunks of a region |
| BumpModel.SecondBlock | src/ownedc_arena.c:45-73 | a second block of the default size has room for a third request |
| BumpModel.CreateMirror | src/region.c:11-31 | for one size the two allocators start alike if and only if it is at least 1024 or creation fails |
| BumpModel.AllocMirror | src/ownedc_arena.c:45-73 | every request keeps the two alike, and they answer alike if and only if it is not empty or there is no pool |
| BumpModel.Equivalent | src/region.c:33-58 | over every run of non-empty requests arena and region answer with the same block number and offset |
| BumpModel.RegionIsArena | src/region.c:33-58 | a region of any chunk size behaves as the arena it mirrors |
| BumpModel.ExtentIffHoused | src/ownedc_arena.c:18-27 | a block has the memory its size field claims if and only if adding its header and the registry's does not wrap |
| BumpModel.InsideIffNoWrap | src/ownedc_arena.c:45-73 | a granted range lies in the memory obtained for its block if and only if the rounding, the bump of a current block and the headers of the serving block do not wrap |
| BumpModel.HeadersWrap | src/ownedc_arena.c:22-22 | 2^64 - 8 bytes asked of a fresh arena are granted in a block for which 16 bytes were asked |
| BumpModel.RunInsideIffNoWrap | src/ownedc_arena.c:45-73 | over every run all ranges lie in memory obtained for their blocks if and only if no request wraps |
| BumpModel.RunGrown | src/ownedc_arena.c:45-73 | blocks never move, shrink or lose what is in use |
| BumpModel.RunSafe | src/ownedc_arena.c:45-73 | over every run that does not wrap no two non-empty ranges overlap |
| BumpModel.RegionRunSafe | src/region.c:33-58 | the same two results for runs of a region, measured in its own final list of chunks |
| BumpPools.Arena.Create | src/ownedc_arena.c:29-43 | header and first block of at least 1024 bytes, or an arena without blocks when the second allocation fails |
| BumpPools.Arena.AddBlock | src/ownedc_arena.c:63-70 | the new block is linked behind the last |
| BumpPools.Arena.Alloc | src/ownedc_arena.c:45-73 | the linked blocks and the place: behind what the last block has in use if the rounded request fits, otherwise at the start of a new one of the default size or the request's if that is more; granted whenever the allocator is willing |
| BumpPools.Arena.Destroy | src/ownedc_arena.c:75-86 | frees every block once, oldest first, then the header |
| BumpPools.Region.Create | src/region.c:11-31 | header and first chunk, of 4096 bytes for size zero; the header is given back when the chunk fails |
| BumpPools.Region.AddChunk | src/region.c:43-52 | the new chunk is pushed before the current one |
| BumpPools.Region.Alloc | src/region.c:33-58 | the same with the first chunk as the current one, and NULL for size zero |
| BumpPools.Region.Free | src/region.c:60-71 | frees every chunk once, newest first, then the header |
| BumpPools.FreeChain | src/region.c:63-68 | walking a chain while freeing it frees each of its blocks once, in order |
| LintStripper.StripIsAFixpoint | tools/ownedc_lint.c:100-136 | the output holds no comment opener, and stripping it again changes nothing and leaves the flag clear |
| LintStripper.ScanPieces | tools/ownedc_lint.c:100-136 | two pieces of a line are scanned one after the other when the first leaves the scanner in code and no mark is split between them |
| LintStripper.BlockCommentCut | tools/ownedc_lint.c:105-111 | a block comment is cut out whole behind anything that leaves the scanner in code, also one that began on an earlier line |
| LintStripper.LineCommentCut | tools/ownedc_lint.c:125-126 | a line comment behind anything that leaves the scanner in code is cut to the end of the line |
| LintStripper.TextEmptied | tools/ownedc_lint.c:112-120 | a string literal behind anything that leaves the scanner in code, escapes included, keeps its quotes and loses its contents |
| LintStripper.CodeKept | tools/ownedc_lint.c:130-132 | a line without quotes and comment openers is its own output |
| LintStripper.UnclosedText | tools/ownedc_lint.c:112-120 | of a string literal that the line does not close nothing is kept behind its quote |
| LintStripper.UnclosedBlock | tools/ownedc_lint.c:105-111 | a line inside a block comment that it does not close is dropped whole and leaves the flag set |
| LintStripper.KeepsExactlyTheCode | tools/ownedc_lint.c:100-136 | of a line made of code characters, literals and comments, the last perhaps unclosed, exactly the code and the quotes are kept, and the flag is set if and only if it ends in an unclosed block comment |
| LintStripper.EveryLineIsWritten | tools/ownedc_lint.c:100-136 | every line is made of such pieces |
| LintStripper.Rewrite | tools/ownedc_lint.c:100-136 | the two-pointer loop writes the scanner's output, which the rows above fix for every line, over its own input |
| LintStripper.PreprocessLine | tools/ownedc_lint.c:100-136 | of a line written as code, literals and comments exactly the code and the quotes are left, from behind the comment it begins in, and nothing if that is not closed; the flag tells whether a block comment is open at the end |

## Left out

- Printing, JSON dump output, `atexit` registration, source locations, poison bytes, and the release of the quarantine at exit.
- Header arithmetic outside the bump allocators, where header sizes are those of a 64-bit ABI (24 and 80 bytes): elsewhere a block is its user address, and the magic number and untracked pointers are not modelled. `int` counters do not overflow.
- `ownership_claim` and `ownership_share` on freed blocks, `owner_realloc` while another thread uses the block, and calls on pointers already given back to the system: the code does not check them, so they are rules of the client (`Legal`).
- `owner_calloc`, the diagnostic walks and the pluggable allocators: nothing beyond the operations modelled.
- Registry.Runtime.OwnerMalloc: models a whole call without other threads in between; the interleaved call is the sequence of its steps. The same holds of OwnerFree and OwnerRealloc.
- RcHistory.StepKeepsInv: registering a child uses up a held handle, the discipline of clone-then-register; clients who register without a reference, or drop the reference of a slot while its parent lives, are not covered. The list has no lock, so there is one thread.
- Children are not dropped with their parent, as in the code; garbage left below a dropped parent is not claimed to be reclaimed.
- Two wrappers around one payload pointer.
- JsonParser.Runtime.Parse: the error position is characterised for number readers that keep the contract `Firm`. The allocator does not fail, since after a failed growth of an object the code keeps a pointer to a released key buffer (src/owned_json.c:184-196).
- JsonRfc.RfcTextIsAccepted: what `strtod` computes, floating point and locale are outside; the number reader is any function that keeps the stated contract, and a number is its lexeme.
- A text is a C string: the end of the Dafny string is its terminator, and it has no NUL inside. Stack depth is not bounded.
- The remaining JSON accessors, which only read one field.
- Channel.Runtime.FreeNodes: nobody else is in the channel, as the code demands; what happens to the messages left in it, the destruction of mutex and condition variable and the free of the channel's own block are not modelled. Nor are failing allocations of nodes, which the code does not check.
- A future that is awaited twice or freed by somebody else before await returns, or whose thread could not be started, and the variant without threads.
- Fairness: that an enabled step is eventually taken is the scheduler's affair.
- File, socket, mutex and thread wrappers, the C++ and CHERI headers, the Clang plugin, vectors, strings and owned arrays: they would add easy members only.
- The linter's rules after stripping: line heuristics without a specification.
