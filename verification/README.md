# cJSON and the RT-Thread kernel objects, verified

A Dafny model of two components of the smart-building firmware, with proofs.

**The JSON library** (cJSON 1.7.17 and cJSON_Utils). `Json` is the tree that the C nodes
represent; `Meaning` is what a tree denotes, objects being maps, so that equality of meaning is
equality up to member order. Each operation is a function on trees or texts, about which the
theorems are; beside it stands the code in the form the library has it (loops, in-place buffers,
linked nodes), proved to follow the function.

- keys and lists: `Keys`, `SortList`, `Siblings`, `TailLink`, `LinkOrder`, `NodeSort`, `SiblingList`
- comparison: `Json`, `Compare`, `SortedObjects`, `CompareEffect`
- JSON Pointer: `Pointer`, `PointerLookup`, `PointerSteps`, `PointerDecode`
- JSON Patch: `PatchApply`, `PatchLaws`, `PatchOperations`, `CreateEffect`, `PatchCreate`, `PatchSteps`, `PatchSound`, `PatchTheorem`, `PatchRoundTrip`, `PatchEmpty`
- JSON Merge Patch: `MergePatch`, `MergeTheorem`, `MergeRoundTrip`, `MergeKeys`
- both on documents with their links: `LinkedTree`, `LinkedTreeLaws`, `LinkedAdds`, `LinkedRoundTrip`, `LinkedMerge`, `LinkedGeneration`
- printing: `Decimal`, `PrintText`, `PrintBuffer`
- parsing: `Utf16`, `StringLiteral`, `Parser`, `ParserReads`, `ParseBuffer`, `NestingLimit`
- the texts of a tree: `Texts`, `Spelling` (strings), `Layouts`; what is accepted and what is printed: `LayoutParses`, `LayoutExact`, `LiteralRoundTrip`, `RoundTrip`

**The kernel objects** (ipc.c, mempool.c, the lists of rtservice.h). Each object is a state machine
whose events are the regions between disabling and enabling interrupts, and the copying that a
thread does between two of them; any number of threads interleave their events in any order. The
state records where each thread stands. Suspending, resuming and timing out are steps: resuming
takes the thread out of its queue, timing out does so with an error. Invariants are proved for
every event, so for every run. A class beside each machine holds the fields of the C object; its
methods are the critical sections, proved to do what the machine's step says.

- wait queues: `WaitQueue`, `WaitList`
- message queue: `MessageQueue`, `MessageQueueSafety`, `MessageQueueRuns`, `MessageQueueOrder`, `MessageQueueCalls`, `MessageQueueObject`
- `Mailbox`, `Mutex`, `EventGroup`, `MemoryPool`: each the machine, with its runs in `MailboxRuns` and so on, and its object in `MailboxObject` and so on; `MailboxOrder` and `EventGroupCalls` say what calls come to, `EventGroupWalk` is the walk of a send on the linked list

`dafny verify dfyconfig.toml` checks everything. Strings are sequences of bytes; the end of a
sequence stands for the NUL.

## Where the code and its documentation disagree

The model follows the code.

- `detach_path` matches member names ignoring case even for the case-sensitive functions
  (cJSON_Utils.c:467). Patches over keys that differ in case only remove the wrong member:
  `PatchRoundTrip.CaseClashFails`.
- `decode_pointer_inplace` moves only what follows an escape's first byte and copies no ordinary
  byte (cJSON_Utils.c:360-391). `PointerDecode.Safe` says which keys survive; the patch theorem
  needs exactly those.
- `decode_array_index_from_pointer` tests the first byte against `'9'` in every turn
  (cJSON_Utils.c:286): `1a` is index 59, the empty token index 0. RFC 6901 section 4 allows neither.
  An index of 2^32 or more wraps around and leads to another element. These are all the departures:
  `PointerLookup.DecodeIndexExact`.
- `sort_list` leaves the `prev` of a new head NULL (cJSON_Utils.c:485-594), and `add_item_to_array`
  looks for the end of the list there: it links nothing and reports success (cJSON.c:1966-1997). A
  passed or failed TEST sorts the objects that it compares, at any depth, and generating a patch sorts
  those that both documents have in a place, in the caller's documents. Adding a member to one of them
  afterwards reports status 0; the member is not there, or, where the first member has stayed and the
  last has moved, members behind its new place are cut off. That cannot happen exactly when those
  objects have their first member in front of all others and their last one behind:
  `LinkedAdds.AddsAfterTestExact` and `AddsAfterGenerationExact`, for merging
  `LinkedGeneration.MergesAfterGenerationExact`; `LinkedRoundTrip.TestLosesMember` and
  `GenerationLosesMember` are cases. So the round trips hold for a copy of `from`:
  `LinkedRoundTrip.LinkedRoundTripExact`, `LinkedMerge.LinkedMergeExact`.
- `generate_merge_patch` sorts in the caller's mode but walks with `strcmp`, and below the first level
  sorts what the comparison has sorted once more, now ignoring case (cJSON_Utils.c:1407-1465).
  `MergeKeys.MergeKeysExact` says for which keys that does no harm.
- `parse_object` goes on behind a comma without testing for the end, and `parse_string` reads its first
  byte untested (cJSON.c:1667-1669, 783-793): on `{"a":null,` given with its length, one byte behind it.
  `ParserReads.ReadsInside`, `CommaAtEnd`.
- MOVE and COPY onto the root fail with status 9, where RFC 6902 has them replace the document, and
  a failing MOVE or REPLACE does not put back what it took out: `PatchLaws.FailureLeaves`.
- `parse_hex4` returns zero for what is no digit (cJSON.c:645-648), so such an escape is accepted:
  `Utf16.AcceptedExact`. As the first scan pairs backslashes without looking at the digits, the two scans
  may then disagree, and an escape may take the closing quote as its second byte: `Spelling.ProperString`
  says which texts are read, and as what.
- White space is any byte up to the space (cJSON.c:1061), and a numeral may have leading zeros, where
  RFC 8259 sections 2 and 6 allow neither: `LayoutExact.ParseExact` says exactly which texts parse.
- cJSON.h:162 advises five bytes more than needed for `cJSON_PrintPreallocated`. Two are enough, and
  necessary: `PrintBuffer.PrintPreallocated`.
- A pointer that does not start with a slash resolves to the root, where RFC 6901 section 3 allows that
  of the empty one only: `PointerLookup.NoLeadingSlash`.
- A copy of an object with a repeated key does not compare equal to it: `Compare.RepeatedKeyCopy`.
- With a FIFO flag a mutex does not carry the priority of the remaining waiters over to its next
  owner: `MutexRuns.InheritanceExact`.
- `rt_mp_init` on a region without room for a block writes in front of the region:
  `MemoryPoolRuns.InitInside`.

## Model

| member | source | states |
|---|---|---|
| PatchRoundTrip.PatchRoundTripExact | smart-building-mcu/packages/cJSON-v1.7.17/cJSON_Utils.c:1142-1280 | JSON Patch is sound for all documents over a set of keys (unique keys per object, integer numbers, valid nodes) exactly when every key is decoded back from its escaped form and no two keys differ in case only; both modes of generating and applying |
| PatchRoundTrip.PatchRoundTrip | smart-building-mcu/packages/cJSON-v1.7.17/cJSON_Utils.c:1142-1310 | over such keys, applying the generated patches in order succeeds (status 0) and gives a document that means what `to` means, member order aside (RFC 6902 sections 4.1 to 4.3) |
| PatchRoundTrip.UnsafeKeyFails | smart-building-mcu/packages/cJSON-v1.7.17/cJSON_Utils.c:360-391 | a key that `decode_pointer_inplace` does not restore makes the round trip fail: even adding it to an empty object goes wrong |
| PatchRoundTrip.CaseClashFails | smart-building-mcu/packages/cJSON-v1.7.17/cJSON_Utils.c:431-482 | of two keys that differ in case only, a removal takes the first, whichever was meant, in the case-sensitive mode as well |
| PatchTheorem.EditsReach | smart-building-mcu/packages/cJSON-v1.7.17/cJSON_Utils.c:1142-1280 | the generated operations, applied one after the other, lead from `from` to a document with the meaning of `to`, through arrays and objects of any depth |
| PatchEmpty.EmptyPatchExact | smart-building-mcu/packages/cJSON-v1.7.17/cJSON_Utils.c:1142-1280 | the generated patch is empty exactly when the documents mean the same |
| PatchLaws.TestExact | smart-building-mcu/packages/cJSON-v1.7.17/cJSON_Utils.c:830-835 | a test succeeds exactly when the value at the path is there and means the same (RFC 6902 section 4.6); it keeps the meaning of the document, though not the order of the members that it compares |
| PatchOperations.AddToArray | smart-building-mcu/packages/cJSON-v1.7.17/cJSON_Utils.c:949-1000 | adding at a token of an array (RFC 6902 section 4.1): `-` appends; an index of at most the length puts the value there, earlier elements staying and later ones moving up by one; a greater index fails with status 10, what is no index with status 11, and a failure changes nothing |
| PatchOperations.AddToObject | smart-building-mcu/packages/cJSON-v1.7.17/cJSON_Utils.c:1003-1019 | adding to an object: the member stands at the end with the value, in place of the first one of that key, all others as they were |
| PatchOperations.RemoveFromArray | smart-building-mcu/packages/cJSON-v1.7.17/cJSON_Utils.c:431-482 | removing from an array takes out the element at the index; with none there, or no index, it fails with status 13 and changes nothing |
| PatchOperations.RemoveFromObject | smart-building-mcu/packages/cJSON-v1.7.17/cJSON_Utils.c:431-482 | removing from an object takes out the first member with the key, case ignored; with none it fails with status 13 and changes nothing |
| PatchOperations.NoContainer | smart-building-mcu/packages/cJSON-v1.7.17/cJSON_Utils.c:973-1026 | without an array or object to add to or to remove from: status 9 or 13, nothing changed |
| PatchOperations.Refused | smart-building-mcu/packages/cJSON-v1.7.17/cJSON_Utils.c:822-971 | the status of every operation that lacks an operand, or whose operand names nothing: 3 for no operation, 1 for a test, 4 and 5 for a source, 7 for a value, 13 for a target; nothing changed |
| PatchOperations.PatchRead | smart-building-mcu/packages/cJSON-v1.7.17/cJSON_Utils.c:743-835 | the operation, path, value and source of a patch are its members of these names, for each of the six operations; a path that is no string is status 2, any other operation status 3 |
| PatchOperations.RunStops | smart-building-mcu/packages/cJSON-v1.7.17/cJSON_Utils.c:1039-1066 | a run goes on behind a patch exactly when that has succeeded, from the document that it has left |
| PatchOperations.PutAside | smart-building-mcu/packages/cJSON-v1.7.17/cJSON_Utils.c:949-1019 | everything beside the place of an operation stays as it is, where it is |
| PatchOperations.SplitExact | smart-building-mcu/packages/cJSON-v1.7.17/cJSON_Utils.c:952-963 | a path splits into the parent and the last token at its last slash, and at none into nothing |
| CompareEffect.ComparedMeaning | smart-building-mcu/packages/cJSON-v1.7.17/cJSON_Utils.c:605-691 | what `compare_json` does to its first argument, sorting the objects that it compares up to the first difference, keeps the meaning |
| CompareEffect.ComparedUnchanged | smart-building-mcu/packages/cJSON-v1.7.17/cJSON_Utils.c:605-691 | on unique keys it leaves its argument as it is exactly when every object that it reaches, up to the first difference, is sorted |
| CompareEffect.CompareInPlace | smart-building-mcu/packages/cJSON-v1.7.17/cJSON_Utils.c:605-691 | the loops that sort and compare as they go give the answer of `CompareJson`, and leave of either argument what `Compared` says, for the second one with the two exchanged |
| CompareEffect.CompareSymmetric | smart-building-mcu/packages/cJSON-v1.7.17/cJSON_Utils.c:605-691 | comparing is symmetric |
| CreateEffect.CreatedMeaning | smart-building-mcu/packages/cJSON-v1.7.17/cJSON_Utils.c:1142-1280 | what `create_patches` makes of an argument, whose objects it sorts where the other has one too, means the same |
| PatchLaws.FailureLeaves | smart-building-mcu/packages/cJSON-v1.7.17/cJSON_Utils.c:808-1037 | a failing operation leaves the document as it was exactly when it has taken nothing out and, if a test, moved nothing: on unique keys, found every object sorted that it compares; else what a replacement or a move took out is missing |
| LinkedTreeLaws.FreshTree | smart-building-mcu/packages/cJSON-v1.7.17/cJSON.c:2721-2802 | a recursive copy is the same document, and in each of its objects the first member points to the last |
| LinkedTreeLaws.OpRefines | smart-building-mcu/packages/cJSON-v1.7.17/cJSON_Utils.c:808-1037 | on a document with its links right every operation has the status and the document of `ApplyOp`, which `PatchOperations` and `PatchLaws` pin down, and unless it is a test it leaves the links right |
| LinkedTreeLaws.ComparisonLinks | smart-building-mcu/packages/cJSON-v1.7.17/cJSON_Utils.c:605-691 | `compare_json` leaves all links of its first argument right exactly when in every object that it reaches, up to the first difference, the first member belongs in front of all others and the last behind them; repeated keys included |
| LinkedTreeLaws.CreationLinks | smart-building-mcu/packages/cJSON-v1.7.17/cJSON_Utils.c:1142-1280 | `create_patches` does so exactly when that holds of every object that both documents have in a place |
| LinkedTreeLaws.PlainCreated | smart-building-mcu/packages/cJSON-v1.7.17/cJSON_Utils.c:1142-1280 | the document with its links that generation leaves is the one without them that it leaves |
| LinkedTreeLaws.TestLinks | smart-building-mcu/packages/cJSON-v1.7.17/cJSON_Utils.c:830-835 | a test at any path, passed or failed, leaves all links of the document right exactly when that holds of the objects that it compares |
| LinkedTreeLaws.SteadyExact | smart-building-mcu/packages/cJSON-v1.7.17/cJSON_Utils.c:1039-1066 | the links are right whenever a patch of a run starts exactly when every test on the way meets the objects that it compares with their ends in place, told on the document without links |
| LinkedTreeLaws.AllRefines | smart-building-mcu/packages/cJSON-v1.7.17/cJSON_Utils.c:1039-1066 | then the whole run has the status and the document of `ApplyAll` |
| LinkedTreeLaws.DocumentRefines | smart-building-mcu/packages/cJSON-v1.7.17/cJSON_Utils.c:1039-1066 | the same for whole patch documents, the refused ones included |
| LinkedTreeLaws.NoTestsKeep | smart-building-mcu/packages/cJSON-v1.7.17/cJSON_Utils.c:1039-1066 | runs without tests meet the condition, and leave all links right |
| LinkedRoundTrip.LinkedRoundTripExact | smart-building-mcu/packages/cJSON-v1.7.17/cJSON_Utils.c:1142-1310 | applied to a copy of `from`, its links included, the generated patches succeed and give the meaning of `to` with all links right, for all documents over a set of keys exactly when the keys are good |
| LinkedAdds.AddExact | smart-building-mcu/packages/cJSON-v1.7.17/cJSON_Utils.c:949-1019 | with links out of order, one addition at any path does what it does without links exactly when it replaces the document or the first member of the parent, a replaced member out of the way, points to the last one |
| LinkedAdds.EveryAddExact | smart-building-mcu/packages/cJSON-v1.7.17/cJSON_Utils.c:949-1019 | all additions at all paths do so exactly when all links are right; for every wrong link there is a path whose addition goes wrong |
| LinkedAdds.AddsAfterTestExact | smart-building-mcu/packages/cJSON-v1.7.17/cJSON_Utils.c:605-691 | after a test at any path, passed or failed, every addition does what it does without links exactly when the test found the ends in place in every object that it compared |
| LinkedAdds.AddsAfterGenerationExact | smart-building-mcu/packages/cJSON-v1.7.17/cJSON_Utils.c:1142-1280 | in the document that patches have been generated from, every addition does so exactly when every object that both documents have in a place had its ends in place |
| LinkedRoundTrip.TestLosesMember | smart-building-mcu/packages/cJSON-v1.7.17/cJSON_Utils.c:830-1019 | a document is tested against itself and given a member: with status 0 the member is lost, if any key belongs in front of the first one |
| LinkedRoundTrip.GenerationLosesMember | smart-building-mcu/packages/cJSON-v1.7.17/cJSON_Utils.c:1142-1310 | generated patches applied to the very document that they were generated from: status 0, and the new member is not there |
| LinkedTree.Document.Apply | smart-building-mcu/packages/cJSON-v1.7.17/cJSON_Utils.c:1039-1095 | the loop over the patches follows `ApplyAllTree` on the document with its links, stops at the first failure, and leaves the document as the failing patch left it |
| PatchLaws.FailedMoveLoses | smart-building-mcu/packages/cJSON-v1.7.17/cJSON_Utils.c:838-1000 | a move to the root fails, and the moved member is gone |
| PatchSteps.EditMember | smart-building-mcu/packages/cJSON-v1.7.17/cJSON_Utils.c:808-1037 | an operation whose path goes through a member changes that member as it would change the member alone, and nothing else |
| PatchSteps.EditItem | smart-building-mcu/packages/cJSON-v1.7.17/cJSON_Utils.c:808-1037 | the same for an operation whose path goes through an array element |
| PatchSound.ReadBack | smart-building-mcu/packages/cJSON-v1.7.17/cJSON_Utils.c:743-782 | what `compose_patch` writes into a patch object is what `apply_patch` reads back out of it |
| PatchCreate.PatchList.Create | smart-building-mcu/packages/cJSON-v1.7.17/cJSON_Utils.c:1142-1280 | the recursion with its loops appends exactly the patch objects of `CreateEdits`, behind what the array held, and leaves of both documents what `Created` says |
| PatchCreate.PatchList.Compose | smart-building-mcu/packages/cJSON-v1.7.17/cJSON_Utils.c:1097-1135 | one patch object is appended, with the suffix escaped into its path |
| MergeRoundTrip.MergeRoundTripExact | smart-building-mcu/packages/cJSON-v1.7.17/cJSON_Utils.c:1392-1472 | on keys that both key orders sort alike: merging the generated patch into any document that means what `from` means gives `to` exactly when every null member of `to` faces a null of `from`, all the way down; there is no patch exactly when both are equal objects |
| LinkedMerge.MergeRefines | smart-building-mcu/packages/cJSON-v1.7.17/cJSON_Utils.c:1322-1380 | merging into a document whose objects, where merging can reach them, have their links right does what `Merge` does without links, and keeps them right |
| LinkedMerge.EveryMergeExact | smart-building-mcu/packages/cJSON-v1.7.17/cJSON_Utils.c:1322-1380 | every patch is merged as it is without links exactly when these links are right; for every wrong one there is a patch, however deep, that goes wrong |
| LinkedGeneration.GeneratedWhole | smart-building-mcu/packages/cJSON-v1.7.17/cJSON_Utils.c:1392-1472 | what `generate_merge_patch` does to the links of `from`, its comparisons and repeated sorts included: they are right afterwards exactly when they were and every object that both documents have in a place had its ends in place (keys that both orders sort alike) |
| LinkedGeneration.MergesAfterGenerationExact | smart-building-mcu/packages/cJSON-v1.7.17/cJSON_Utils.c:1322-1472 | so merging any patch into the document that one was generated from does what it does without links exactly under that condition |
| LinkedMerge.LinkedMergeExact | smart-building-mcu/packages/cJSON-v1.7.17/cJSON_Utils.c:1322-1472 | the merge round trip on a copy, links included, under the same exact condition |
| MergeKeys.MergeKeysExact | smart-building-mcu/packages/cJSON-v1.7.17/cJSON_Utils.c:1392-1472 | the merge round trip holds for all documents over a set of keys (whose nulls allow it) exactly when `strcmp` and the order that ignores case agree on the keys |
| MergeKeys.IncompatibleFails | smart-building-mcu/packages/cJSON-v1.7.17/cJSON_Utils.c:1407-1456 | two keys on which the orders disagree, one level down: the member that was to stay is lost |
| MergeTheorem.MergeEachKey | smart-building-mcu/packages/cJSON-v1.7.17/cJSON_Utils.c:1322-1380 | merging is decided key by key: absent in the patch keeps, null removes, anything else is merged into the value that was there (RFC 7396 section 2), and keys stay unique |
| MergeTheorem.MergeFresh | smart-building-mcu/packages/cJSON-v1.7.17/cJSON_Utils.c:1322-1380 | a tree merged into no object is reproduced exactly when it has no null-valued member |
| MergeRoundTrip.GeneratedEachKey | smart-building-mcu/packages/cJSON-v1.7.17/cJSON_Utils.c:1392-1472 | the generated patch, key by key: null for what goes, the value for what comes, a nested patch for what changes, nothing for what stays |
| MergePatch.MergeLoop | smart-building-mcu/packages/cJSON-v1.7.17/cJSON_Utils.c:1322-1380 | the merging loop, which takes each patched member out and appends the result, follows `Merge` |
| MergePatch.GenerateLoop | smart-building-mcu/packages/cJSON-v1.7.17/cJSON_Utils.c:1392-1472 | sorting and walking in step follows `Generate` |
| Compare.CompareExact | smart-building-mcu/packages/cJSON-v1.7.17/cJSON.c:3001-3124 | `cJSON_Compare` holds exactly when both trees are coherent (no invalid node, repeated keys agree with their first) and mean the same, member order aside; both case modes |
| Compare.UniqueIsCoherent | smart-building-mcu/packages/cJSON-v1.7.17/cJSON.c:3001-3124 | trees with unique keys and no invalid node are coherent, so that on them comparison is equality of meaning |
| Compare.CompareEquivalence | smart-building-mcu/packages/cJSON-v1.7.17/cJSON.c:3001-3124 | on trees with unique keys comparison is reflexive, symmetric and transitive |
| Compare.CompareLoops | smart-building-mcu/packages/cJSON-v1.7.17/cJSON.c:3001-3124 | the loops over elements and over members in both directions follow `Compare` |
| Compare.Duplicate | smart-building-mcu/packages/cJSON-v1.7.17/cJSON.c:2721-2802 | a recursive copy is the same tree with the children in the same order; without recursion the children are missing |
| Compare.CopyCompares | smart-building-mcu/packages/cJSON-v1.7.17/cJSON.c:2721-2802 | a copy compares equal to its original exactly when the original is coherent |
| Compare.RepeatedKeyCopy | smart-building-mcu/packages/cJSON-v1.7.17/cJSON.c:3083-3119 | an object with a repeated key differs from its own copy unless the repeated values mean the same |
| SortedObjects.CompareJsonExact | smart-building-mcu/packages/cJSON-v1.7.17/cJSON_Utils.c:605-691 | on trees with unique keys `compare_json`, which sorts and walks in step, decides equality of meaning |
| SortedObjects.SortedObject | smart-building-mcu/packages/cJSON-v1.7.17/cJSON_Utils.c:596-603 | `sort_object` gives ascending distinct keys, the same members and the same meaning |
| Json.GetObjectItem | smart-building-mcu/packages/cJSON-v1.7.17/cJSON.c:1890-1920 | the list walk finds the first member whose key matches |
| Json.FieldIs | smart-building-mcu/packages/cJSON-v1.7.17/cJSON.c:1890-1920 | lookups decide the meaning of an object: a key is found exactly when the denoted map has it, with the meaning of what is found |
| Keys.KeyOrder | smart-building-mcu/packages/cJSON-v1.7.17/cJSON_Utils.c:84-110 | both key orders are strict total orders, on spellings or on spellings without case |
| Keys.CompareStrings | smart-building-mcu/packages/cJSON-v1.7.17/cJSON_Utils.c:84-110 | the byte loop: the sign of its result is the order, and it is zero for matching keys only |
| SortList.SortSorts | smart-building-mcu/packages/cJSON-v1.7.17/cJSON_Utils.c:485-594 | the merge sort returns the same elements, each as often, in non-descending key order |
| SortList.SortRanks | smart-building-mcu/packages/cJSON-v1.7.17/cJSON_Utils.c:485-594 | it leaves elements of the same key in the reverse of their order, so that keys and order decide the result |
| LinkOrder.SortKeeps | smart-building-mcu/packages/cJSON-v1.7.17/cJSON_Utils.c:485-603 | sorting the members of an object keeps the first one pointing to the last exactly when the first key is before all others and all others are before the last |
| NodeSort.SortNodes | smart-building-mcu/packages/cJSON-v1.7.17/cJSON_Utils.c:485-594 | in place on linked nodes: the result is a NULL-terminated chain of exactly the sorted nodes, each but the head pointing back to its predecessor; the `prev` of the head is what it was if the head has stayed, and NULL else; it terminates |
| TailLink.SortExact | smart-building-mcu/packages/cJSON-v1.7.17/cJSON_Utils.c:485-594 | sorting keeps the head pointing to the last node exactly when the first and the last node stay where they are |
| TailLink.AppendExact | smart-building-mcu/packages/cJSON-v1.7.17/cJSON.c:1966-1997 | an append adds the item behind all others exactly when the list is empty or its head points to its last node |
| TailLink.AppendAfterSortExact | smart-building-mcu/packages/cJSON-v1.7.17/cJSON.c:1966-1997 | so behind a sort an append works exactly when the sort has kept the first and the last node in place |
| NodeSort.FindMiddle | smart-building-mcu/packages/cJSON-v1.7.17/cJSON_Utils.c:510-523 | the two-pointer walk stops in the middle: both halves are shorter than the list and not empty |
| NodeSort.MergeNodes | smart-building-mcu/packages/cJSON-v1.7.17/cJSON_Utils.c:533-593 | two disjoint chains are linked into the chain of their merge |
| SiblingList.Container.AddItem | smart-building-mcu/packages/cJSON-v1.7.17/cJSON.c:1966-1997 | what an append makes of the list, given what the `prev` of the head points to: on a proper list it adds at the end and keeps "next is NULL-terminated, prev its inverse, the head points back to the tail" |
| SiblingList.Container.SortObject | smart-building-mcu/packages/cJSON-v1.7.17/cJSON_Utils.c:596-603 | sorting leaves the sorted nodes linked, and the `prev` of the head pointing to what `AfterSort` says |
| SiblingList.Container.Duplicate | smart-building-mcu/packages/cJSON-v1.7.17/cJSON.c:2749-2789 | the copy has new nodes under the same keys in the same order, linked properly whatever the links of the original |
| SiblingList.Container.Detach | smart-building-mcu/packages/cJSON-v1.7.17/cJSON.c:2197-2231 | detaching takes out that node and no other and clears its links; what the `prev` of the head points to afterwards is `AfterRemoval`, so a proper list stays proper |
| SiblingList.Container.DetachItemFromArray | smart-building-mcu/packages/cJSON-v1.7.17/cJSON_Utils.c:394-428 | detaching by index; an index past the end changes nothing |
| SiblingList.Container.InsertItem | smart-building-mcu/packages/cJSON-v1.7.17/cJSON.c:2273-2305 | insertion before an index; an index past the end appends |
| SiblingList.Container.InsertItemStrict | smart-building-mcu/packages/cJSON-v1.7.17/cJSON_Utils.c:694-729 | insertion before an index; an index past the end is refused, the length itself appends |
| SiblingList.Container.Replace | smart-building-mcu/packages/cJSON-v1.7.17/cJSON.c:2307-2354 | the replacement takes the place of the node, whose links are cleared |
| SiblingList.Container.GetArrayItem | smart-building-mcu/packages/cJSON-v1.7.17/cJSON.c:1861-1878 | the walk reaches the element at the index, or NULL behind the end |
| PointerLookup.PointerRoundTrip | smart-building-mcu/packages/cJSON-v1.7.17/cJSON_Utils.c:199-260 | with unique keys: for every node of a tree the search finds a path, and looking the path up gives exactly that node (RFC 6901 sections 3 and 4); both case modes |
| Pointer.FindPointerFinds | smart-building-mcu/packages/cJSON-v1.7.17/cJSON_Utils.c:199-260 | the path that the search returns for a node is its escaped keys and decimal indices |
| Pointer.FindPointerLoop | smart-building-mcu/packages/cJSON-v1.7.17/cJSON_Utils.c:199-260 | the search as written, with its loop over the children, follows `FindPointer` |
| PointerLookup.PathResolves | smart-building-mcu/packages/cJSON-v1.7.17/cJSON_Utils.c:302-347 | the path of a node leads back to that very node, through containers of any depth |
| PointerSteps.ArrayStep | smart-building-mcu/packages/cJSON-v1.7.17/cJSON_Utils.c:302-347 | from an array a token leads to the element of its index, and nowhere when there is none or the token is no index (RFC 6901 section 4), whatever follows |
| PointerSteps.ObjectStep | smart-building-mcu/packages/cJSON-v1.7.17/cJSON_Utils.c:302-347 | from an object an escaped key leads to the first member of that key, and nowhere when there is none; a token that is no escaped key leads nowhere |
| PointerLookup.GetItemFromPointer | smart-building-mcu/packages/cJSON-v1.7.17/cJSON_Utils.c:302-347 | the walk with the current element in a variable follows `Resolve` |
| PointerLookup.TokenMatches | smart-building-mcu/packages/cJSON-v1.7.17/cJSON_Utils.c:121-155 | a token matches a key exactly when it is the escaped form of a spelling of that key, whatever follows it |
| PointerLookup.DecodeIndexExact | smart-building-mcu/packages/cJSON-v1.7.17/cJSON_Utils.c:275-300 | on a token without a slash the index decoder does what RFC 6901 section 4 says exactly when the token is not wrongly accepted and its value is below 2^32 |
| PointerLookup.IndexWraps | smart-building-mcu/packages/cJSON-v1.7.17/cJSON_Utils.c:284-292 | every index from 2^32 on wraps around and leads to another element |
| PointerLookup.NoLeadingSlash | smart-building-mcu/packages/cJSON-v1.7.17/cJSON_Utils.c:302-347 | a pointer leads to the root of every document exactly when it does not start with a slash |
| Pointer.EncodeInto | smart-building-mcu/packages/cJSON-v1.7.17/cJSON_Utils.c:174-197 | escaping writes exactly the escaped key and its NUL, and nothing in front |
| Pointer.EncodedLength | smart-building-mcu/packages/cJSON-v1.7.17/cJSON_Utils.c:158-171 | the length computed beforehand is the length of the escaped key |
| PointerDecode.DecodeExact | smart-building-mcu/packages/cJSON-v1.7.17/cJSON_Utils.c:360-391 | decoding inverts escaping exactly on the keys whose bytes all land where they already are |
| PointerDecode.PlainIsSafe | smart-building-mcu/packages/cJSON-v1.7.17/cJSON_Utils.c:360-391 | keys without `~` and `/` are among them |
| PointerDecode.TildeInside | smart-building-mcu/packages/cJSON-v1.7.17/cJSON_Utils.c:360-391 | `a~b` is not: it comes back as `a~0` |
| PointerDecode.DecodeInPlace | smart-building-mcu/packages/cJSON-v1.7.17/cJSON_Utils.c:360-391 | the loop on the buffer follows `Decode` and terminates the result |
| PrintBuffer.Buffer.PrintValue | smart-building-mcu/packages/cJSON-v1.7.17/cJSON.c:1377-1448 | from any offset, on success the buffer holds what stood before, then exactly the text of the value and a NUL; it succeeds exactly when all nodes are valid and text and two bytes fit the limit; no write falls outside |
| PrintBuffer.Buffer.PrintArray | smart-building-mcu/packages/cJSON-v1.7.17/cJSON.c:1549-1608 | the same for arrays |
| PrintBuffer.Buffer.PrintObject | smart-building-mcu/packages/cJSON-v1.7.17/cJSON.c:1724-1835 | the same for objects |
| PrintBuffer.Buffer.PrintString | smart-building-mcu/packages/cJSON-v1.7.17/cJSON.c:912-1031 | the same for strings, measured first and then escaped |
| PrintBuffer.Buffer.PrintNumber | smart-building-mcu/packages/cJSON-v1.7.17/cJSON.c:555-622 | the same for numbers of the `int` range, which count themselves |
| PrintBuffer.Buffer.Ensure | smart-building-mcu/packages/cJSON-v1.7.17/cJSON.c:449-532 | growing preserves everything in front of the offset; it succeeds exactly when the bytes asked for and one more fit the limit, which is the length in no-alloc mode and `INT_MAX` else |
| PrintBuffer.Buffer.UpdateOffset | smart-building-mcu/packages/cJSON-v1.7.17/cJSON.c:535-545 | the offset moves over exactly the bytes up to the NUL |
| PrintBuffer.Print | smart-building-mcu/packages/cJSON-v1.7.17/cJSON.c:1197-1270 | printing gives the text, or nothing when a node is invalid or the text too long |
| PrintBuffer.PrintBuffered | smart-building-mcu/packages/cJSON-v1.7.17/cJSON.c:1272-1300 | the first size of the buffer, which may be any positive one, does not matter for the result |
| PrintBuffer.PrintPreallocated | smart-building-mcu/packages/cJSON-v1.7.17/cJSON.c:1302-1319 | printing into the caller's buffer succeeds exactly when it has two bytes more than the text |
| PrintText.TextNoNul | smart-building-mcu/packages/cJSON-v1.7.17/cJSON.c:912-1031 | the text of a tree is a C string |
| RoundTrip.PrintLayout | smart-building-mcu/packages/cJSON-v1.7.17/cJSON.c:1377-1835 | the printed text is a layout of the tree: unformatted one without any blank outside the strings; formatted one with a space behind each comma of an array, a tab behind each colon, and a line for every member and every closing brace with as many tabs as containers are open there |
| StringLiteral.DecodeFits | smart-building-mcu/packages/cJSON-v1.7.17/cJSON.c:783-909 | for any bytes, even where the two scans group backslashes differently, the decoded bytes fit what the first scan reserves |
| StringLiteral.Fill | smart-building-mcu/packages/cJSON-v1.7.17/cJSON.c:829-888 | the second scan as a loop stays inside the reserved buffer, its terminator included, and follows `Decode` |
| StringLiteral.ParseStringLoop | smart-building-mcu/packages/cJSON-v1.7.17/cJSON.c:783-909 | both scans together follow `ParseString` |
| LiteralRoundTrip.QuotedParses | smart-building-mcu/packages/cJSON-v1.7.17/cJSON.c:783-1031 | `parse_string` inverts `print_string_ptr` on every NUL-free byte string, wherever the literal stands |
| Spelling.SpelledParses | smart-building-mcu/packages/cJSON-v1.7.17/cJSON.c:783-909 | every spelling of a string, each byte raw, as a two-byte escape (the slash included), or as `\uXXXX` or a pair of them, is read as the bytes that it stands for |
| Spelling.ParsedSpelling | smart-building-mcu/packages/cJSON-v1.7.17/cJSON.c:783-909 | whatever is read between two quotes is such a spelling, or one with a `\u` without four digits |
| Spelling.OrdinarySpelling | smart-building-mcu/packages/cJSON-v1.7.17/cJSON.c:783-909 | all spellings of RFC 8259 section 7 are among them |
| LiteralRoundTrip.IntParses | smart-building-mcu/packages/cJSON-v1.7.17/cJSON.c:310-384 | `parse_number` inverts `print_number` on every `int` that is followed by no numeral byte |
| Decimal.ValueDec | smart-building-mcu/packages/cJSON-v1.7.17/cJSON.c:575-578 | the decimal numeral of a number has its value |
| Utf16.Utf8Exact | smart-building-mcu/packages/cJSON-v1.7.17/cJSON.c:725-773 | the emitted bytes are the one and only UTF-8 encoding of the code point: a strict decoder (RFC 3629 section 3) accepts those and no other bytes for it |
| Utf16.Hex4Exact | smart-building-mcu/packages/cJSON-v1.7.17/cJSON.c:625-658 | four digits are read as a code unit exactly when they write it, the most significant digit first, in lower or upper case or a mix of both |
| Utf16.TranscodeForth | smart-building-mcu/packages/cJSON-v1.7.17/cJSON.c:662-780 | an escape or surrogate pair whose digits write the code units of a scalar value, most significant digit first, is turned into its UTF-8 encoding |
| Utf16.TranscodeBack | smart-building-mcu/packages/cJSON-v1.7.17/cJSON.c:662-780 | whatever is accepted, digits being digits, spells a scalar value (RFC 2781 section 2.2): lone and mismatched surrogates are rejected |
| Utf16.AcceptedExact | smart-building-mcu/packages/cJSON-v1.7.17/cJSON.c:662-780 | an escape is accepted exactly when it spells a scalar value or its first four digits are not all hexadecimal; of the accepted ones just those with hexadecimal digits spell one |
| Utf16.NonDigits | smart-building-mcu/packages/cJSON-v1.7.17/cJSON.c:625-658 | whenever the four digits are not all hexadecimal the escape counts as code point zero |
| Utf16.EncodeInto | smart-building-mcu/packages/cJSON-v1.7.17/cJSON.c:725-773 | the backward loop writes exactly the encoding |
| RoundTrip.PrintThenParse | smart-building-mcu/packages/cJSON-v1.7.17/cJSON.c:1105-1835 | a tree of null, booleans, `int`s, strings, arrays and objects, printed with or without formatting, parses back to itself with the same member order, to the end of the text, exactly when at most `CJSON_NESTING_LIMIT` containers are nested (RFC 8259 sections 2 to 7) |
| RoundTrip.ValueParses | smart-building-mcu/packages/cJSON-v1.7.17/cJSON.c:1322-1374 | the same wherever in a text the printed value stands, as long as no numeral byte follows |
| LayoutExact.ParseExact | smart-building-mcu/packages/cJSON-v1.7.17/cJSON.c:1322-1721 | the parser reads a tree at a place exactly when a layout of the tree stands there: blanks in front of and behind every token, strings in any spelling, integer numerals with leading zeros too, ended by what does not continue a numeral; and at most `CJSON_NESTING_LIMIT` containers are nested |
| LayoutExact.DocumentExact | smart-building-mcu/packages/cJSON-v1.7.17/cJSON.c:1105-1180 | a C string is accepted, the NUL insisted on, exactly when it is a layout of a tree between blanks, with a byte order mark or without; the tree is returned |
| LayoutParses.Accepted | smart-building-mcu/packages/cJSON-v1.7.17/cJSON.c:1322-1721 | every layout, RFC 8259 section 2 white space and section 7 spellings included, parses to its tree within the nesting limit |
| NestingLimit.ParseNesting | smart-building-mcu/packages/cJSON-v1.7.17/cJSON.c:1451-1721 | no text parses to a tree nested deeper than the limit |
| Parser.ParseValue | smart-building-mcu/packages/cJSON-v1.7.17/cJSON.c:1322-1374 | the mutual recursion terminates on every text; each success moves the offset strictly forward and keeps it within the text |
| ParserReads.ReadsInside | smart-building-mcu/packages/cJSON-v1.7.17/cJSON.c:783-793 | the parser comes to read behind a text of given length only if the text ends in a comma, and then has no tree; a C string is read inside its length |
| ParserReads.CommaAtEnd | smart-building-mcu/packages/cJSON-v1.7.17/cJSON.c:1643-1669 | it does read behind it when an object stops at the comma after a member |
| Parser.SkipSpace | smart-building-mcu/packages/cJSON-v1.7.17/cJSON.c:1048-1071 | skipping white space never goes back, and steps back onto the last byte instead of leaving the text |
| ParseBuffer.Buffer.Value | smart-building-mcu/packages/cJSON-v1.7.17/cJSON.c:1322-1374 | the parser that moves `offset` and `depth` in place follows `ParseValue`: same tree, same offset behind it or at the error, depth restored on success and never beyond the limit |
| ParseBuffer.Buffer.Array | smart-building-mcu/packages/cJSON-v1.7.17/cJSON.c:1451-1546 | the same for arrays, despite the step back in front of the loop |
| ParseBuffer.Buffer.ItemsLoop | smart-building-mcu/packages/cJSON-v1.7.17/cJSON.c:1485-1518 | the element loop follows `ParseItems` |
| ParseBuffer.Buffer.Object | smart-building-mcu/packages/cJSON-v1.7.17/cJSON.c:1611-1721 | the same for objects; what `ParseObject` accepts is said by `LayoutExact.ParseExact` |
| ParseBuffer.Buffer.MembersLoop | smart-building-mcu/packages/cJSON-v1.7.17/cJSON.c:1643-1694 | the member loop follows `ParseMembers` |
| ParseBuffer.Buffer.Number | smart-building-mcu/packages/cJSON-v1.7.17/cJSON.c:310-384 | the copied run of at most 63 numeral bytes and its conversion follow `ParseNumber` |
| ParseBuffer.Buffer.SkipWhitespace | smart-building-mcu/packages/cJSON-v1.7.17/cJSON.c:1048-1071 | the loop follows `SkipSpace` |
| WaitQueue.PlaceSorts | smart-building-mcu/rt-thread/src/ipc.c:83-129 | a priority queue stays sorted, and a newcomer waits in front of the less urgent only |
| WaitQueue.JoinStands | smart-building-mcu/rt-thread/src/ipc.c:83-129 | a thread joins a queue at the end (FIFO) or behind those that are as urgent as itself (PRIO), and nobody else moves |
| WaitQueue.WithoutLeaves | smart-building-mcu/rt-thread/src/ipc.c:788-801 | a thread that leaves a queue is gone, and the others keep their order |
| WaitList.Suspend | smart-building-mcu/rt-thread/src/ipc.c:83-129 | on the linked list: the thread is linked in at its place, in both flag modes, and all links stay a ring |
| WaitList.Resume | smart-building-mcu/rt-thread/src/ipc.c:140-153 | the first thread is unlinked, and linked to itself |
| WaitList.ResumeAll | smart-building-mcu/rt-thread/src/ipc.c:163-191 | every thread is unlinked, and linked to itself |
| WaitList.SuspendIsJoin | smart-building-mcu/rt-thread/src/ipc.c:83-153 | what suspending and resuming do on the linked list is what `Join` and dropping the first do on the queue of thread numbers that the kernel objects use |
| WaitList.InsertBefore | smart-building-mcu/rt-thread/include/rtservice.h:73-80 | insertion keeps the ring, with the node at its position |
| WaitList.Remove | smart-building-mcu/rt-thread/include/rtservice.h:86-92 | removal keeps the ring without the node |
| WaitList.Length | smart-building-mcu/rt-thread/include/rtservice.h:107-118 | the count is the number of nodes |
| MessageQueueSafety.StepKeeps | smart-building-mcu/rt-thread/src/ipc.c:2057-2546 | every event, of any thread, keeps the invariants: no slot in two places, no slot lost, no message overwritten, the wait queues exact, no wake-up lost |
| MessageQueueRuns.SlotPartition | smart-building-mcu/rt-thread/src/ipc.c:2057-2546 | in every reachable state each of the `max_msgs` slots is in exactly one of the free chain, the queue chain, one sender's hands, one receiver's hands |
| MessageQueueOrder.MessagesInOrder | smart-building-mcu/rt-thread/src/ipc.c:2057-2546 | after any run the queue holds what the calls alone say: every link puts the message that its thread asked to send last behind the others, or in front of them if it was an urgent send, every receive takes the first one, a reset drops all; `entry` is the length, at most `max_msgs`; a thread between two critical sections has in hand the message that it offered, or the one that was in front when it came |
| MessageQueueOrder.FirstInFirstOut | smart-building-mcu/rt-thread/src/ipc.c:2057-2485 | in any part of any run without a link of an urgent message and without a reset, what was in the queue and then what is linked is, in this order, what the receivers get and then what is left |
| MessageQueueOrder.UrgentFirst | smart-building-mcu/rt-thread/src/ipc.c:2245-2334 | an urgent message is got before everything that was in the queue when it was linked, and before everything ordinary linked later |
| MessageQueueOrder.Delivered | smart-building-mcu/rt-thread/src/ipc.c:2437-2456 | after any run, a receiver that has copied has as many bytes as its buffer and a slot have in common, and they are those of the message that was in front when it came, as it was offered, although it copies outside the critical sections |
| MessageQueueRuns.NobodyForgotten | smart-building-mcu/rt-thread/src/ipc.c:2198-2214 | once every resumed thread has run, receivers wait only on an empty queue and senders only without a free slot |
| MessageQueueCalls.LinkOutcome | smart-building-mcu/rt-thread/src/ipc.c:2172-2214 | a linked message is counted and wakes the first waiting receiver, and nobody else |
| MessageQueueCalls.ReleaseOutcome | smart-building-mcu/rt-thread/src/ipc.c:2458-2484 | a slot given back is free and wakes the first waiting sender, and nobody else |
| MessageQueueCalls.SendOutcome | smart-building-mcu/rt-thread/src/ipc.c:2057-2165 | a message longer than a slot is refused; a sender gets a slot that was free and is nobody else's; with none it waits at the end of the senders (FIFO) or behind those as urgent as itself (PRIO), or gives up; an urgent send never waits |
| MessageQueueCalls.RecvOutcome | smart-building-mcu/rt-thread/src/ipc.c:2338-2435 | a receiver gets the first message; with none it waits among the receivers, at the place that the flag gives it, or gives up |
| MessageQueueCalls.TimeoutOutcome | smart-building-mcu/rt-thread/src/ipc.c:2126-2165 | a thread whose time is up is in no queue afterwards; the others keep their order |
| MessageQueueCalls.ResetOutcome | smart-building-mcu/rt-thread/src/ipc.c:2507-2543 | a reset drops all messages, frees exactly their slots and sends all waiting threads away; slots in hands stay there |
| MessageQueueSafety.RoomToLink | smart-building-mcu/rt-thread/src/ipc.c:2187-2196 | with a slot in somebody's hands the queue is not full, so the overflow branch is never taken |
| MessageQueueRuns.SlotsInPool | smart-building-mcu/rt-thread/src/ipc.c:1888-1903 | the slots lie in the pool one behind the other without overlap, with the 16-bit fields taken into account |
| MessageQueueObject.Queue.constructor | smart-building-mcu/rt-thread/src/ipc.c:1863-1913 | the loop chains all slots, the last one first |
| MessageQueueObject.Queue.TakeFree | smart-building-mcu/rt-thread/src/ipc.c:2084-2165 | the first critical section follows `TakeSlot` |
| MessageQueueObject.Queue.Fill | smart-building-mcu/rt-thread/src/ipc.c:2167-2170 | writing outside the critical sections disturbs neither chain and no other thread's slot |
| MessageQueueObject.Queue.Link | smart-building-mcu/rt-thread/src/ipc.c:2172-2214 | linking at the tail follows `LinkSlot`, and never reports overflow |
| MessageQueueObject.Queue.LinkFront | smart-building-mcu/rt-thread/src/ipc.c:2284-2322 | linking at the head follows `LinkSlot`, and never reports overflow |
| MessageQueueObject.Queue.Unlink | smart-building-mcu/rt-thread/src/ipc.c:2360-2453 | taking the first message follows `TakeMessage`, the tail being cleared with the last one |
| MessageQueueObject.Queue.CopyMessage | smart-building-mcu/rt-thread/src/ipc.c:2455-2456 | the receiver gets at most a slot's worth of the bytes in its slot |
| MessageQueueObject.Queue.GiveBack | smart-building-mcu/rt-thread/src/ipc.c:2458-2484 | giving the slot back follows `ReleaseSlot` |
| MessageQueueObject.Queue.Reset | smart-building-mcu/rt-thread/src/ipc.c:2507-2543 | the loop gives all queued slots back and follows `Clean`, slots in hands staying where they are |
| MailboxOrder.MailsInOrder | smart-building-mcu/rt-thread/src/ipc.c:1511-1840 | after any run the mailbox is the bounded first-in-first-out queue that the calls alone describe: contents, mails sent and mails received since the last reset; `in_offset == (out_offset + entry) % size` |
| MailboxRuns.StepKeeps | smart-building-mcu/rt-thread/src/ipc.c:1511-1840 | every event, of any thread, keeps ring, wait queues and wake-ups intact: while receivers wait, `entry` is at most the number of receivers woken but not yet run, and dually for free places and senders |
| MailboxRuns.NobodyForgotten | smart-building-mcu/rt-thread/src/ipc.c:1622-1638 | once every resumed thread has run, receivers wait only on an empty mailbox and senders only on a full one |
| MailboxOrder.RecvOutcome | smart-building-mcu/rt-thread/src/ipc.c:1668-1796 | a receiver takes the oldest mail and wakes the first sender, and nobody else; on an empty mailbox it waits at the place that the flag gives it, or gives up |
| MailboxOrder.SendOutcome | smart-building-mcu/rt-thread/src/ipc.c:1511-1639 | a sender stores its mail behind the others and wakes the first receiver, and nobody else; on a full mailbox it waits at the place that the flag gives it, or gives up |
| MailboxOrder.TimeoutOutcome | smart-building-mcu/rt-thread/src/ipc.c:1555-1602 | a thread whose time is up is in no queue afterwards; the others keep their order, and no mail moves |
| MailboxRuns.RingPut | smart-building-mcu/rt-thread/src/ipc.c:1604-1615 | a mail stored at the input offset becomes the newest and touches no other |
| MailboxRuns.RingGet | smart-building-mcu/rt-thread/src/ipc.c:1761-1773 | the mail at the output offset is the oldest |
| MailboxObject.Box.Send | smart-building-mcu/rt-thread/src/ipc.c:1511-1639 | the code on the ring buffer follows `Put` |
| MailboxObject.Box.Recv | smart-building-mcu/rt-thread/src/ipc.c:1668-1796 | the code on the ring buffer follows `Get`, and returns the mail that it takes |
| MutexRuns.MutexSafe | smart-building-mcu/rt-thread/src/ipc.c:671-934 | after any run: value one, no owner and nothing held come together or not at all; the owner does not wait; the owner's takes exceed its releases by `hold`, every other thread's by nothing; whoever is not the owner has its own priority back |
| MutexRuns.InheritanceExact | smart-building-mcu/rt-thread/src/ipc.c:671-934 | the owner is in every reachable state at least as urgent as every waiter exactly when the flag is PRIO, or there are at most two threads, or all have the same priority |
| MutexRuns.TakeOutcome | smart-building-mcu/rt-thread/src/ipc.c:671-816 | a thread takes a mutex that is free or its own; else it waits at the place that the flag gives it, and the owner runs at the more urgent of both priorities, nobody else's priority changing; else nothing changes |
| MutexRuns.TimeoutOutcome | smart-building-mcu/rt-thread/src/ipc.c:783-801 | a thread whose time is up leaves the queue, the others keep their order, and nothing else changes |
| MutexRuns.Inversion | smart-building-mcu/rt-thread/src/ipc.c:827-934 | the run that shows it for a FIFO mutex: handed to a waiter, the mutex leaves a more urgent one waiting behind it |
| MutexRuns.StepKeeps | smart-building-mcu/rt-thread/src/ipc.c:671-934 | every event keeps ownership, counters, queue and restorable priorities |
| MutexObject.Lock.TakeMutex | smart-building-mcu/rt-thread/src/ipc.c:671-816 | the code follows the specified step; the overflow of `hold` is reported exactly at 255 |
| MutexObject.Lock.ReleaseMutex | smart-building-mcu/rt-thread/src/ipc.c:827-934 | the code follows the specified step; a thread that gives the mutex up runs at its own priority again |
| EventGroupRuns.NobodySleepsOver | smart-building-mcu/rt-thread/src/ipc.c:1082-1306 | after any run no suspended thread's AND or OR condition is met by the event set, and every thread that went on had its condition met at that moment and got the bits it asked for |
| EventGroupRuns.WalkLeavesUnmet | smart-building-mcu/rt-thread/src/ipc.c:1109-1160 | when a send is over nobody left waiting has its condition met, although those before it may have cleared bits |
| EventGroupRuns.WalkConsumes | smart-building-mcu/rt-thread/src/ipc.c:1109-1160 | bits that a resumed thread got and cleared are there for none resumed after it, and gone when the send is over |
| EventGroupRuns.WalkPreserves | smart-building-mcu/rt-thread/src/ipc.c:1109-1160 | bits that nobody got and cleared are still set when a send is over |
| EventGroupRuns.FirstMetGoesOn | smart-building-mcu/rt-thread/src/ipc.c:1109-1160 | the first waiter in the queue whose condition is met is the first to be resumed |
| EventGroupCalls.RecvOutcome | smart-building-mcu/rt-thread/src/ipc.c:1216-1290 | a receiver whose condition is met gets what it wants of the set and clears, with the CLEAR flag, exactly what it wants; else it waits at the place that the flag of the object gives it, or nothing changes |
| EventGroupCalls.SendOutcome | smart-building-mcu/rt-thread/src/ipc.c:1082-1171 | the sent bits join those that are set: in the end every bit that was set or sent and that nobody got and cleared is set, and no other; the first waiter whose condition both together meet is the first to go on; whoever goes on and whoever stays keep their order, and whoever stays has its condition unmet |
| EventGroupCalls.TimeoutOutcome | smart-building-mcu/rt-thread/src/ipc.c:1268-1290 | a thread whose time is up leaves the queue, the others keep their order, and no bit changes |
| EventGroupRuns.WalkSplits | smart-building-mcu/rt-thread/src/ipc.c:1109-1160 | every waiting thread is either resumed, once, or keeps waiting |
| EventGroupRuns.StepKeeps | smart-building-mcu/rt-thread/src/ipc.c:1082-1346 | every event keeps the invariants |
| EventGroupObject.Events.Send | smart-building-mcu/rt-thread/src/ipc.c:1082-1171 | the loop over the waiting threads follows `DoSend`, of which `EventGroupCalls.SendOutcome` says what it comes to |
| EventGroupWalk.WalkList | smart-building-mcu/rt-thread/src/ipc.c:1109-1160 | the same loop on the linked list, unlinking nodes while the pointer moves over it: who goes on, what is left of the set and of the list is what `WalkFrom` says, and the unlinked nodes are linked to themselves |
| EventGroupObject.Events.Recv | smart-building-mcu/rt-thread/src/ipc.c:1187-1306 | the code follows `DoRecv`; it succeeds at once exactly when the condition is met |
| MemoryPoolRuns.PoolPartition | smart-building-mcu/rt-thread/src/mempool.c:77-449 | after any run, whatever was written into the blocks: each block is on the free chain, once, or handed out with its header naming the pool; the chain in memory is the one described; the free count is its length; no wake-up is lost |
| MemoryPoolRuns.NoDoubleHandOut | smart-building-mcu/rt-thread/src/mempool.c:371-390 | a block handed out was not out already, lies inside the region, and overlaps no block that is out; only its header is written |
| MemoryPoolRuns.TimeoutOutcome | smart-building-mcu/rt-thread/src/mempool.c:342-366 | a thread whose time is up leaves the queue, the others keep their order, and the blocks stay as they are |
| MemoryPoolRuns.InitInside | smart-building-mcu/rt-thread/src/mempool.c:110-119 | initialisation writes inside the region exactly when the region has room for a block; with none it writes in front of it |
| MemoryPoolRuns.StepKeeps | smart-building-mcu/rt-thread/src/mempool.c:303-449 | every event keeps the invariants, writes of users into their blocks included |
| MemoryPoolObject.Pool.constructor | smart-building-mcu/rt-thread/src/mempool.c:77-124 | aligning both sizes, counting the blocks, the loop over the headers and the write behind it leave the chain of all blocks |
| MemoryPoolObject.Pool.Alloc | smart-building-mcu/rt-thread/src/mempool.c:303-391 | the code on the region follows `DoAlloc`, and returns the address behind the header |
| MemoryPoolObject.Pool.Free | smart-building-mcu/rt-thread/src/mempool.c:399-449 | the code on the region follows `DoFree`; NULL is ignored |

## Single steps

Beside the rows above, these read off what one step does; their proofs are short.

- JSON Patch: `PatchLaws.CopyIsAdd`, `PatchLaws.MoveIsRemoveAndAdd`, `PatchLaws.ReplaceIsRemoveAndAdd` (sections 4.3 to 4.5 of RFC 6902, off the root where that matters), `PatchLaws.TestSorts`, and `PointerLookup.LetterInIndex`.
- Pointers and strings: `PointerSteps.ScalarStep` (nothing lies below a node without children), `LiteralRoundTrip.PrintedForm` (which bytes are printed with a two-byte escape, which with four digits).
- Patches at the root: `PatchOperations.AtTheRoot`.
- Kernel objects: `MessageQueueCalls.FillOutcome`, `MailboxOrder.ResetOutcome`, `MailboxOrder.PriorityOutcome`, `EventGroupCalls.ResetOutcome`, `MutexRuns.ReleaseOutcome` and `MutexRuns.HandOver` (an inner and the last release, with the priority that is restored and the thread that is handed the mutex), `MemoryPoolRuns.AllocWaits`, `MemoryPoolRuns.FreeOutcome`, `MemoryPoolRuns.CountFits`.

## Left out

- Floating point: numbers are integers of the `int` range (`Json.Int`), on which `valuedouble` and `valueint` agree. A numeral that is not an integer of the `int` range is the outcome `Foreign` of the parser; what `strtod`, `%1.15g` and the tolerance of `compare_double` make of it is not modelled.
- Raw nodes, references, constant keys, allocator hooks and failing allocations: memory requests succeed.
- LinkedTree.Document.Apply: the tree is a value that each patch replaces, with one link recorded per object; aliasing inside `apply_patch` is not modelled, the list operations on nodes are (`SiblingList`). An append through a link to a node that has left its list is the outcome `Undefined`, also where that node is still allocated, as the one that a MOVE is about to add: there the code writes to it, reports status 0 and loses the member.
- LinkedTree.Document.Apply: a MOVE whose "from" is not a string fails with status 5, where the code would pass a NULL pointer on.
- PatchRoundTrip.PatchRoundTripExact: the document is a value without links, which stands for a deep copy; `LinkedRoundTrip.LinkedRoundTripExact` says the same with them.
- Parser.ParseValue: a trailing comma at the very end of the text is an error; what the byte behind the text, which the code looks at there, leads to is not modelled (`ParserReads` says when it is looked at). Names left on array elements are not modelled, and the list that the parser links is a sequence.
- PrintBuffer.PrintBuffered: a first size of zero with an allocator that cannot reallocate is excluded.
- Compare.Duplicate: the copy is a value; that its nodes are new is stated for one level of nodes, by `SiblingList.Container.Duplicate`.
- LinkedGeneration.MergesAfterGenerationExact: for keys that both orders sort alike, as the merge round trip needs them; on other keys `LinkedMerge.EveryMergeExact` still decides from the links that are left.
- PointerLookup.PointerRoundTrip: arrays are shorter than the range of `size_t`.
- The minifier, the builders `cJSON_Add...` and `cJSON_Create...`, and the getters: easy beside the rest.
- The scheduler, the timer and thread control: suspending, resuming and timing out are steps; a thread whose time is up while it is about to look again is the choice `wait == false`.
- Wait queue flags other than FIFO and PRIO, for which `rt_ipc_list_suspend` links the thread nowhere.
- Detaching and deleting kernel objects while they are in use; `rt_mq_create`, `rt_mb_create` and `rt_mp_create`, which differ from the `init` functions in where the memory comes from.
- The semaphore: its counter and wake-up are those of the mailbox without the ring.
- MutexRuns.InheritanceExact: one mutex, and priorities that nothing else changes; several mutexes held by one thread share no record of the priority to restore.
- EventGroupObject.Events.Recv: an option without AND and OR is asserted against in `rt_event_recv`, so the branch of `rt_event_send` that reports it is never reached and not modelled.
- MemoryPoolObject.Pool.constructor: sizes near the top of the 32-bit range, where aligning overflows; a region without room for a block (`MemoryPoolRuns.InitInside`).
- MemoryPoolObject.Pool.Free: freeing a block that was not handed out, or whose header its user overwrote; the code cannot tell, and follows the word in front of the address.
- The rest of the firmware: drivers, board files, network and sensor code.
