# Proofs about the Alveo driver stack

A Dafny model of the parts of the repository whose correctness depends on byte-
or step-level reasoning, and proofs of what those parts promise.

**Flattened device trees (`Fdt*.dfy`).** A blob is a header and a byte buffer
(`FdtBlob.Blob`, edited in place). `FdtFormat` relates the bytes of a version-17
structure block to an item list that still has NOPs and the sizes of all items
(`Forest`);
`FdtTree` relates that to an abstract ordered tree (`Dt`) through the strings block.
Each libfdt operation is a method on the blob, proved to be the intended edit of the
tree: reading and walking (`Fdt`, `FdtRo`, `FdtWalk`, `FdtPath`, `FdtDescend`,
`FdtSearch`), splicing edits (`FdtEdits`, `FdtOrder`, `FdtRw`, `FdtPack`), NOP edits
(`FdtWip`), the sequential writer (`FdtSw`, `FdtSwFinish`), merging (`FdtMerge`,
`FdtMergeLaws`, `FdtMergeTwice`, `FdtCost`, `FdtOverlay`, `FdtFragments`), phandle
relocation (`FdtPhandle`, `FdtShift`, `FdtShape`, `FdtFixups`, `FdtFits`, `FdtLinks`,
`FdtRelocate`); `FdtSamples` has concrete bytes, paths and names. A blob parameter comes with a ghost
parameter that names the item list it holds; `HoldsUnique` says there is only one.

**Metadata and groups (`Metadata`, `Endpoint*`, `Group`).** The driver's own limits
on merging, endpoint search, copy and delete, and cutting per-driver trees out of a
group's tree so that no endpoint is lost or handed out twice.

**QSPI flash (`Bits`, `Qspi`).** A device that erases pages and only clears bits,
and the driver that turns an arbitrary write into erases, read-modify-writes and
FIFO-sized commands; the specification is a splice of a byte sequence.

**Protocols as steps.** The mailbox channel and its packets (`MailboxChan`,
`Mailbox`), the subdevice pool with holders and a removal wait (`Subdev`), the root
driver's teardown and bring-up (`Xroot`, `Bringup`). Lemmas range over all runs of
atomic steps; the methods of the classes are the steps, proved against the same
functions.

## Where the code does not do what one would expect

- `Fdt.TagCanStall`, `Fdt.TagAdvancesIff`: a property length of 2^32 - 12 makes the tag walk stand still.
- `FdtSw.StringRoomIff`: the unsigned room check of the sequential writer is right exactly while name and strings do not exceed the buffer.
- `FdtMergeLaws.MergeTwiceDiffers`: "f" finds a later "f@", so merging twice can differ from merging once.
- `FdtPath.TwinLost`: "f" behind "f@1" is not reached by its own path.
- `FdtMergeTwice.AcrossSiblings`: merging twice can differ although no name finds a later sibling, once one finds an earlier.
- `FdtPath.SupernodeAtDepth`: the offset right behind the root is answered with NOTFOUND, unlike every other offset that is no node.
- `FdtWip.GuardPassed`, `FdtFixups.UnguardedFixup`: an offset within four bytes of 2^32 passes the guard of an in-place write, so an overlay's fixups can reach outside a value.
- `Qspi.ClampIff`: offset bits 32 to 55 are ignored by the validity check but not by the clamp.
- `Qspi.StaleSelect`, `Qspi.StaleWrite`: a sector select that fails after the device carried it out leaves the driver with the wrong idea of the device's sector, and a later write can succeed in another sector.
- `Mailbox.EmptyTwice`, `Mailbox.EmptyNeverSent`: a message of length zero can be started twice, or completed without ever being sent.
- `Mailbox.OneByteTwoPackets`: a channel that turns ready between two looks at its status sends extra empty end packets, which the receiver ignores.
- `Mailbox.StrayIff`: a response numbered INVALID_MSG_ID completes the first waiting message, whatever its id.
- `Mailbox.SixRequests`, `Mailbox.HandedIff`: a request received without error is dropped while five are pending.
- `MailboxChan.FreedWhileCurrent`: a failed request frees the response's message although the receive channel is filling it.
- `FdtPath.GetPath`: at or behind the end of the root the walk reads in front of the path buffer.
- `Subdev.SameMatchIff`: a get by kind and instance takes the last match of the list, a removal the first.
- `Subdev.KillUnlinksHeld`: a killed remover unlinks a subdevice that is still held.
- `Bringup.EarlyAnswer`: the waiter can be told that nothing failed while a failed creation is being counted.
- `Bringup.NeverWoken`: a creation that fails last brings the pending counter to zero without waking the waiter.
- `EndpointCut.PutBackIff`, `EndpointCut.FiveLevels`: an endpoint nested to the depth limit can be cut out of a group but not be put back, and the result of putting back is ignored.
- `FdtLinks.ApartFromBase`: an overlay phandle of 0 becomes the base tree's largest phandle.

## Model

| member | source | states |
|---|---|---|
| FdtFormat.AtUnique | src/scripts/dtc/libfdt/fdt.c:153-205 | a structure block read from one place and closed by END_NODE or END encodes exactly one item list: "the tree in the blob" is well defined |
| FdtFormat.AtMoves | src/scripts/dtc/libfdt/fdt_rw.c:54-68 | the encoding of a list depends on its own bytes only, so a memmove carries it along, whatever the pad bytes are |
| FdtFormat.TagAtForest | src/scripts/dtc/libfdt/fdt.c:153-205 | on an encoded list one tag step lands exactly on the next item, the first child, or behind the NOP |
| FdtSamples.SampleBlock | src/scripts/dtc/libfdt/fdt.h:36-58 | 48 concrete bytes are the structure block of a concrete tree: tag numbers, byte order, padding, and the order of the words of a property |
| FdtSamples.SampleNames | src/scripts/dtc/libfdt/fdt_ro.c:13-32 | concrete names that answer to each other and that do not |
| FdtSamples.SamplePaths | src/scripts/dtc/libfdt/fdt_ro.c:540-590 | the paths of the two nodes of that tree, letter by letter |
| FdtSamples.Spelled | src/scripts/dtc/libfdt/fdt_overlay.c:90-342 | the names of the properties and nodes that the code looks for, letter by letter |
| Fdt.NextTag | src/scripts/dtc/libfdt/fdt.c:153-205 | fdt_next_tag on any bytes, truncated and malformed ones included, with the 32-bit sum of the length word kept |
| Fdt.TagAdvancesIff | src/scripts/dtc/libfdt/fdt.c:183-197 | a successful tag step moves forward if and only if it is not a property whose length word makes the 32-bit sum wrap to zero |
| Fdt.TagCanStall | src/scripts/dtc/libfdt/fdt.c:183-197 | a concrete property on which the tag walk stays where it is |
| Fdt.NextNode | src/scripts/dtc/libfdt/fdt.c:227-265 | the next BEGIN_NODE of a walk over the tree, the depth, and where and how the walk ends; the error of the offset check at an offset that is no node |
| Fdt.FirstSubnode | src/scripts/dtc/libfdt/fdt.c:267-276 | the first child in the item list of the node, NOTFOUND if there is none |
| Fdt.NextSubnode | src/scripts/dtc/libfdt/fdt.c:278-293 | the next sibling node, however deep the subtree in between |
| Fdt.ForEachSubnode | src/scripts/dtc/libfdt/fdt.c:267-293 | first and repeated next visit exactly the offsets of the direct children, in order, for trees of any depth with NOPs anywhere |
| Fdt.FindString | src/scripts/dtc/libfdt/fdt.c:295-305 | the first place of the strings block at which the terminated string is stored, and failure exactly if there is none |
| FdtBlob.HoldsUnique | src/scripts/dtc/libfdt/fdt_ro.c:392-420 | one blob holds one tree |
| FdtBlob.Splice | src/scripts/dtc/libfdt/fdt_rw.c:54-68 | an in-place splice moves all used bytes behind it and nothing else, or fails exactly when the result would not fit |
| FdtBlob.SpliceStruct | src/scripts/dtc/libfdt/fdt_rw.c:83-95 | a splice of the structure block moves the tail and the strings, adjusts both header fields, and keeps strings and reserve map |
| FdtTree.ViewPut | src/scripts/dtc/libfdt/fdt_rw.c:54-95 | replacing the rest of an item list at an offset is the corresponding edit of the abstract tree at the path of that offset |
| FdtTree.SplicePut | src/scripts/dtc/libfdt/fdt_rw.c:54-95 | splicing the bytes of an item list in the middle of the structure block gives an encoding of the edited tree |
| FdtTree.ViewExtends | src/scripts/dtc/libfdt/fdt_rw.c:127-153 | appending strings changes no property name |
| FdtRo.GetString | src/scripts/dtc/libfdt/fdt_ro.c:34-96 | a string of the strings block; BADOFFSET exactly for an offset outside the block, TRUNCATED exactly when no terminator follows |
| FdtRo.GetName | src/scripts/dtc/libfdt/fdt_ro.c:298-334 | the name of a node, or the error of the offset check |
| FdtRo.GetProperty | src/scripts/dtc/libfdt/fdt_ro.c:392-420 | the first property of that name in front of the children, NOTFOUND exactly if there is none |
| FdtRo.SubnodeOffset | src/scripts/dtc/libfdt/fdt_ro.c:223-240 | the first child whose name matches, with the unit address left out or not |
| FdtEdits.PropFound | src/scripts/dtc/libfdt/fdt_ro.c:392-420 | the offset lookup and the lookup by name in the tree agree, and writing or removing there is the tree edit |
| FdtEdits.ChildFound | src/scripts/dtc/libfdt/fdt_ro.c:223-240 | the offset lookup of a child and the lookup by name in the tree agree |
| FdtOrder.LookupOrder | src/scripts/dtc/libfdt/fdt_ro.c:223-420 | in the lists of properties and children a lookup takes the first of that name, or the first that answers to it |
| FdtOrder.SetPropOrder | src/scripts/dtc/libfdt/fdt_rw.c:258-289 | setting a property overwrites it in its place, or puts it first; children stay |
| FdtOrder.DelPropOrder | src/scripts/dtc/libfdt/fdt_rw.c:318-331 | deleting takes the first property of that name out; the others keep their order |
| FdtOrder.AddChildOrder | src/scripts/dtc/libfdt/fdt_rw.c:333-372 | a new child comes before the others, with nothing in it |
| FdtPath.SupernodeAtDepth | src/scripts/dtc/libfdt/fdt_ro.c:592-628 | the enclosing node at that depth, and the depth of the node; for an offset that is no node BADOFFSET before the end of the root, BADSTRUCTURE behind it, and NOTFOUND right at it |
| FdtPath.NodeDepth | src/scripts/dtc/libfdt/fdt_ro.c:630-640 | the number of nodes around the node, or the same errors |
| FdtPath.ParentOffset | src/scripts/dtc/libfdt/fdt_ro.c:642-650 | the innermost enclosing node, NOTFOUND for the root, or the same errors |
| FdtPath.ParentOfChild | src/scripts/dtc/libfdt/fdt_ro.c:592-650 | each child that the enumeration visits has the node it was enumerated from as its parent, one level deeper |
| FdtPath.GetPath | src/scripts/dtc/libfdt/fdt_ro.c:540-590 | writes the path and returns 0 exactly when the buffer holds the path and its terminator (at least 2 bytes), however long names off the way are, else NOSPACE; BADOFFSET for an offset that is no node; and the walk stays inside the buffer if and only if the buffer is smaller than 2 or the offset is in front of the end of the root |
| FdtPath.PathOffset | src/scripts/dtc/libfdt/fdt_ro.c:248-296 | follows the components of an absolute path from the root, runs of slashes counting as one |
| FdtDescend.FollowDescends | src/scripts/dtc/libfdt/fdt_ro.c:248-291 | a path is found exactly when its components lead from child to child, each the first that answers, and then that node is; else the answer is NOTFOUND |
| FdtDescend.ComponentsWritten | src/scripts/dtc/libfdt/fdt_ro.c:268-284 | the components of a written path are what it was written from; empty ones do not count |
| FdtDescend.SampleComponents | src/scripts/dtc/libfdt/fdt_ro.c:268-284 | "/a//b/" has the components "a" and "b" |
| FdtPath.PathRoundTrip | src/scripts/dtc/libfdt/fdt_ro.c:248-291 | for one node: fdt_path_offset of its path is that node if and only if each node on the way is the one its parent finds by that name |
| FdtPath.AllRoundTrip | src/scripts/dtc/libfdt/fdt_ro.c:248-291 | for the whole tree, by names alone: every node is reached by its path if and only if no node answers to the name of a later sibling, at any level |
| FdtPath.TwinLost | src/scripts/dtc/libfdt/fdt_ro.c:13-32 | a concrete tree in which "f" behind "f@1" is not reached by its path |
| FdtPath.ClearIsFound | src/scripts/dtc/libfdt/fdt_ro.c:13-32 | with sibling names that do not answer to each other every node is found by its name, so the round trip holds for all nodes |
| FdtPath.FollowIff | src/scripts/dtc/libfdt/fdt_ro.c:248-291 | from any node down to a descendant: its components lead there exactly when each step finds its node |
| FdtRw.FindAddString | src/scripts/dtc/libfdt/fdt_rw.c:127-153 | a known name is shared, else it is appended; without room nothing changes |
| FdtRw.ResizeProperty | src/scripts/dtc/libfdt/fdt_rw.c:184-200 | an existing value gets the new length in place; the rest of the tree keeps its meaning |
| FdtRw.AddProperty | src/scripts/dtc/libfdt/fdt_rw.c:202-233 | a new property goes in front; without room the added string is taken back |
| FdtRw.DelLastString | src/scripts/dtc/libfdt/fdt_rw.c:98-103 | undoes the last string that was added |
| FdtRw.SetPropPlaceholder | src/scripts/dtc/libfdt/fdt_rw.c:258-274 | succeeds exactly when the growth fits; on failure structure, strings and header are as before |
| FdtRw.SetProp | src/scripts/dtc/libfdt/fdt_rw.c:276-289 | the tree with exactly that property set, overwritten in place or inserted first; NOSPACE exactly when it does not fit, and then nothing changed, rolled-back string included |
| FdtRw.DelProp | src/scripts/dtc/libfdt/fdt_rw.c:318-331 | the tree without exactly that property, or NOTFOUND |
| FdtRw.AddSubnode | src/scripts/dtc/libfdt/fdt_rw.c:333-372 | a new empty first child at the returned offset, EXISTS exactly if a child answers to the name, NOSPACE exactly if it does not fit, else nothing changed |
| FdtRw.DelNode | src/scripts/dtc/libfdt/fdt_rw.c:379-391 | the tree without exactly that node; structure size and strings offset shrink by its size |
| FdtRw.AddThenDel | src/scripts/dtc/libfdt/fdt_rw.c:333-391 | deleting the node that was just added restores the structure and strings blocks byte for byte and the header |
| FdtPack.Pack | src/scripts/dtc/libfdt/fdt_rw.c:480-492 | the overlapping in-place moves keep reserve map, structure and strings, and the total size becomes 40 plus the three block sizes |
| FdtPack.PackBlocks | src/scripts/dtc/libfdt/fdt_rw.c:393-413 | the three moves in order leave each block where the header says, with its contents |
| FdtPack.NumMemRsv | src/scripts/dtc/libfdt/fdt_ro.c:187-197 | the number of entries in front of the terminating one |
| FdtPack.RsvCountIs | src/scripts/dtc/libfdt/fdt_ro.c:187-197 | what is counted in a map of written entries is the entries in front of the first whose size is 0, whatever the addresses |
| FdtWip.NodeEndOffset | src/scripts/dtc/libfdt/fdt_wip.c:73-81 | the offset just behind a node |
| FdtWip.NopProperty | src/scripts/dtc/libfdt/fdt_wip.c:59-71 | the same parsed tree as deleting the property, without moving anything |
| FdtWip.NopNode | src/scripts/dtc/libfdt/fdt_wip.c:83-94 | the same parsed tree as deleting the node, without moving anything |
| FdtWip.NopKeepsOffsets | src/scripts/dtc/libfdt/fdt_wip.c:51-94 | every item other than the one overwritten keeps its offset, kind, name and value |
| FdtWip.SetPropInplacePartial | src/scripts/dtc/libfdt/fdt_wip.c:13-31 | overwrites part of a value, NOSPACE exactly if the part does not fit inside it, wherever the unsigned guard is right; everything else stays |
| FdtWip.GuardIff | src/scripts/dtc/libfdt/fdt_wip.c:26-27 | the guard with its 32-bit unsigned sum agrees with the true comparison if and only if the sum does not wrap or wraps to more than the length of the value |
| FdtWip.GuardPassed | src/scripts/dtc/libfdt/fdt_wip.c:26-27 | an offset of 2^32 - 4 passes the guard for every value |
| FdtSw.CreateWithFlags | src/scripts/dtc/libfdt/fdt_sw.c:109-141 | an empty blob in the reserve-map state, NOSPACE for a buffer smaller than a header |
| FdtSw.AddReservemapEntry | src/scripts/dtc/libfdt/fdt_sw.c:185-203 | address and size as big-endian 64-bit words behind the entries there are, or NOSPACE with nothing changed |
| FdtSw.FinishReservemap | src/scripts/dtc/libfdt/fdt_sw.c:205-214 | closes the map with an entry of zeros and starts the structure |
| FdtSw.GrabSpace | src/scripts/dtc/libfdt/fdt_sw.c:94-107 | room between the structure growing up and the strings growing down, or none |
| FdtSw.BeginNode | src/scripts/dtc/libfdt/fdt_sw.c:216-231 | one BEGIN_NODE call more, all earlier ones kept |
| FdtSw.EndNode | src/scripts/dtc/libfdt/fdt_sw.c:233-245 | one END_NODE call more |
| FdtSw.StringRoomIff | src/scripts/dtc/libfdt/fdt_sw.c:247-262 | the unsigned comparison reports a lack of room exactly when there is none, if and only if the name and the stored strings do not exceed the buffer |
| FdtSw.AddString | src/scripts/dtc/libfdt/fdt_sw.c:247-262 | the string in front of the others, addressed by its distance from the end, or 0 |
| FdtSw.FindAddString | src/scripts/dtc/libfdt/fdt_sw.c:273-288 | shares a stored name |
| FdtSw.OpsPrepend | src/scripts/dtc/libfdt/fdt_sw.c:247-262 | names counted from the end of the buffer keep their meaning while strings are added in front of them |
| FdtSw.PropertyPlaceholder | src/scripts/dtc/libfdt/fdt_sw.c:290-320 | one property call with room for its value, or NOSPACE with the added string taken back |
| FdtSw.Property | src/scripts/dtc/libfdt/fdt_sw.c:322-332 | one property call more |
| FdtSw.ReadBack | src/scripts/dtc/libfdt/fdt_sw.c:334-381 | the calls that write a tree, finished, encode that tree, with or without shared names |
| FdtSwFinish.CorrectNames | src/scripts/dtc/libfdt/fdt_sw.c:353-373 | the loop turns every name offset from end-relative into start-relative and changes no other byte |
| FdtSwFinish.Finish | src/scripts/dtc/libfdt/fdt_sw.c:334-381 | END, relocation of the strings, corrected names and the final header give a well-formed blob of what was written |
| FdtSwFinish.FinishedTree | src/scripts/dtc/libfdt/fdt_sw.c:334-381 | a finished script of one whole node is a blob whose meaning is that node |
| FdtSwFinish.WriteAll | src/scripts/dtc/libfdt/fdt_sw.c:109-332 | reserve entries, then any nested script of calls, succeed exactly when all fits, with names stored once each or at each use according to the flags; what is written is exactly these entries and the script |
| FdtSwFinish.WriteTree | src/scripts/dtc/libfdt/fdt_sw.c:109-381 | create, reserve entries, all calls of a tree and finish succeed exactly when everything fits, in either name mode; reading the result gives exactly that tree, those entries, and their count |
| FdtSwFinish.NamesSize | src/scripts/dtc/libfdt/fdt_sw.c:247-288 | unshared names take their lengths at each use, shared ones never more |
| FdtSwFinish.NamesAllIn | src/scripts/dtc/libfdt/fdt_sw.c:247-262 | the unsigned room check is right throughout when all names together are not longer than the buffer, and so whenever everything fits |
| FdtSwFinish.OpenInPlace | src/scripts/dtc/libfdt/fdt_rw.c:415-478 | opening an ordered version-17 blob for editing keeps its meaning and takes the whole buffer |
| FdtSwFinish.CreateEmptyTree | src/scripts/dtc/libfdt/fdt_empty_tree.c:13-38 | a blob with an empty root, all of the buffer available |
| FdtOverlay.ApplyProps | src/scripts/dtc/libfdt/fdt_overlay.c:562-579 | the property loop sets every property of the overlay node, and must succeed when there is room for them |
| FdtOverlay.ApplyChild | src/scripts/dtc/libfdt/fdt_overlay.c:581-597 | one subnode found or created, then merged into, although both shift offsets; must succeed when there is room |
| FdtOverlay.ApplyKids | src/scripts/dtc/libfdt/fdt_overlay.c:581-600 | the subnode loop |
| FdtOverlay.ApplyNode | src/scripts/dtc/libfdt/fdt_overlay.c:556-601 | on success the target is the recursive merge; it must succeed when what the overlay can need fits; without room the blob is still well formed and only that node changed |
| FdtMergeLaws.MergeByPath | src/scripts/dtc/libfdt/fdt_overlay.c:556-601 | the merge by lookup: a node exists when it exists in either tree, and a property is the last the overlay gives it where the overlay has it, else the base's |
| FdtMergeLaws.MergeIdempotent | src/scripts/dtc/libfdt/fdt_overlay.c:556-601 | with names that answer to one thing in overlay and base, merging the same overlay twice gives the same tree as once, repeated properties included |
| FdtMergeLaws.MergeTwiceDiffers | src/scripts/dtc/libfdt/fdt_ro.c:26-29 | without them it does not: a concrete overlay in which "f" finds a later "f@" |
| FdtMergeTwice.IdempotentIff | src/scripts/dtc/libfdt/fdt_overlay.c:556-601 | for overlays whose names find no earlier sibling, merged into an empty tree: twice is the same as once, whatever properties the nodes have, if and only if no name finds a later sibling |
| FdtMergeTwice.AcrossSiblings | src/scripts/dtc/libfdt/fdt_overlay.c:556-601 | a concrete overlay in which a name finds an earlier sibling: no name finds a later one in its own list, yet merging twice differs |
| FdtFragments.GetTargetPhandle | src/scripts/dtc/libfdt/fdt_overlay.c:28-41 | the phandle of a fragment, 0 without one, all ones for a malformed one |
| FdtFragments.NodeOffsetByPhandle | src/scripts/dtc/libfdt/fdt_ro.c:679-702 | the first node with that phandle |
| FdtFragments.GetTarget | src/scripts/dtc/libfdt/fdt_overlay.c:58-100 | the node the fragment names by phandle or else by path, an error exactly if there is none |
| FdtFragments.PathPlaceIs | src/scripts/dtc/libfdt/fdt_ro.c:248-291 | a path followed by offsets in the blob and by names in the tree ends at the same node |
| FdtFragments.SearchPlaceIs | src/scripts/dtc/libfdt/fdt_ro.c:679-702 | a search by offsets and the search in the tree stop at the same node |
| FdtFragments.MergeFragment | src/scripts/dtc/libfdt/fdt_overlay.c:618-648 | one fragment: skipped without an overlay node, else merged into its target; must succeed when there are a target and room |
| FdtFragments.MergeOverlay | src/scripts/dtc/libfdt/fdt_overlay.c:618-648 | on success all fragments are merged in order, each into the node it names in the tree as it is by then; a fragment without a target makes it fail; it must succeed when all have targets and there is room |
| FdtFragments.StagesIff | src/scripts/dtc/libfdt/fdt_overlay.c:618-648 | merging gives a tree exactly when there is one tree after each fragment, in which each fragment that has an overlay node has its target in the tree before and is merged there |
| FdtFragments.TargetHas | src/scripts/dtc/libfdt/fdt_overlay.c:58-84 | a fragment that names a phandle has a target exactly when a node of the tree has it, and then that node |
| FdtPhandle.GetPhandle | src/scripts/dtc/libfdt/fdt_ro.c:506-521 | the phandle of a node, from either property, or 0 |
| FdtPhandle.PhandleSet | src/scripts/dtc/libfdt/fdt_ro.c:506-521 | what is read is what was last set as "phandle", else as "linux,phandle", else 0 |
| FdtPhandle.SetThenGet | src/scripts/dtc/libfdt/fdt_ro.c:506-521 | fdt_setprop of a phandle under either name, then fdt_get_phandle of the node |
| FdtPhandle.FindMaxPhandle | src/scripts/dtc/libfdt/fdt_ro.c:112-138 | the largest phandle of all nodes |
| FdtPhandle.MaxBounds | src/scripts/dtc/libfdt/fdt_ro.c:112-138 | no node has a larger one |
| FdtLinks.HasIff | src/scripts/dtc/libfdt/fdt_ro.c:679-702 | a phandle other than 0 is one that a node answers to exactly when a node carries it |
| FdtShift.PhandleAddOffset | src/scripts/dtc/libfdt/fdt_overlay.c:116-139 | succeeds exactly when the value is one word and the sum neither wraps nor is all ones |
| FdtShift.ShiftNode | src/scripts/dtc/libfdt/fdt_overlay.c:156-168 | both phandle properties of one node |
| FdtShift.AdjustNodePhandles | src/scripts/dtc/libfdt/fdt_overlay.c:156-177 | succeeds exactly when every phandle at and below the node can be shifted; then all are, and nothing else changed |
| FdtFits.AdjustableIff | src/scripts/dtc/libfdt/fdt_overlay.c:116-177 | every phandle can be shifted exactly when, at each place of the tree, "phandle" and "linux,phandle" are words whose sum with the offset stays below 2^32 - 1 |
| FdtFixups.FixCells | src/scripts/dtc/libfdt/fdt_overlay.c:225-278 | the cells one fixup property lists, in place, BADOVERLAY exactly when they do not fit the value, for offsets the guard compares rightly |
| FdtFixups.SmallGuarded | src/scripts/dtc/libfdt/fdt_overlay.c:246-277 | the guard is right throughout for fixups without an offset of 2^32 - 4 or more, whatever the tree |
| FdtFixups.UnguardedFixup | src/scripts/dtc/libfdt/fdt_overlay.c:246-277 | a one-word fixup for which it is not: the cell is outside every value, and the guard lets it pass |
| FdtFixups.FixNode | src/scripts/dtc/libfdt/fdt_overlay.c:225-278 | the fixup properties of one node |
| FdtFixups.FixSubnode | src/scripts/dtc/libfdt/fdt_overlay.c:280-302 | the child of the same name is updated by the fixup child |
| FdtFixups.UpdateNodeReferences | src/scripts/dtc/libfdt/fdt_overlay.c:220-305 | every listed cell is shifted and nothing else; fails exactly when the fixups do not fit the tree |
| FdtFits.FixIff | src/scripts/dtc/libfdt/fdt_overlay.c:220-305 | the references can be updated exactly when each fixup property is about a property the node has and whole words inside it, and each fixup child about a child; the offset does not matter, and no name or length changes |
| FdtRelocate.UpdateLocalReferences | src/scripts/dtc/libfdt/fdt_overlay.c:324-342 | from the root; an overlay without fixups stays as it is |
| FdtRelocate.Relocate | src/scripts/dtc/libfdt/fdt_overlay.c:829-849 | the first steps of fdt_overlay_apply: succeed exactly when every phandle can be shifted by the base's maximum and the fixups fit |
| FdtLinks.FixedCell | src/scripts/dtc/libfdt/fdt_overlay.c:246-262 | a listed cell holds the sum modulo 2^32 |
| FdtLinks.OtherBytes | src/scripts/dtc/libfdt/fdt_overlay.c:246-277 | bytes in no listed cell stay |
| FdtLinks.FixFacts | src/scripts/dtc/libfdt/fdt_overlay.c:220-305 | every reference the fixups list has the offset added, once, and no phandle changes |
| FdtLinks.AdjustRefs | src/scripts/dtc/libfdt/fdt_overlay.c:156-177 | shifting the phandles leaves every listed reference as it is |
| FdtLinks.LinksKept | src/scripts/dtc/libfdt/fdt_overlay.c:116-342 | after both passes a listed reference equals a node's phandle if and only if it did before |
| FdtLinks.ApartFromBase | src/scripts/dtc/libfdt/fdt_overlay.c:834-845 | with the base's maximum added an overlay phandle is a phandle of the base if and only if it was 0 |
| FdtLinks.ListedTwice | src/scripts/dtc/libfdt/fdt_overlay.c:246-277 | a cell listed twice moves twice: why fixup offsets must be distinct |
| FdtLinks.FixedTimes | src/scripts/dtc/libfdt/fdt_overlay.c:246-262 | a cell that no other listed cell overlaps moves as often as it is listed |
| FdtLinks.LinkKeptIff | src/scripts/dtc/libfdt/fdt_overlay.c:246-277 | such a cell still names its node after both passes if and only if the surplus listings add up to a multiple of 2^32: for a listed cell, listing it once is enough |
| FdtRelocate.RelocatedLinks | src/scripts/dtc/libfdt/fdt_overlay.c:829-849 | both together, for any overlay: the same references name the same nodes, and phandles of at least 1 are apart from all of the base tree |
| Metadata.OverlayProps | src/drivers/fpga/xrt/metadata/metadata.c:143-161 | the property loop, with the exact limit on lengths and the room it can need |
| Metadata.OverlaySub | src/drivers/fpga/xrt/metadata/metadata.c:163-178 | one subnode found or created, then merged one level deeper |
| Metadata.OverlaySubs | src/drivers/fpga/xrt/metadata/metadata.c:163-178 | the subnode loop |
| Metadata.Overlay | src/drivers/fpga/xrt/metadata/metadata.c:111-181 | the recursive merge; never succeeds beyond depth 5 or the length limit, never fails within them when there is room |
| Metadata.Create | src/drivers/fpga/xrt/metadata/metadata.c:194-235 | a blob with an empty endpoints node |
| Metadata.Dup | src/drivers/fpga/xrt/metadata/metadata.c:238-253 | the source merged into a new blob; never null for a source within the limits that fits |
| Metadata.DupByPath | src/drivers/fpga/xrt/metadata/metadata.c:238-253 | by lookup the duplicate is the source, with the last value of a repeated property, plus at most an empty endpoints node |
| FdtSearch.StringListContains | src/scripts/dtc/libfdt/fdt_ro.c:704-719 | whether the list has the string as an entry |
| FdtSearch.ListHasIff | src/scripts/dtc/libfdt/fdt_ro.c:704-719 | an entry is stored at the start of the list or right behind a terminator, and each such place is found |
| FdtSearch.NodeCheckCompatible | src/scripts/dtc/libfdt/fdt_ro.c:821-832 | 0 exactly when the node's list has the string |
| FdtSearch.SearchNode | src/drivers/fpga/xrt/metadata/metadata.c:53-71 | the first wanted node, outer ones first |
| FdtSearch.FirstFacts | src/scripts/dtc/libfdt/fdt_ro.c:834-857 | the search fails exactly when no node at any level is wanted, and what it stops at is |
| Endpoints.GetEndpoint | src/drivers/fpga/xrt/metadata/metadata.c:46-79 | the first node of that name, compatible if asked for, ENODEV exactly if there is none |
| Endpoints.GetCompatibleEndpoint | src/drivers/fpga/xrt/metadata/metadata.c:506-520 | the name of the first compatible node |
| EndpointEdits.DelEndpoint | src/drivers/fpga/xrt/metadata/metadata.c:256-275 | exactly that node is cut out, or nothing changed |
| EndpointEdits.AddEndpoint | src/drivers/fpga/xrt/metadata/metadata.c:278-363 | an empty node of that name below the parent, exactly when none answers to the name and it fits |
| EndpointEdits.CopyEndpoint | src/drivers/fpga/xrt/metadata/metadata.c:440-469 | the node merged into the one of its name, created first if missing, below the root or the endpoints node; with the cases in which it must succeed and in which it cannot |
| EndpointHouse.Lodger | src/drivers/fpga/xrt/metadata/metadata.c:46-79 | when nothing outside the endpoints node answers, a search of the blob is a search of the endpoints, and cutting out what it finds keeps all the others |
| EndpointTree.FineMerged | src/drivers/fpga/xrt/metadata/metadata.c:440-469 | a copy of an unambiguous tree is unambiguous, as deep, and hidden from the same searches |
| EndpointTree.AlikeMerged | src/drivers/fpga/xrt/metadata/metadata.c:440-469 | a copy has the same nodes and values under the same names |
| EndpointTree.CostMerge | src/drivers/fpga/xrt/metadata/metadata.c:111-181 | a merge takes no more room than its parts |
| EndpointCut.CutStep | src/drivers/fpga/xrt/lib/group.c:68-82 | one more endpoint moved: gone from the group, its copy in the new tree, all others as before |
| EndpointCut.PutBack | src/drivers/fpga/xrt/lib/group.c:90-93 | merging the cut endpoints back gives every endpoint again with its contents |
| EndpointCut.PutBackIff | src/drivers/fpga/xrt/lib/group.c:90-93 | an endpoint within the depth that copying allows can be cut out; it can be put back, one level deeper, if and only if it is not that deep |
| EndpointCut.FiveLevels | src/drivers/fpga/xrt/lib/group.c:90-93 | a concrete endpoint of five nested nodes that can be cut out and not be put back, and one of four that can |
| Group.HeldCost | src/drivers/fpga/xrt/lib/group.c:90-93 | the structure block had room for what is put back: cutting a node out frees at least what restoring it needs |
| Group.CutEntry | src/drivers/fpga/xrt/lib/group.c:68-82 | one descriptor entry, by name or by the first compatible node: copied and deleted, or neither |
| Group.TakenIff | src/drivers/fpga/xrt/lib/group.c:68-82 | entries by name take exactly the endpoints that some entry names, and that have its compatible string if it gives one |
| Group.Restore | src/drivers/fpga/xrt/lib/group.c:90-93 | the cleanup must succeed and leaves the endpoints the group had, with their contents |
| Group.CutSubdevDtb | src/drivers/fpga/xrt/lib/group.c:58-97 | a new tree is returned exactly when the entries find at least the minimum, and it has exactly the endpoints they take; then old endpoints are the disjoint union of remaining and cut, else the group has all of them as before |
| Group.Leaves.CreateLeaves | src/drivers/fpga/xrt/lib/group.c:99-178 | each descriptor of each driver in order is asked until it finds less than its minimum, and every tree cut is handed to the pool for that driver; endpoints are left over or in one of these trees, in none twice, each as it was; what is left has the minimum of no descriptor by name; 0 exactly when the pool took every tree, else ECHILD; EEXIST and EINVAL cases |
| Group.Leaves.CutLeaf | src/drivers/fpga/xrt/lib/group.c:138-172 | one round: the tree, if one is cut, goes to the pool, and only a refusal counts as a failure |
| Group.NothingMissed | src/drivers/fpga/xrt/lib/group.c:138-172 | a finished walk leaves less than the minimum for every descriptor by name, since fewer endpoints are never found by more entries |
| Group.NeverPast | src/drivers/fpga/xrt/lib/group.c:138-172 | a descriptor that needs no endpoint yields a tree each time: the walk does not get past it |
| Group.Leaves.RemoveLeaves | src/drivers/fpga/xrt/lib/group.c:180-194 | the group can create its leaves again |
| Group.ShareStep | src/drivers/fpga/xrt/lib/group.c:138-172 | one more tree taken keeps the sharing exact and leaves fewer endpoints |
| Bits.AndErased | src/drivers/fpga/xrt/lib/xleaf/qspi.c:950-968 | programming an erased byte stores the byte |
| Qspi.FaddrRoundTrip | src/drivers/fpga/xrt/lib/xleaf/qspi.c:559-581 | the split address names the offset back exactly when bits 32 to 55 are zero |
| Qspi.LowBits | src/drivers/fpga/xrt/lib/xleaf/qspi.c:559-600 | commands and page boundaries depend on the low 32 bits of the offset and the slave only |
| Qspi.ClampIff | src/drivers/fpga/xrt/lib/xleaf/qspi.c:987-991 | the clamp keeps every request inside the flash exactly for offsets below its size |
| Qspi.ValidIsBelow | src/drivers/fpga/xrt/lib/xleaf/qspi.c:800-811 | which offsets the validity check accepts |
| Qspi.SyncedIff | src/drivers/fpga/xrt/lib/xleaf/qspi.c:534-556 | the remembered sector is none, or the one the device has, exactly if every sector asked for is the sector served |
| Qspi.SelectSyncs | src/drivers/fpga/xrt/lib/xleaf/qspi.c:534-556 | one sector select, carried out, lost, or carried out but reported as failed: exactly when the remembered sector serves every later request rightly |
| Qspi.RunSynced | src/drivers/fpga/xrt/lib/xleaf/qspi.c:534-556 | over any run of selects none of which was carried out late, the driver serves every sector rightly |
| Qspi.StaleSelect | src/drivers/fpga/xrt/lib/xleaf/qspi.c:534-556 | three selects after which the driver serves sector 0 from sector 1 |
| Qspi.StaleWrite | src/drivers/fpga/xrt/lib/xleaf/qspi.c:534-556 | a write in that state succeeds and lands in the wrong sector |
| Qspi.LandedRightIff | src/drivers/fpga/xrt/lib/xleaf/qspi.c:973-1024 | what a successful write leaves is the splice if and only if the sector was served rightly or the buffer was already at both places |
| Qspi.FetchedRightIff | src/drivers/fpga/xrt/lib/xleaf/qspi.c:813-849 | what a successful read returns is the range if and only if the bytes of the sector served are those of the sector meant |
| Qspi.Driver.Transaction | src/drivers/fpga/xrt/lib/xleaf/qspi.c:433-462 | one command at the device: what it changes on the flash and what it returns |
| Qspi.Driver.WaitUntilReady | src/drivers/fpga/xrt/lib/xleaf/qspi.c:602-609 | the device is idle afterwards, or a time-out; never a time-out without faults |
| Qspi.Driver.SetSector | src/drivers/fpga/xrt/lib/xleaf/qspi.c:534-556 | success exactly when the sector was the remembered one or the select was carried out; what is remembered and what the device has, after each outcome |
| Qspi.Driver.FifoRd | src/drivers/fpga/xrt/lib/xleaf/qspi.c:615-661 | one FIFO load of the bytes of the sector being served, no flash byte changed |
| Qspi.Driver.FifoWr | src/drivers/fpga/xrt/lib/xleaf/qspi.c:667-714 | one FIFO load programmed over erased bytes of the sector being served is stored, nothing else changed |
| Qspi.Driver.BufRdWr | src/drivers/fpga/xrt/lib/xleaf/qspi.c:719-738 | a buffer piece in FIFO-sized commands, for any FIFO depth above 8 |
| Qspi.Driver.PageErase | src/drivers/fpga/xrt/lib/xleaf/qspi.c:766-798 | exactly the page, in the sector being served, has all bits set |
| Qspi.Driver.PageRmw | src/drivers/fpga/xrt/lib/xleaf/qspi.c:899-931 | a page read, erased and programmed again with the new piece in it, the rest of the page unchanged |
| Qspi.Driver.PageWr | src/drivers/fpga/xrt/lib/xleaf/qspi.c:950-968 | a page-aligned piece erased and programmed |
| Qspi.Driver.WritePiece | src/drivers/fpga/xrt/lib/xleaf/qspi.c:994-1014 | one round of the loop of qspi_write: the next page by page write or read-modify-write |
| Qspi.Driver.Write | src/drivers/fpga/xrt/lib/xleaf/qspi.c:973-1024 | every successful write, from any state: the flash with the clamped range replaced by the buffer where it lands, which is the intended splice if and only if the sector was served rightly or the bytes were there already; any alignment and mix of page sizes; afterwards the driver is in step exactly if it was or a further sector was selected; failures touch nothing but the pages around the range; the loops end; and without faults of bus, device and user memory every request that is not refused with ENOSPC is written as far as the clamp goes |
| Qspi.Driver.DoRead | src/drivers/fpga/xrt/lib/xleaf/qspi.c:813-849 | a successful read, from any state, returns the bytes of the range in the sector served, with the exact condition for these to be the bytes asked for, and changes none; without faults it succeeds |
| MailboxChan.RunConserves | src/drivers/fpga/xrt/lib/xleaf/mailbox.c:413-450 | over every interleaving of steps an accepted message is held once, or was completed or withdrawn exactly once, never both |
| MailboxChan.FiniEndsAll | src/drivers/fpga/xrt/lib/xleaf/mailbox.c:676-712 | chan_fini step by step, with any steps of others before, between the stop bit and the end of the worker, and between the rounds of its loop: no more rounds than messages were waiting, and afterwards every message ever accepted has ended exactly once |
| MailboxChan.DrainedIsRun | src/drivers/fpga/xrt/lib/xleaf/mailbox.c:676-712 | chan_fini without anybody in between is a run of those steps |
| MailboxChan.StaysDown | src/drivers/fpga/xrt/lib/xleaf/mailbox.c:597-646 | after the shutdown nothing is accepted or held again |
| MailboxChan.TxInOrder | src/drivers/fpga/xrt/lib/xleaf/mailbox.c:1085-1095 | over every run transmissions start in the order of enqueueing |
| MailboxChan.TtlExact | src/drivers/fpga/xrt/lib/xleaf/mailbox.c:495-559 | a message with TTL t and no progress is held for t handled ticks and fails at the next one |
| MailboxChan.FreedSafelyIff | src/drivers/fpga/xrt/lib/xleaf/mailbox.c:616-646 | an owner that takes its message back by id before freeing it leaves no channel with the freed message if and only if the channel did not hold it, or had it waiting as the first with that id and not as its current message |
| MailboxChan.FreedWhileCurrent | src/drivers/fpga/xrt/lib/xleaf/mailbox.c:1316-1337 | a response whose first packet has arrived is current, so a failed request frees it while the channel still holds it |
| Mailbox.SegmentCount | src/drivers/fpga/xrt/lib/xleaf/mailbox.c:1015-1049 | one start packet with up to 40 bytes, then as few body packets as the rest needs at 56 bytes each |
| Mailbox.PacketsFill | src/drivers/fpga/xrt/lib/xleaf/mailbox.c:1015-1049 | no packet is longer than 64 bytes, all but the last are as long, and only the last carries the end flag |
| Mailbox.OutgoingIs | src/drivers/fpga/xrt/lib/xleaf/mailbox.c:1121-1157 | for every readiness of the channel: one segment for each free round, then one empty end packet for each free round before the last packet is seen gone; and when the message is completed |
| Mailbox.EchoedIff | src/drivers/fpga/xrt/lib/xleaf/mailbox.c:1121-1157 | more packets than needed go out if and only if, all being out, a round finds the channel free before any saw the last packet gone |
| Mailbox.OneByteTwoPackets | src/drivers/fpga/xrt/lib/xleaf/mailbox.c:1121-1157 | a message of one byte sent as two packets |
| Mailbox.NoEchoes | src/drivers/fpga/xrt/lib/xleaf/mailbox.c:1121-1157 | there are none when the channel does not turn ready between the two looks at it |
| Mailbox.EmptyTwice | src/drivers/fpga/xrt/lib/xleaf/mailbox.c:1019-1035 | a message of length zero is taken for not yet started, and its start packet can go out twice |
| Mailbox.EmptyNeverSent | src/drivers/fpga/xrt/lib/xleaf/mailbox.c:1121-1157 | a message of length zero is completed without error and without any packet |
| Mailbox.EchoesIgnored | src/drivers/fpga/xrt/lib/xleaf/mailbox.c:934-998 | a receiver between messages ignores empty end packets |
| Mailbox.Delivery | src/drivers/fpga/xrt/lib/xleaf/mailbox.c:807-998 | any message with a length, cut by the sender, is received whole and completed with its id and no error, whether the receiver is idle or in the middle of another message, which then fails with EBADMSG |
| Mailbox.SentIsReceived | src/drivers/fpga/xrt/lib/xleaf/mailbox.c:1121-1157 | end to end, for every readiness under which the sender completes the message: the receiver completes it too, whole and without error |
| Mailbox.SentIsReceivedIff | src/drivers/fpga/xrt/lib/xleaf/mailbox.c:1121-1157 | that holds for all readiness if and only if the message is not empty |
| Mailbox.StreamDelivered | src/drivers/fpga/xrt/lib/xleaf/mailbox.c:934-1157 | over any number of messages the receiver completes without error exactly what was completely sent, in order |
| Mailbox.HandedIff | src/drivers/fpga/xrt/lib/xleaf/mailbox.c:433-447 | a request received completely reaches the listener if and only if fewer than 5 are pending then; else it is freed and the listener never sees it |
| Mailbox.AttendedIff | src/drivers/fpga/xrt/lib/xleaf/mailbox.c:433-447 | over any interleaving of packets and rounds of the listener: requests are missing at the end beyond those already missing if and only if one was completed while 5 were pending |
| Mailbox.ListenerGetsAll | src/drivers/fpga/xrt/lib/xleaf/mailbox.c:433-1419 | end to end, from an idle start: what the listener has taken or still will is exactly what was completely sent, contents and order, if and only if no request was completed while 5 were pending |
| Mailbox.OnlyFive | src/drivers/fpga/xrt/lib/xleaf/mailbox.c:433-447 | a listener that takes nothing keeps the first five requests, however many follow |
| Mailbox.SixRequests | src/drivers/fpga/xrt/lib/xleaf/mailbox.c:433-447 | six one-packet requests, all sent and received without error, of which the listener gets five |
| Mailbox.WorkerConserves | src/drivers/fpga/xrt/lib/xleaf/mailbox.c:934-1157 | each round of either worker is a run of the channel steps, so it loses and doubles no message and keeps the order of sending |
| Mailbox.StrayIff | src/drivers/fpga/xrt/lib/xleaf/mailbox.c:616-646 | a response completes a message of another id exactly when it is numbered INVALID_MSG_ID and the first waiting message is not |
| Mailbox.Channel.Enqueue | src/drivers/fpga/xrt/lib/xleaf/mailbox.c:597-614 | refused when the channel stops, else at the end of the queue |
| Mailbox.Channel.Dequeue | src/drivers/fpga/xrt/lib/xleaf/mailbox.c:616-646 | the first message with that id, or the first of all for INVALID_MSG_ID, leaves the queue |
| Mailbox.Channel.TakeBack | src/drivers/fpga/xrt/lib/xleaf/mailbox.c:616-646 | a message taken back by the one who enqueued it |
| Mailbox.Channel.MsgDone | src/drivers/fpga/xrt/lib/xleaf/mailbox.c:413-450 | the message is completed; on the receive channel a request without error joins the listener's queue while that has fewer than 5 |
| Mailbox.Channel.TimeoutMsg | src/drivers/fpga/xrt/lib/xleaf/mailbox.c:495-531 | exactly the messages out of time fail, all others lose one tick |
| Mailbox.Channel.HandleTimerEvent | src/drivers/fpga/xrt/lib/xleaf/mailbox.c:553-559 | one handled tick |
| Mailbox.Channel.ChanFini | src/drivers/fpga/xrt/lib/xleaf/mailbox.c:676-712 | every held message is failed and nothing is left |
| Mailbox.Channel.DequeueTxMsg | src/drivers/fpga/xrt/lib/xleaf/mailbox.c:1085-1095 | the oldest message becomes current |
| Mailbox.Channel.DoTx | src/drivers/fpga/xrt/lib/xleaf/mailbox.c:1121-1157 | a finished message is completed, the next one started, and one packet sent if the channel is ready |
| Mailbox.Channel.DequeueRxMsg | src/drivers/fpga/xrt/lib/xleaf/mailbox.c:842-883 | the waiting buffer of a response, or a new one for a request, with the error cases |
| Mailbox.Channel.StorePkt | src/drivers/fpga/xrt/lib/xleaf/mailbox.c:807-839 | payload copied behind the bytes done, or the error for too many |
| Mailbox.Channel.DoHwRx | src/drivers/fpga/xrt/lib/xleaf/mailbox.c:934-998 | one packet received: the new state of the channel, and the requests it completes handed to the listener's queue |
| Mailbox.FlagsMean | src/drivers/fpga/xrt/lib/xleaf/mailbox.c:842-883 | a start packet with flags 1 is the response to the waiting message of its id, with flags 2 a request with a buffer of its size below 1 MiB, with neither it is dropped |
| Mailbox.Channel.TakeRequest | src/drivers/fpga/xrt/lib/xleaf/mailbox.c:1397-1401 | the listener takes the oldest pending request, if any |
| Subdev.RunSound | src/drivers/fpga/xrt/lib/subdev.c:597-720 | over every interleaving of adds, gets, puts, removals and kills: at the end counts are gets minus puts and what was unlinked had been given back, if and only if no kill of the run hit a remover whose subdevice was still held |
| Subdev.StepSound | src/drivers/fpga/xrt/lib/subdev.c:459-720 | a step keeps every count exact if and only if it is not a kill of a waiting remover whose subdevice is still held |
| Subdev.CountsAreExact | src/drivers/fpga/xrt/lib/subdev.c:523-566 | from the start, over every run: a device's count of a linked subdevice is its gets minus its puts minus what kills took away |
| Subdev.EntryIff | src/drivers/fpga/xrt/lib/subdev.c:508-566 | an entry exists if and only if the count is positive |
| Subdev.UnlinkedUnheld | src/drivers/fpga/xrt/lib/subdev.c:597-626 | at the moment of unlinking nobody holds the subdevice, although the wait drops the lock |
| Subdev.KillUnlinksHeld | src/drivers/fpga/xrt/lib/subdev.c:459-483 | a concrete run in which a kill makes a subdevice go while it is held |
| Subdev.HoldRelease | src/drivers/fpga/xrt/lib/subdev.c:523-566 | getting and putting back leaves no trace |
| Subdev.HoldCounts | src/drivers/fpga/xrt/lib/subdev.c:523-540 | one hold adds one to that device's count only |
| Subdev.ReleaseCounts | src/drivers/fpga/xrt/lib/subdev.c:549-566 | one release takes one, and a non-holder changes nothing |
| Subdev.SameMatchIff | src/drivers/fpga/xrt/lib/subdev.c:608-666 | removal takes the first match and a get the last, and they are the same exactly if no two subdevices answer |
| Subdev.SubdevPool.Add | src/drivers/fpga/xrt/lib/subdev.c:568-595 | a new subdevice at the head of the list; EINVAL if it could not be created, ENODEV for a closing pool |
| Subdev.SubdevPool.HoldSub | src/drivers/fpga/xrt/lib/subdev.c:523-540 | the holder's entry is made or counted up |
| Subdev.SubdevPool.GetNeighbor | src/drivers/fpga/xrt/lib/subdev.c:632-656 | the previous or next group in creation order |
| Subdev.SubdevPool.FindMatch | src/drivers/fpga/xrt/lib/subdev.c:608-616 | the first subdevice that matches, for a removal |
| Subdev.SubdevPool.FindLast | src/drivers/fpga/xrt/lib/subdev.c:650-666 | the last subdevice that matches, for a get, whose loop has no break |
| Subdev.SubdevPool.GetMatch | src/drivers/fpga/xrt/lib/subdev.c:678-698 | a hold on the last match, or ENOENT and nothing changed |
| Subdev.SubdevPool.PutSub | src/drivers/fpga/xrt/lib/subdev.c:700-720 | the reference is given back; EINVAL and no change for a non-holder |
| Subdev.SubdevPool.DelFrom | src/drivers/fpga/xrt/lib/subdev.c:597-626 | unlinks the subdevice when nobody holds it, keeps it otherwise |
| Subdev.SubdevPool.HandleEvent | src/drivers/fpga/xrt/lib/subdev.c:754-765 | every subdevice gets the event once, and no hold is left |
| Xroot.Root.DestroySingleGroup | src/drivers/fpga/xrt/lib/xroot.c:174-193 | exactly that group is removed |
| Xroot.Root.LastInstance | src/drivers/fpga/xrt/lib/xroot.c:200-212 | the newest group |
| Xroot.Root.RemoveNewer | src/drivers/fpga/xrt/lib/xroot.c:200-220 | the groups added after the target go, newest first |
| Xroot.Root.DestroyGroup | src/drivers/fpga/xrt/lib/xroot.c:195-229 | removes exactly the groups added after it, newest first, then the group; older ones keep their order, no hold is left, the loops end |
| Xroot.Root.RemoveAll | src/drivers/fpga/xrt/lib/xroot.c:501-513 | the pool is empty afterwards |
| Xroot.Root.CreateGroup | src/drivers/fpga/xrt/lib/xroot.c:156-171 | one group and one pending count more, or one failure more if the device could not be created or the pool is closing |
| Xroot.Root.VisitGroup | src/drivers/fpga/xrt/lib/xroot.c:418-438 | one group of the walk initialised at most once, counted as failed exactly when a leaf of it failed |
| Xroot.Root.BringupGroupWork | src/drivers/fpga/xrt/lib/xroot.c:418-438 | the worker initialises every group that has no leaves, oldest first; the failure count goes up by the number of those with a leaf that failed |
| Bringup.AllBroughtUp | src/drivers/fpga/xrt/lib/xroot.c:156-171 | over every interleaving, with groups created, failing to be created and held by others during the walk: the groups initialised are the oldest of the list, each once, in its order; in the end all of it; and the pending counter is the groups announced but not yet up |
| Bringup.RunOrdered | src/drivers/fpga/xrt/lib/xroot.c:418-438 | the order and the counter hold in every state |
| Bringup.WorkerAdvances | src/drivers/fpga/xrt/lib/xroot.c:418-438 | each of the worker's own steps brings its walk closer to the end |
| Bringup.SignalledIff | src/drivers/fpga/xrt/lib/xroot.c:434-438 | over every interleaving: once nothing is pending, the waiter has been woken if and only if the last step that lowered the counter was one of the worker |
| Bringup.SignalledWithoutFail | src/drivers/fpga/xrt/lib/xroot.c:434-479 | without failed creations it has been woken as soon as nothing is pending and there is a group |
| Bringup.NeverWoken | src/drivers/fpga/xrt/lib/xroot.c:165-168 | a run in which the worker has brought up the last group before another creation fails: nothing is pending, nothing is left to do, and the waiter was never woken |
| Bringup.AnswerRightIff | src/drivers/fpga/xrt/lib/xroot.c:156-171 | over every interleaving the failure count is the creations and groups that failed, except those on the way to being counted; the answer of the waiter is right once nothing is pending if and only if some failure is counted or none is on the way |
| Bringup.EarlyAnswer | src/drivers/fpga/xrt/lib/xroot.c:165-168 | a run in which the waiter is woken and told that all went well while a failed creation is not counted yet |

## Left out

Flattened device trees:

- Header byte order: the header is a record of fields, not ten big-endian words; offsets and sizes are 32-bit values.
- Blobs of versions other than 17, blobs whose blocks are out of order, the realignment branches and the reordering part of fdt_open_into, and the ASSUME_ shortcuts.
- FdtRw.DelNode: states no well-formed blob when the root itself is deleted, because none is left; so does `EndpointEdits.DelEndpoint`.
- fdt_appendprop, fdt_set_name, fdt_add_mem_rsv, fdt_del_mem_rsv, fdt_resize, fdt_move: further splices of the same kind.
- FdtPath.GetPath: for names without slashes; for an offset at or behind the end of the root it says that the code reads in front of the buffer, and no result.
- FdtMergeTwice.IdempotentIff: for overlays whose names find no earlier sibling; with such a name the nodes of two lists are merged into one, and the lists alone do not decide (`FdtMergeTwice.AcrossSiblings`).
- FdtWip.SetPropInplacePartial: where the guard is right; beyond that the code writes outside the value.
- FdtSwFinish.WriteTree: where the unsigned room check is right (`FdtSw.StringRoomIff`), which it is for every script that fits; FdtSwFinish.WriteAll likewise.
- FdtPath.PathRoundTrip: names without slashes, a nameless root and named other nodes, as the Devicetree Specification, section 2.2.1, prescribes.
- FdtPath.PathOffset: absolute paths only, no aliases.
- FdtFragments.MergeOverlay: target paths are absolute and terminated.
- overlay_fixup_phandles and overlay_symbol_update (string parsing of fixups and symbols), and the destruction of the magic numbers at the end of fdt_overlay_apply.
- FdtFixups.FixCells: for offsets that the guard compares rightly (`FdtWip.GuardIff`), as far as the fixups get; the other writes go outside the value and the model does not follow them; the cell the code reads before it has checked the offset is any value when it lies outside the structure block.
- FdtFixups.UpdateNodeReferences: the fixup node must not be one of the nodes it fixes, else the code reads fixups it is just changing.
- FdtRelocate.RelocatedLinks: for fixups that list no phandle property and no cell twice.
- FdtLinks.FixFacts: states the listed references and all phandles; that no other value changes is what the update is specified by in UpdateNodeReferences.
- FdtSearch.StringListContains: an unterminated list whose last bytes are the string does not count, while the code compares one byte behind it.

Metadata and groups:

- Device logging, memory allocation failures, and the kernel's own string functions.
- EndpointEdits.AddEndpoint: for an endpoint with a name only, which is what copying uses; bar, range and compatible properties are not written.
- xrt_md_get_prop, xrt_md_set_prop, xrt_md_get_next_endpoint, interface UUIDs: single lookups.
- Group.CutSubdevDtb: for groups whose endpoints are all below the endpoints node, with unambiguous names, at most four levels inside an endpoint, no value as long as a blob, no other node that a descriptor asks for, and small enough for one new blob to take all of them.
- Group.Leaves.CreateLeaves: creating the leaf devices is a call with any result; a descriptor must need at least one endpoint, else its loop does not end (`Group.NeverPast`).
- Group.Leaves.RemoveLeaves: the pool's shutdown is not repeated here.

QSPI:

- Several slaves: one linear flash behind slave 0; ClampIff says for which offsets the clamp is right.
- The device's wrap inside a program page, dual and quad modes, probing of the flash size and type, and register access: FIFO and status register are an abstract device that may be busy or report errors at any time.
- Qspi.Driver.Write: for requests whose clamp keeps them inside the flash, which `Qspi.ClampIff` decides; the others can run past its end.
- Faults: any command, status read or copy from user memory may fail at any time; without faults a status read finds the device finished.
- A failed command other than a sector select leaves the extended address register alone; a failed select was carried out or not.

Mailbox:

- The software channel, test packets, message allocation failures, and the worker's wake-ups: every order of steps is allowed.
- Wall-clock time: a tick is a step.
- The listener's callback and its shutdown, which frees what is still pending: a pending request counts as one the listener will get.

Subdevice pool and root:

- Device creation and platform resources; an add may fail.
- pool_fini, which waits without the lock; several removers of one subdevice.
- Subdev.UnlinkedUnheld: from states no kill has damaged; RunSound says which.
- Xroot.Root.DestroyGroup: for single removals that succeed and callbacks that create or destroy no groups.
- Bringup.AllBroughtUp: with no group destroyed meanwhile.
- xroot event queue, parent calls and reference to the PCI layer.
