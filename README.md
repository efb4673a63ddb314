# Lexical list formatting, modelled in Dafny

This project models `packages/lexical-list/src/formatList.ts` of the Lexical
editor. That file holds the commands that turn blocks into lists and back:
insertList, removeList, indent and outdent, mergeLists and the sibling-list
transform, and the Enter and Backspace handlers inside list items. It also
holds the helpers that keep list items numbered ($getListItemValue,
updateChildrenListItemValue).

The editor state is a mutable tree of nodes. The model keeps it as an arena,
the class `Tree.Doc`, with four fields:

- `node`: the content of each key;
- `parent`: each attached key's parent;
- `children`: each key's ordered children;
- `next`: the next fresh key.

`Doc.Valid()` ties the four together: parent and child links agree, there are
no duplicate children, and every key is below `next`. Lexical's node methods
(`remove`, `append`, `insertAfter`, `insertBefore`, `replace`, `setValue`, and
node creation) are methods of `Doc` that update those fields in place.
formatList.ts's own functions are methods over a `Doc`. Each is proved
against ghost predicates over the maps before and after, and lemmas state
what those predicates promise.

Walks up the parent chain ($getNearestNodeOfType, $getTopListNode,
$getAllListItems, getIndent) are bounded by a ghost ranking `rank`. A key's
rank is strictly greater than its parent's (`ListWalks.Ranked`). The
recursion of mergeLists is bounded by a ghost level numbering `depth`. A
node's level is exactly one more than its parent's (`ListMerge.Layered`),
because the recursion goes down two levels at a time and must know which
levels it leaves alone.

A Lexical update that throws is discarded by `editor.update`. The model
returns `Err(..)` and leaves the document exactly as it was.

Modules, one per file:

| file | module | models |
|---|---|---|
| seqs.dfy | Seqs | sequence helpers (Without, IndexOf, InsertedAfter, Replaced, NoDup) |
| tree.dfy | Tree | node kinds, the arena `Doc` and Lexical's node mutations |
| values.dfy | ListValues | $getListItemValue and updateChildrenListItemValue |
| walks.dfy | ListWalks | parent walks, $getBlockNodeInsideList, $isSelectingEmptyListItem, $getAllListItems |
| split.dfy | ListSplit | $splitList, $changeListItemType, $createListItemWithParagraph |
| merge.dfy | ListMerge | mergeLists, autoMergeSiblingLists |
| indent.dfy | ListIndent | $handleIndent, $handleOutdent |
| delete.dfy | ListDelete | $handleDelete, $handleListInsertParagraph |
| insert.dfy | ListInsert | the climb and wrap steps of insertList |
| insert_loop.dfy | ListInsertLoop | insertList |
| remove.dfy | ListRemove | unwrapping one list (the inner loops of removeList) |
| unlist.dfy | ListUnlist | removeList |

## Model

Source cells are paths in the Lexical repository.

| member | source | states |
|---|---|---|
| Tree.Doc.Remove | packages/lexical-list/src/formatList.ts:317 | `remove()`: the key loses its parent and leaves its parent's children; nothing else changes |
| Tree.Doc.Append | packages/lexical-list/src/formatList.ts:287-289 | `append`: the key is detached from where it was and becomes the last child of `p` |
| Tree.Doc.MergeInto | packages/lexical-list/src/formatList.ts:456 | appending a list item to a list item moves the appended item's children, in order, to the end of the target's, and the appended item is detached |
| Tree.Doc.AppendTo | packages/lexical-list/src/formatList.ts:456 | a list item's `append`: the merge above when both the target and the appended node are list items, a plain append otherwise |
| Tree.Doc.InsertAfter | packages/lexical-list/src/formatList.ts:125 | `insertAfter`: the key lands right after `ref` in `ref`'s parent |
| Tree.Doc.InsertBefore | packages/lexical-list/src/formatList.ts:272 | `insertBefore`: the key lands right before `ref` in `ref`'s parent |
| Tree.Doc.MoveChildren | packages/lexical-list/src/formatList.ts:124 | moving a tail of children to the end of another node keeps their order, and the source keeps the head |
| Tree.Doc.Create | packages/lexical-list/src/formatList.ts:123 | a created node gets the next fresh key and no parent or children |
| Tree.Doc.SetValue | packages/lexical-list/src/formatList.ts:419 | `setValue` changes only the item's ordinal |
| Tree.Doc.Replace | packages/lexical-list/src/formatList.ts:217 | `replace`: the new node takes the old node's slot, and the old node is detached |
| Tree.Doc.PrevSiblings | packages/lexical-list/src/formatList.ts:98 | `getPreviousSiblings`: the children of the parent before the key, in order |
| Tree.Doc.NextSiblings | packages/lexical-list/src/formatList.ts:117 | `getNextSiblings`: the parent's children are the previous siblings, the key and the next siblings |
| ListValues.GetListItemValue | packages/lexical-list/src/formatList.ts:82-107 | the result is `ItemValue`: the list's start (1 without a parent) plus the previous siblings that are list items not holding a nested list. It is an error exactly when the parent is not a list |
| ListValues.CountSiblings | packages/lexical-list/src/formatList.ts:98-105 | the counting loop returns the number of siblings that take an ordinal |
| ListValues.OrdinalFirst | packages/lexical-list/src/formatList.ts:85-96 | the first item of a list is numbered with the list's start |
| ListValues.OrdinalsContiguous | packages/lexical-list/src/formatList.ts:98-105 | two consecutive items differ by exactly one, or by zero when the first holds only a nested list |
| ListValues.ValueSameShape | packages/lexical-list/src/formatList.ts:82-107 | an item's value depends only on the tree's shape, not on the values already stored |
| ListValues.RefreshItem | packages/lexical-list/src/formatList.ts:413-421 | one turn of the loop: a list item is set to its computed value, and it is written exactly when the value was stale; other nodes are kept |
| ListValues.RefreshNext | packages/lexical-list/src/formatList.ts:412-422 | after turn `i`, every list item among the first `i + 1` targets is current, the rest is untouched, and the written set is exactly the stale items |
| ListValues.UpdateChildrenListItemValue | packages/lexical-list/src/formatList.ts:406-424 | every list item among the given children (all the list's children when none are given) holds its computed value, exactly the stale ones are written, and nothing else changes. With no argument, all the list's ordinals are current |
| ListValues.AllRefreshedCurrent | packages/lexical-list/src/formatList.ts:410-423 | refreshing every child of a list leaves all its ordinals current |
| ListWalks.NearestListItem | packages/lexical-list/src/formatList.ts:240 | `$getNearestNodeOfType(node, ListItemNode)`: the result, when there is one, is a list item |
| ListWalks.NearestListItemFirst | packages/lexical-list/src/formatList.ts:240 | the walk finds nothing exactly when no key on the path to the root is a list item; otherwise it finds the first list item on that path |
| ListWalks.Path | packages/lexical-list/src/formatList.ts:250-279 | the chain of parents from a key to the top: it starts at the key, each entry is the parent of the one before, and the last has no parent |
| ListWalks.Nesting | packages/lexical-list/src/formatList.ts:546 | the nesting depth of a list item: 0 exactly for a key that is not a list item, and it fails only on a list item whose list has no parent |
| ListWalks.ItemIndent | packages/lexical-list/src/formatList.ts:546 | getIndent: 0 exactly when the item's list is not held by a list item; it fails on an item whose list has no parent |
| ListWalks.ClimbFindsNearest | packages/lexical-list/src/formatList.ts:75-79 | the climb of $getBlockNodeInsideList stops exactly when there is a list item above, at the child of the nearest list item on the path |
| ListWalks.BlockUnderNearestItem | packages/lexical-list/src/formatList.ts:64-80 | $getBlockNodeInsideList: a list item anchor gives its first child; any other anchor gives the node on its path whose parent is the nearest list item, and nothing exactly when there is no list item above |
| ListWalks.IsSelectingEmptyListItem | packages/lexical-list/src/formatList.ts:48-62 | true only for a paragraph anchor with a list item above, when no node or only the childless anchor is selected |
| ListWalks.NearestListItemNodes | packages/lexical-list/src/formatList.ts:157-174 | no list items for a selection that is not a range; otherwise exactly the nearest list items of the selected nodes, each a list item |
| ListWalks.OutermostListLast | packages/lexical-list/src/formatList.ts:361 | the outermost list above a key is the last list on its path, and none exists exactly when the path above the key holds no list |
| ListWalks.AllMembers | packages/lexical-list/src/formatList.ts:366 | every key $getAllListItems returns is a list item inside the list |
| ListWalks.AllNoDup | packages/lexical-list/src/formatList.ts:366 | $getAllListItems returns no key twice |
| ListSplit.SplitList | packages/lexical-list/src/formatList.ts:112-128 | it fails when the item is not a child of the list, and does nothing when the item is last. Otherwise the following siblings, in order, form a new list of the same type placed right after the list. A list with no parent fails, and the document is unchanged |
| ListSplit.SplitAfter | packages/lexical-list/src/formatList.ts:123-125 | the new list holds the item's next siblings and sits right after the list, which keeps the item and those before it |
| ListSplit.NewListFor | packages/lexical-list/src/formatList.ts:137-144 | the item leaves its list and is the only child of a new list of type `lt`, placed before or after the old list |
| ListSplit.MoveFirstOut | packages/lexical-list/src/formatList.ts:137-140 | the first item moves into a new list placed right before its old list |
| ListSplit.MoveLastOut | packages/lexical-list/src/formatList.ts:141-144 | the last item moves into a new list placed right after its old list |
| ListSplit.MoveMiddleOut | packages/lexical-list/src/formatList.ts:145-150 | a middle item splits its list: the items after it go to a second list of the old type, and the item goes into a new list between the two |
| ListSplit.ChangeListItemType | packages/lexical-list/src/formatList.ts:130-155 | it fails, with nothing changed, when the parent is not a list or the list has no parent. Otherwise the first, last or middle case above applies, and an emptied old list is removed |
| ListSplit.RemoveIfEmpty | packages/lexical-list/src/formatList.ts:152-154 | the list is removed exactly when it has no children |
| ListSplit.CreateListItemWithParagraph | packages/lexical-list/src/formatList.ts:180-185 | a fresh, detached list item of value 1 with the given checked flag, whose only child is a fresh, empty paragraph, so it is not a wrapper for a nested list and takes an ordinal of its own; no other node changes |
| ListMerge.AppendTail | packages/lexical-list/src/formatList.ts:311-315 | all of `l2`'s children move, in order, to the end of `l1`, and `l2` is left empty. When something moved, `l1`'s ordinals are current |
| ListMerge.MergeLists | packages/lexical-list/src/formatList.ts:297-318 | `Merged`: `l1` holds its old children followed by `l2`'s items, minus `l2`'s first item when both boundary items held nested lists, whose lists were merged first. `l2` is emptied and detached, and `l1`'s ordinals are current. `Untouched`: every key outside the merge chain (the lists, `l2`'s parent, their items and the nested chain below) keeps its content, parent and children |
| ListMerge.MergeBoundary | packages/lexical-list/src/formatList.ts:301-309 | the nested lists held by the two boundary items are merged and the boundary item of `l2` is taken out, leaving the rest ready to be appended; nothing outside the chain changes |
| ListMerge.MergeRest | packages/lexical-list/src/formatList.ts:311-317 | appending what is left of `l2` and removing `l2` completes `Merged` |
| ListMerge.TailLands | packages/lexical-list/src/formatList.ts:311-313 | after a merge, every item of `l2` except the first sits under `l1` |
| ListMerge.SameTypeSibling | packages/lexical-list/src/formatList.ts:321-328 | the neighbour, when returned, is a sibling of the list on the asked side and a list of the same type |
| ListMerge.NeighbourLists | packages/lexical-list/src/formatList.ts:321-322 | the two neighbours are distinct lists on the list's own level |
| ListMerge.AutoMergeSiblingLists | packages/lexical-list/src/formatList.ts:320-331 | as written: with one same-type neighbour, the list and that neighbour are `Merged` and nothing else changes. With both, the list and `next` both end up detached, and `next`'s items sit under the detached list |
| ListMerge.AutoMergeAsWrittenLoses | packages/lexical-list/src/formatList.ts:328-329 | after `mergeLists(prev, l)`, the call `mergeLists(l, next)` moves `next`'s items under `l`, which is no longer in the document |
| ListMerge.AutoMergeSiblingListsCorrected | packages/lexical-list/src/formatList.ts:320-331 | with both neighbours, `prev` takes the items of `l` and then those of `next`: its children are its old ones followed by both merged tails. It stays in place, both other lists are detached, and each merge leaves every key outside its chain as it was |
| ListMerge.AutoMergeCorrectedKeeps | packages/lexical-list/src/formatList.ts:324-330 | merging `next` into `prev` instead keeps every item of `l` and of `next` in the document, under `prev` |
| ListIndent.HandleIndent | packages/lexical-list/src/formatList.ts:432-461 | nothing happens unless the item holds more than a nested list and is a non-first child of a list. Otherwise `Indented`: the item is the only child of a fresh list of its list's type, and that list is held by a fresh list item appended to the previous sibling. A list-item sibling merges the fresh item into itself. The item's value becomes 1, and nothing else moves |
| ListIndent.Indent | packages/lexical-list/src/formatList.ts:449-457 | the nesting and the renumbering of the fresh list together give `Indented` |
| ListIndent.NestUnder | packages/lexical-list/src/formatList.ts:451-456 | the fresh chain takes the item, and the chain is appended to the previous sibling, merging into it when it is a list item |
| ListIndent.WrapFresh | packages/lexical-list/src/formatList.ts:451-454 | the fresh list, held by the fresh detached item, takes the item out of its list |
| ListIndent.RenumberSingle | packages/lexical-list/src/formatList.ts:457 | the fresh list's only item gets value 1, and nothing else changes |
| ListIndent.HandleOutdent | packages/lexical-list/src/formatList.ts:469-514 | nothing happens unless the item sits in list, list item, list. Otherwise `Outdented`: the item moves to right after the list item holding its list, as the first, last or middle case places it, and both lists are renumbered |
| ListIndent.OutdentFirst | packages/lexical-list/src/formatList.ts:486-494 | the first item goes right after the holding list item; an emptied list is removed, and otherwise the rest of the list moves under the item |
| ListIndent.OutdentLast | packages/lexical-list/src/formatList.ts:497-502 | the last item goes right after the holding list item, and the rest of the list stays |
| ListIndent.OutdentMiddle | packages/lexical-list/src/formatList.ts:503-510 | the items after a middle item move into a new list under it, and the item goes right after the holding list item |
| ListIndent.RenumberBoth | packages/lexical-list/src/formatList.ts:511-512 | every item of both lists holds its computed value, and nothing else changes |
| ListIndent.RankedUnlooped | packages/lexical-list/src/formatList.ts:471-473 | in any tree, the three ancestors $handleOutdent reads are distinct from the item and from each other |
| ListIndent.IndentOutdentRoundTrip | packages/lexical-list/src/formatList.ts:463-468 | indent then outdent of an item whose previous sibling is a list item restores every parent link and children list. The two fresh nodes are left detached and empty, and only the list's ordinals differ, which are current |
| ListIndent.IndentThenOutdent | packages/lexical-list/src/formatList.ts:432-514 | running $handleIndent then $handleOutdent on such an item: the outdent applies and gives back the old tree |
| ListIndent.IndentDeepens | packages/lexical-list/src/formatList.ts:449-456 | after the indent, getIndent reports one more than before, or fails as it did before |
| ListDelete.DeleteTarget | packages/lexical-list/src/formatList.ts:572-597 | the guard of $handleDelete: nothing unless the selection is collapsed at offset 0 in a block inside a list item. The block's nearest list item must have a list parent, and the block must be the item's first or last child |
| ListDelete.DeleteRejects | packages/lexical-list/src/formatList.ts:586-596 | no list item above the block, a list item whose parent is not a list, and a block that is neither first nor last each reject |
| ListDelete.LiftFromFirst | packages/lexical-list/src/formatList.ts:600-606 | the first block of the first item goes right before the list, the item is removed, and an emptied list is removed |
| ListDelete.LiftFromLast | packages/lexical-list/src/formatList.ts:607-609 | the first block of the last item goes right after the list, and the item is removed |
| ListDelete.LiftFromMiddle | packages/lexical-list/src/formatList.ts:610-615 | the list is split after the item, the item is removed, and the block goes right after the list |
| ListDelete.LiftLastBlock | packages/lexical-list/src/formatList.ts:616-618 | the list is split after the item, and the item's last block goes right after the list |
| ListDelete.DeleteAt | packages/lexical-list/src/formatList.ts:598-618 | the four cases together give `Deleted` |
| ListDelete.HandleDelete | packages/lexical-list/src/formatList.ts:572-625 | `Ok(false)` with nothing changed exactly when the guard rejects. `Err(NoParent)`, discarded, exactly when the list has no parent. Otherwise `Ok(true)` and `Deleted` |
| ListDelete.DeletePlacesBlock | packages/lexical-list/src/formatList.ts:599-618 | the block lands in the list's parent: before the list when it left the first item, in the list's slot when that emptied the list, and after the list otherwise. The list's earlier siblings stay |
| ListDelete.ParagraphTarget | packages/lexical-list/src/formatList.ts:525-543 | the guard of $handleListInsertParagraph: a range selection whose block is the first child of its nearest list item |
| ListDelete.EnterMeetsDelete | packages/lexical-list/src/formatList.ts:545-547 | when Enter hands a collapsed caret at offset 0 to $handleDelete, $handleDelete targets the same block and item |
| ListDelete.HandleListInsertParagraph | packages/lexical-list/src/formatList.ts:525-570 | `Ok(false)` exactly when the guard rejects. On an empty first block it outdents the item, or, at indent 0, acts as $handleDelete. The indent is getIndent's nesting depth, and a failing walk is `Err(NoParent)` with nothing changed. A non-empty block is reported as `split` |
| ListInsert.ClimbStop | packages/lexical-list/src/formatList.ts:251-279 | the climb from a key stops at a list item, or at a block right under a root that is not yet handled, whose rank is at most the key's |
| ListInsert.ClimbStopFirst | packages/lexical-list/src/formatList.ts:251-279 | the climb stops at the first key on the path that is a list item or an unhandled block under a root, and finds nothing exactly when the path holds neither |
| ListInsert.Climb | packages/lexical-list/src/formatList.ts:250-280 | the climbing loop for one leaf returns exactly the stop the climb defines |
| ListInsert.WrapBlock | packages/lexical-list/src/formatList.ts:270-274 | a new list of type `lt` takes the block's slot under the root and holds a new list item, which holds the block |
| ListInsert.Rehome | packages/lexical-list/src/formatList.ts:257 | $changeListItemType on a reached item: it fails, with nothing changed, exactly where that function throws. Otherwise the item is alone in a list of type `lt` under the old grandparent, every item converted before stays converted, and no other block moves |
| ListInsert.RehomeUnmoved | packages/lexical-list/src/formatList.ts:130-155 | changing an item's list type moves no block that is neither a list nor a list item |
| ListInsert.RehomeConvertedKept | packages/lexical-list/src/formatList.ts:130-155 | changing an item's list type leaves it converted and keeps every earlier conversion |
| ListInsertLoop.EnclosedRehomed | packages/lexical-list/src/formatList.ts:257 | a block already wrapped into its own list keeps its place when another item changes list type |
| ListInsertLoop.EnclosedWrapped | packages/lexical-list/src/formatList.ts:269-274 | a block just wrapped sits in a converted item of a list right under its old root |
| ListInsertLoop.WrapsStep | packages/lexical-list/src/formatList.ts:232-282 | one more turn keeps every earlier wrapped block in place and adds the block this turn wrapped |
| ListInsertLoop.ItemStep | packages/lexical-list/src/formatList.ts:240-243 | the list item reached is converted, every leaf reached so far still is, and no wrapped block moves. On failure nothing changed |
| ListInsertLoop.WrapStep | packages/lexical-list/src/formatList.ts:264-275 | the block is wrapped: its new list takes its slot under the root, and every leaf reached so far stays reached |
| ListInsertLoop.LeafStep | packages/lexical-list/src/formatList.ts:249-281 | a leaf's turn: the climb converts the list item it meets or wraps the block it stops at; every leaf up to this one is reached, handled only grows, nothing outside the handled nodes moves, and on failure nothing changed |
| ListInsertLoop.Step | packages/lexical-list/src/formatList.ts:233-281 | one turn: an empty element converts its nearest list item, and a leaf converts the item its climb meets or wraps the block it stops at. Every leaf up to this one is reached, handled only grows, and nothing else moves |
| ListInsertLoop.ConvertAll | packages/lexical-list/src/formatList.ts:231-282 | after the loop, every selected leaf whose climb meets a list item or a block under a root sits in a list item alone in a list of type `lt`. Every wrapped block sits in such an item in its old root's slot, no other block moved, and a failure restores the document |
| ListInsertLoop.ListInPlace | packages/lexical-list/src/formatList.ts:213-223 | an empty paragraph under a root gives its slot to a new list of type `lt`, which holds a new list item with the paragraph's indent and format |
| ListInsertLoop.InsertAtEmptyItem | packages/lexical-list/src/formatList.ts:210-228 | under a root, the list replaces the paragraph; under a list item, that item changes list type, failing exactly where $changeListItemType throws; elsewhere nothing happens |
| ListInsertLoop.InsertList | packages/lexical-list/src/formatList.ts:197-285 | the empty-item branch as above; otherwise ConvertAll's conversion, placement and frame. On failure the document is restored |
| ListRemove.UnwrapItem | packages/lexical-list/src/formatList.ts:371-391 | a fresh paragraph holding the item's children, in order, goes right after the insertion point, and the item leaves its parent |
| ListRemove.RelocateStep | packages/lexical-list/src/formatList.ts:384-389 | the per-item check moves an endpoint on that item to the start of its paragraph and leaves any other endpoint alone |
| ListRemove.FollowedRelocates | packages/lexical-list/src/formatList.ts:370-392 | over all items, the per-item checks put an endpoint that sat on an item at the start of that item's paragraph |
| ListRemove.UnwrapItems | packages/lexical-list/src/formatList.ts:370-392 | the item loop's state is the one its steps define, and both endpoints are relocated |
| ListRemove.UnwrapLoop | packages/lexical-list/src/formatList.ts:370-392 | the same, for the loop itself |
| ListRemove.ListUnwrapped | packages/lexical-list/src/formatList.ts:366-393 | after the loop and the list's removal, `Unwrapped`: the new paragraphs stand, in item order, in the list's slot, each holds the children of its item, and the items and the list are out of the tree. Every other node lost only the items from its children, and no other parent link changed |
| ListRemove.UnwrapList | packages/lexical-list/src/formatList.ts:366-393 | one list of removeList: the state is `Unwrapped`, and both selection endpoints are relocated |
| ListUnlist.TopList | packages/lexical-list/src/formatList.ts:350 | $getTopListNode: a list above the key, or a failure when there is none |
| ListUnlist.LeafList | packages/lexical-list/src/formatList.ts:355-360 | for a leaf with a list item above, the top list above that item |
| ListUnlist.CollectListsMembers | packages/lexical-list/src/formatList.ts:352-362 | the gathered lists are exactly the top lists of the selected leaves, and gathering fails exactly when one of those lookups fails |
| ListUnlist.ListsToRemove | packages/lexical-list/src/formatList.ts:345-363 | the lists gathered, without repeats, all of them lists |
| ListUnlist.GatherLists | packages/lexical-list/src/formatList.ts:345-363 | the gathering loop returns exactly `ListsToRemove` |
| ListUnlist.UnwrapAfter | packages/lexical-list/src/formatList.ts:366-393 | unwrapping one list keeps every old node's content, makes only paragraphs, and takes the list out of the tree |
| ListUnlist.RelocateResettles | packages/lexical-list/src/formatList.ts:384-389 | a relocated endpoint is where it was or at the start of a new empty paragraph |
| ListUnlist.UnlistedStep | packages/lexical-list/src/formatList.ts:365-394 | one more completed turn extends the chain of turns |
| ListUnlist.Replay | packages/lexical-list/src/formatList.ts:384-389 | an endpoint moves only to the start of an element, and turns with no items leave it alone |
| ListUnlist.ReplayStep | packages/lexical-list/src/formatList.ts:365-394 | after one more turn, the endpoints are relocated by that turn's items |
| ListUnlist.UnlistIn | packages/lexical-list/src/formatList.ts:365-394 | one turn on a list in the tree: the turn is done (`Unwrapped`), the list is out, and the endpoints are relocated |
| ListUnlist.UnlistOne | packages/lexical-list/src/formatList.ts:365-394 | one turn: its items are exactly $getAllListItems of the list, and it succeeds unless the list has no parent but has items. On failure nothing changed |
| ListUnlist.UnlistAll | packages/lexical-list/src/formatList.ts:365-394 | every list is out of the tree, each turn unwrapped its list in order, and the endpoints are replayed through the turns |
| ListUnlist.RemoveList | packages/lexical-list/src/formatList.ts:340-397 | a failed top-list lookup or a parentless list with items is an error with nothing changed. Otherwise every gathered list is replaced, in order, by paragraphs holding its items' children, and the selection endpoints follow the items they sat on |

## Left out

- Tree.Doc.Remove: only detaches the key. Lexical's `remove()` also removes a parent left empty that cannot be empty, and ListItemNode's own `remove` merges the nested lists around the item and renumbers its list. Neither is modelled, so a list emptied by an item's removal stays in the tree unless formatList.ts removes it itself.
- Tree.Doc.Append: is the generic `append`. ListNode's `append`, which wraps a node that is not a list item into a new list item, is not modelled. Every call in formatList.ts that appends to a list passes list items, which that override leaves alone.
- Tree.Doc.AppendTo: a list item's `append` merges an appended list item into itself, which gives the list › list item › list shape that the outdent at formatList.ts:471-478 reads. A paragraph or list appended to a list item stays its child, as at lines 182, 273 and 452. ListItemNode.ts is not part of this model, so no other `canMergeWith` case is modelled.
- ListDelete.HandleListInsertParagraph: the branch for a non-empty first block (formatList.ts:555-569) calls `selection.insertParagraph` and `insertNewAfter`, which live outside formatList.ts. It is reported through the `split` flag and changes nothing.
- ListUnlist.RemoveList: its top-level contract ties each turn to its list and to `Unwrapped`; that a turn's items are exactly $getAllListItems of its list is stated per turn by ListUnlist.UnlistOne, because $getAllListItems reads the live tree.
- ListUnlist.TopList: $getTopListNode lives in utils.ts, which is not part of this model. It is modelled as the outermost list on the path from the key to the top, and as a failure when there is none.
- ListWalks.AllMembers: $getAllListItems lives in utils.ts, which is not part of this model. It is modelled as the list's items in order, where an item whose first child is a list is replaced by that list's items, depth first. A list that is not an item's first child is not visited. So ListUnlist.RemoveList carries a nested list placed after an item's first child, still a list, into that item's new paragraph.
- ListWalks.ItemIndent: ListItemNode.getIndent lives in LexicalListItemNode.ts, which is not part of this model. It is modelled as the number of list items above the item's list, reached by climbing two levels at a time, with the stored indent for a detached item.
- ListInsertLoop.ListInPlace: `setIndent` on a list item lives in LexicalListItemNode.ts; the model stores the paragraph's indent in the item and does not nest it.
- ListRemove.IsLeaf: counts only text nodes as leaves; line breaks and decorator nodes are not modelled.
- ListIndent.HandleIndent: the `removed` set of $handleIndent is created empty and never filled, so its membership test is left out.
- ListIndent.OutdentLast: the `isEmpty` test at formatList.ts:500-502 can never succeed there, because the list still holds the items before the last one; it is left out.
- Every throw (an `invariant` failure, a `throw`, a node method called on a parentless node) is an `Err` with the document unchanged, since `editor.update` discards the update. This covers ListSplit.SplitList, ListSplit.ChangeListItemType, ListDelete.HandleDelete, ListDelete.HandleListInsertParagraph, ListInsertLoop.ConvertAll and ListUnlist.RemoveList.
- registerListTransformer (formatList.ts:176-178) registers ListMerge.AutoMergeSiblingLists with the editor; the registration and when the editor runs transforms are not modelled.
- The selection is the anchor, the focus and the nodes it covers, given as inputs. Grid selections (`DEPRECATED_$isGridSelection`), text offsets beyond 0 and `selectStart` (formatList.ts:614) are not modelled.
- Keys are naturals handed out in order; text content, formats other than the stored numbers and node versions are not modelled.

## Findings

| source | as written | input that shows it | evidently intended | confidence | as-written member | corrected member |
|---|---|---|---|---|---|---|
| packages/lexical-list/src/formatList.ts:328-329 | after `mergeLists(prev, listNode)` has removed `listNode`, the next merge is `mergeLists(listNode, next)` | a list between two lists of its own type, for example three bullet lists side by side | the items of `next` join the surviving list `prev` | not executed | ListMerge.AutoMergeSiblingLists, ListMerge.AutoMergeAsWrittenLoses | ListMerge.AutoMergeSiblingListsCorrected, ListMerge.AutoMergeCorrectedKeeps |
