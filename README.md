# ChatGPT-Manager folder/chat tree, in Dafny

A Dafny model of the logic at the heart of the ChatGPT-Manager browser
extension. It covers:

- the in-memory folder/chat tree that every revision of the extension keeps;
- the tree operations of the three revisions:
  - the refactored `TreeManager` class;
  - the inline functions of `popup.js` and `refacto/popup.js`;
  - the archived `TreeManager`;
- the folders-first ordering;
- the two search engines and the popup's own chat index;
- the search pagination of `UIManager`;
- the two event buses;
- the preferences service;
- the early flat folder/chat store of `popu.js`.

The revisions disagree, and each one is modelled on its own terms:

- deleting a folder discards its subtree in `TreeManager`, but lifts its chats into the parent in the popups;
- moving onto a chat is refused in `TreeManager`, but redirected to the chat's parent in the popups;
- the archived descendant test counts the node itself.

Objects the source changes in place are Dafny classes. Each method's
`modifies` clause names the fields it may change, and its postcondition
relates their new values to specification functions of the old state; the
lemmas about those functions prove what the code promises.

The modules, one per concern:

- `Tree`: nodes, depth-first pre-order, `findById`, `findParentNode`, the descendant tests and the chat count.
- `Text`, `Seqs`: string helpers (lower-casing, trimming, substring search, word splitting) and sequence facts.
- `ChatIndex`: the chat walk that builds both search indexes, and the order-keeping filter.
- `Ordering`: `sortChildren`.
- `TreeEdit`: the tree updates the revisions share (append, delete, expand/collapse, toggle).
- `Popup`, `PopupState`, `PopupSession`, `PopupNavigation`: the inline tree and search functions of `popup.js` and `refacto/popup.js`.
- `TreeManager`: `refacto/managers/TreeManager.js`.
- `ArchiveTreeManager`: `refacto-archive/code-extraits/TreeManager.js`.
- `SearchEngine`: `refacto/services/SearchEngine.js`.
- `ArchiveSearch`, `ArchiveWordIndex`, `ArchiveSearchEngine`: `refacto-archive/code-extraits/SearchEngine.js`.
- `UIManager`: the state and arithmetic of `refacto/managers/UIManager.js`.
- `Listeners`, `EventBus`, `ArchiveEventBus`: the two event buses.
- `UserPreferences`: `refacto/services/UserPreferences.js`.
- `FlatStore`: `popu.js`.

## Model

| member | source | states |
|---|---|---|
| Tree.FindById | refacto/managers/TreeManager.js:22-31 | the start node is returned when its own id matches; any node returned carries the id asked for |
| Tree.FindByIdIsFirstInPreorder | refacto/managers/TreeManager.js:22-31 | `findById` returns the first node of the depth-first, children-in-order walk that carries the id, and null when none does |
| Tree.FindByIdSucceedsIff | popup.js:166-175 | the lookup succeeds exactly when the id occurs somewhere in the tree |
| Tree.FindByIdInTree | refacto/popup.js:244-253 | the node found is a node of the tree |
| Tree.FindByIdUnique | refacto/popup.js:244-253 | when ids are unique, looking up the id of any node of the tree yields that very node |
| Tree.FindParentSucceedsIff | popup.js:247-255 | `findParentNode` answers exactly for the ids that occur strictly below the start node |
| Tree.FindParentIsParent | popup.js:247-255 | the answer is a node of the tree with a child list, and one of its children carries the id |
| Tree.FindParentOfRoot | refacto/popup.js:325-333 | with unique ids, the parent of the root is null |
| Tree.AnyDescendantIff | popup.js:278-285 | the popup's `isDescendant` holds exactly for the ids strictly below the node, whatever the node types |
| Tree.SubtreeHasIff | refacto-archive/code-extraits/TreeManager.js:518-528 | the archived `isDescendant` holds exactly for the ids of the whole subtree, the node's own id included |
| Tree.FolderDescendantAgrees | refacto/managers/TreeManager.js:108-115 | `_isDescendant`, which searches only below folder children, agrees with the popup's test when only folders carry children |
| Tree.CountChatsInFolderCounts | refacto/managers/TreeManager.js:136-147 | `countChatsInFolder` is the number of chats reachable through folder children; each of them is a chat strictly below the folder, and a node without children counts 0 |
| ChatIndex.LocateFindsChats | popup.js:1009-1026 | the index walk yields exactly the chats of the tree, one entry each, in depth-first pre-order |
| ChatIndex.LocatePaths | popup.js:1009-1026 | every entry's path extends the path the walk started from with a chain of names that goes from the start node, through one child at each step, down to the chat itself |
| ChatIndex.KeepMembers | popup.js:1047-1052 | the search filter keeps exactly the index entries that match |
| ChatIndex.KeepIsSubsequence | popup.js:1047-1052 | the kept entries are in index order, with none invented or repeated |
| Ordering.CaseBlind | refacto/managers/TreeManager.js:126-127 | names that differ only in letter case collate as equal, as the base sensitivity asks |
| Ordering.SortByNameSorted | refacto/managers/TreeManager.js:126-127 | the name sort yields a permutation of its input that is sorted by collated name |
| Ordering.SortByNameOfSorted | refacto/managers/TreeManager.js:126-127 | an input already in name order is returned unchanged, so sorting twice is sorting once |
| Ordering.SortByNameStable | refacto/managers/TreeManager.js:126-127 | the sort is stable: for any name, the elements that collate equal to it come out in the order they went in |
| Ordering.OfKindCounts | refacto/managers/TreeManager.js:124-125 | the type filter keeps every node of that type as often as it occurs, and nothing else |
| Ordering.SortChildrenOrders | refacto/managers/TreeManager.js:122-129 | the result is a run of folders sorted by name followed by a run of chats sorted by name; `UIManager._sortChildren` (refacto/managers/UIManager.js) is the same function |
| Ordering.SortChildrenKeeps | popup.js:182-197 | the result holds exactly the folders and chats of the input, each as often as it occurs there; nodes of any other type are dropped |
| Ordering.SortChildrenIdempotent | refacto/popup.js:260-275 | sorting sorted children changes nothing |
| TreeEdit.Append | refacto/managers/TreeManager.js:42-45 | the child list is created when absent and the new node becomes its last entry; the parent's own fields are kept |
| TreeEdit.AppendLast | refacto/managers/TreeManager.js:45 | after the push the node is the parent's last child |
| TreeEdit.IndexOfId | refacto/managers/TreeManager.js:74 | `findIndex` gives the first position whose id matches, or -1 when none does |
| TreeEdit.Without | refacto/managers/TreeManager.js:76 | `splice(index, 1)` drops exactly that entry and keeps the others in order |
| TreeEdit.DeleteSucceedsIff | refacto/managers/TreeManager.js:72-86 | `_deleteNodeById` succeeds exactly when a child carries the id or it lies below a folder child, the same set `_isDescendant` finds |
| TreeEdit.DeleteByIdRemoves | refacto/managers/TreeManager.js:72-86 | a failed delete changes nothing; a successful one keeps the start node's own fields and cuts out one subtree whose top carries the id, losing exactly that subtree's ids |
| TreeEdit.DeleteByIdLeavesNoMatch | popup.js:213-227 | with unique ids, no node with the id is left after a successful delete |
| TreeEdit.DeleteByIdInTree | refacto/popup.js:291-305 | the subtree the delete cuts out was a node of the tree |
| TreeEdit.DeleteSourceRemovesIt | refacto/managers/TreeManager.js:102 | with unique ids and chats without children, deleting the id of any node other than the root cuts out that very node |
| TreeEdit.UpdateFirstFinds | refacto/managers/TreeManager.js:55-60 | an in-place edit of the node `findById` returns is what a later lookup finds; the start node keeps its own fields unless it was the one edited |
| TreeEdit.AddChildAppends | refacto/managers/TreeManager.js:39-47 | after `addNode` the parent found by id has the new node as last child; the tree gains exactly the ids of the new subtree and the root keeps its id |
| TreeEdit.ToggleFlips | refacto/managers/TreeManager.js:198-203 | toggling a folder stores `!expanded` (an absent flag becomes true) where a later lookup sees it, and keeps every id and the chat count |
| TreeEdit.Relabel | refacto/managers/TreeManager.js:55-60 | an edit that keeps the node's id, type and children keeps the ids and the chat count of the whole tree |
| TreeEdit.SetAllExpandedFlagsEveryFolder | refacto/managers/TreeManager.js:208-235 | expand-all (collapse-all) leaves every folder reachable through folders, root included, expanded (collapsed) |
| TreeEdit.SetAllExpandedFixedPoint | popup.js:970-1001 | a tree whose folders all carry the flag already is left as it is |
| TreeEdit.SetAllExpandedLastWins | refacto/popup.js:946-977 | expand-all then collapse-all equals collapse-all, and the reverse: the last walk decides every flag it reaches |
| TreeEdit.SetAllExpandedKeepsShape | refacto/managers/TreeManager.js:212-235 | the walk moves nothing: the same ids in the same pre-order positions, the same types and the same chat count |
| TreeEdit.DeleteNodeById | refacto/managers/TreeManager.js:72-86 | the `findIndex` loop and the loop over folder children compute exactly the delete `DeleteById` specifies |
| TreeEdit.FlagFolders | refacto/managers/TreeManager.js:212-235 | the recursive walk with its loop over the children computes exactly the expand/collapse `SetAllExpanded` specifies |
| Popup.MoveAllChatsToParent | popup.js:230-245 | the loop over the folder's children pushes onto the parent exactly the chats reachable through folders, depth first and in child order; with none, the parent is left without a new child list |
| Popup.RootNeverDeleted | popup.js:885-912 | with unique ids, deleting the top node's id leaves the tree unchanged, since it has no parent |
| Popup.FlattenKeepsChats | popup.js:885-911 | a confirmed delete of a folder other than the root loses no chat: the chat count under the root is unchanged |
| Popup.FlattenTradesIds | refacto/popup.js:861-887 | the same delete removes exactly the folder's subtree except its chats, which are lifted into the parent |
| Popup.PopupMoveChecks | popup.js:257-298 | a refused move leaves the tree unchanged; an accepted one passed every check: distinct ids, source not root, both found, source has a parent, target not its current parent unless root, target not below the source |
| Popup.CutRemovesSource | popup.js:295-300 | splicing the source out of its parent loses exactly the source's subtree |
| Popup.AcceptedMoveIs | popup.js:302-318 | an accepted move appends the source to the target when it is a folder or root, and otherwise to the parent of the target chat |
| Popup.AddBesideAppends | refacto/popup.js:385-391 | pushing beside a chat adds exactly the pushed subtree's ids and leaves it the last child of the chat's parent |
| Popup.PopupMoveKeepsNodes | refacto/popup.js:335-399 | an accepted move keeps every node exactly once, and the source ends as the last child of its destination |
| Popup.MoveOntoSiblingChat | popup.js:274 | moving a chat onto its sibling chat is accepted and only re-appends it at the end of their shared parent |
| PopupState.EntriesOf | popup.js:1011-1017 | one index entry per chat met, in the same order |
| PopupState.IndexNode | popup.js:1009-1026 | the recursive walk appends to the accumulator exactly the entries of the chats below the node, in depth-first order, each with its path |
| PopupState.BuildSearchIndex | popup.js:1004-1030 | the index built from `data` is the one `SearchIndexOf` specifies |
| PopupState.SearchIndexListsChats | popup.js:1004-1030 | the index holds one entry per chat of the tree in depth-first pre-order, copying id, name and link, storing an absent tag as '', with a path that names the root, then one child at each step, down to the chat |
| PopupState.HitsAreMatches | popup.js:1039-1055 | an entry is a search hit exactly when it is in the index and its lower-cased name, or non-empty tag, contains the lower-cased query; the hits keep the index order |
| PopupState.FilterIndex | popup.js:1047-1054 | the `forEach` over the index pushes exactly the hits, in index order |
| PopupState.OpenAndPushGrows | popup.js:724-735 | a saved push opens a parent whose flag is `false`, appends the node, and the parent's subtree gains exactly the node's ids |
| PopupState.PushIntoTree | popup.js:719-735 | the push is written into the tree: a later lookup finds the grown parent, and the tree gains exactly the new node's ids |
| PopupState.AddTreeAppends | refacto/popup.js:616-632 | a saved add appends the node last under its parent, leaves the parent not collapsed, and adds exactly the node's ids |
| PopupState.AddTreeRefused | refacto/popup.js:616-620 | an add under a missing or non-folder parent changes nothing; an add under a folder without a child list throws after opening the parent, so no id changes |
| PopupState.FolderFormAdds | popup.js:713-735 | a saved folder-form add creates an expanded, empty folder with the trimmed name as the parent's last child, adding its id alone |
| PopupState.ChatFormAdds | popup.js:797-823 | a saved chat-form add creates a chat with the trimmed name and link as the parent's last child; its tag is null exactly when the trimmed tag is empty |
| PopupState.ChatFormIsAdd | refacto/popup.js:694-722 | a chat submit that passes validation without a node being edited is an add, and the stored tag is null exactly for an empty trimmed tag |
| PopupState.FolderFormRenames | popup.js:716-717 | an edit submit changes no id and no chat count, and the edited node carries the trimmed name afterwards |
| PopupState.AddUnder | popup.js:719-735 | the add branch computes the outcome and tree `AddOutcome`/`AddTree` specify |
| PopupState.FolderSubmit | popup.js:711-741 | the folder submit handler computes the outcome and tree `FolderFormOutcome`/`FolderFormTree` specify |
| PopupState.ChatSubmit | popup.js:795-828 | the chat submit handler computes the outcome and tree `ChatFormOutcome`/`ChatFormTree` specify |
| PopupState.ChatEditCapturesNextAdd | popup.js:795-828 | as written: after a saved chat edit the edit variable still names the chat, so the next valid folder-form add renames that chat and creates no folder |
| PopupState.ChatSubmitThenFolderAdd | popup.js:737-738 | once a saved chat submit clears the edit variable, as the folder submit does, a following valid folder add creates the folder |
| PopupState.ToggleVisibility | popup.js:919-921 | toggling turns an absent flag into true, so a folder that was shown stays shown; a present flag is flipped, and so is what the renderer shows |
| PopupState.OpenUp | popup.js:1222-1232 | opening the parent folders keeps every id and the chat count |
| PopupState.Raise | popup.js:1225 | setting `expanded` keeps every id and the chat count |
| PopupState.OpenUpOpensFolder | popup.js:1222-1225 | the first step opens the folder it is given when that folder is in the tree |
| PopupState.Loaded | popup.js:141-156 | nothing stored gives the default expanded root with no children; a stored tree is kept, with `expanded = true` added only when the flag is absent |
| PopupSession.Session.constructor | popup.js:141-160 | the session starts on the loaded tree with its search index built, search mode off, no edit target and `'root'` as the add parent |
| PopupSession.Session.Save | popup.js:132-139 | saving rebuilds the search index from the current tree |
| PopupSession.Session.DeleteNode | popup.js:885-912 | the tree becomes `AfterDelete` of the old one (flatten, then delete, only when confirmed and a parent is found), and the index is rebuilt exactly when the delete goes through |
| PopupSession.Session.MoveNode | popup.js:257-321 | the step-by-step move returns and leaves exactly what `PopupMove` specifies, saving only after an accepted move |
| PopupSession.Session.ToggleFolder | popup.js:914-931 | only a folder found by id is toggled and saved; otherwise nothing changes |
| PopupSession.Session.ExpandAllFolders | popup.js:970-984 | the tree becomes `SetAllExpanded(old, true)` and the index is rebuilt |
| PopupSession.Session.CollapseAllFolders | popup.js:987-1001 | the tree becomes `SetAllExpanded(old, false)` and the index is rebuilt |
| PopupSession.Session.OpenAddForm | popup.js:854-864 | `addChat`/`addFolder` record the add parent and leave the edit target as it was |
| PopupSession.Session.EditNode | popup.js:866-883 | for a known node the edit target becomes that node and the add parent its parent when it has one; an unknown id changes nothing |
| PopupSession.Session.SubmitFolderForm | popup.js:711-741 | the tree follows `FolderFormTree`; a saved submit rebuilds the index and clears the edit target, any other leaves both |
| PopupSession.Session.SubmitChatForm | popup.js:795-828 | the tree follows `ChatFormTree` and a saved submit rebuilds the index; the edit target is left as it was, saved or not (`EditAfterChatForm`; see Findings) |
| PopupSession.Session.SearchChats | popup.js:1039-1055 | the index is built first when missing, and the results are exactly its hits, in index order |
| PopupSession.Session.ClearSearch | popup.js:1072-1081 | search mode goes off and the query becomes '' |
| PopupSession.Session.PerformSearch | popup.js:1057-1070 | a query shorter than 2 only clears the search; any other turns search mode on with that query and returns the hits |
| PopupSession.Session.OnSearchInput | popup.js:25-43 | the pending timer is cancelled; an empty trimmed query clears the search, any other arms a single timer for the trimmed query |
| PopupSession.Session.FireSearchTimer | popup.js:40-42 | firing the armed timer searches its query: at least 2 characters enter search mode with the query and the hits of the index (built from the tree first if there was none); a shorter one clears the search and leaves the index alone; with no timer armed nothing changes |
| PopupSession.Session.NavigateToChat | popup.js:1185-1219 | for a chat with a parent, the parent chain is opened and the search cleared; otherwise nothing changes |
| PopupNavigation.ShortcutTargetCases | refacto/popup.js:1222-1262 | with no selection the new node goes to `'root'`; a selected folder receives it; a selection unknown to the tree does nothing |
| PopupNavigation.ShortcutTargetIsFolder | refacto/popup.js:1229-1234 | in a tree with unique ids and children only under folders, any destination other than `'root'` is a folder of the tree, the selected chat's parent included |
| PopupNavigation.FirstChild | refacto/popup.js:1172-1175 | `getFirstChild` answers exactly for a node with a non-empty child list, with its first stored child |
| PopupNavigation.RightThenLeftCloses | refacto/popup.js:1086-1120 | on a folder whose flag is falsy, right toggles it open and then left toggles it closed; the flag ends `false` even when it started absent |
| PopupNavigation.LeftSelectsParent | refacto/popup.js:1105-1120 | left on anything but an open folder selects the node's parent unless that parent is root, and that parent holds the node as a child |
| PopupNavigation.RightSelectsFirstChild | refacto/popup.js:1092-1101 | right on an open folder selects its first stored child, or does nothing when it has none |
| PopupNavigation.SearchBoxQuery | refacto/popup.js:1363-1378 | the search runs exactly when the trimmed query has at least 2 characters, and on that trimmed query |
| TreeManager.DefaultRoot | refacto/managers/TreeManager.js:7-13 | the tree a manager gets when given none: an open, empty `'root'` folder named `Accueil` |
| TreeManager.MergeLaws | refacto/managers/TreeManager.js:58 | `Object.assign` with no properties changes nothing, assigning the same data twice is assigning it once, and two assignments in a row are one assignment of the overlaid data |
| TreeManager.NewNode | refacto/managers/TreeManager.js:163-173 | the created node takes `data.id` over the generated id, and a folder always ends with an empty child list and `expanded = false` whatever data says |
| TreeManager.MoveKeepsNodes | refacto/managers/TreeManager.js:94-106 | on a tree with unique ids, an accepted move keeps the multiset of ids (nothing lost or duplicated) and leaves the source as the target's last child |
| TreeManager.TargetOutsideSource | refacto/managers/TreeManager.js:100 | when the descendant check passes, the target's id is nowhere in the source's subtree |
| TreeManager.SourceBelowRoot | refacto/managers/TreeManager.js:95-100 | the source of an accepted move is never the root, since the root reaches the target through folders |
| TreeManager.CreateNodeAppends | refacto/managers/TreeManager.js:156-181 | an accepted `createNode` leaves the new node last under its parent and adds exactly the new node's ids to the tree |
| TreeManager.TreeManager.constructor | refacto/managers/TreeManager.js:5-14 | the manager holds the given tree, or the default one |
| TreeManager.TreeManager.AddNode | refacto/managers/TreeManager.js:39-47 | false and no change exactly when the parent is unknown; otherwise the node is appended to the parent's children |
| TreeManager.TreeManager.EditNode | refacto/managers/TreeManager.js:55-60 | false and no change exactly when the id is unknown; otherwise the data's properties are assigned onto the first match |
| TreeManager.TreeManager.DeleteNode | refacto/managers/TreeManager.js:67-86 | the root's id is refused; otherwise the first match below the root is cut out with its subtree, and the result says whether one was found |
| TreeManager.TreeManager.MoveNode | refacto/managers/TreeManager.js:94-106 | true exactly when none of the refusal conditions holds, and then the tree is the source deleted and pushed onto the target; otherwise unchanged |
| TreeManager.TreeManager.CreateNode | refacto/managers/TreeManager.js:156-181 | null and no change for an unknown parent; otherwise the built node is appended and returned |
| TreeManager.TreeManager.ToggleNode | refacto/managers/TreeManager.js:198-203 | true exactly for an existing folder, whose flag is then flipped; otherwise no change |
| TreeManager.TreeManager.ExpandAll | refacto/managers/TreeManager.js:208-219 | every folder reachable through folders is opened |
| TreeManager.TreeManager.CollapseAll | refacto/managers/TreeManager.js:224-235 | every folder reachable through folders is closed |
| ArchiveTreeManager.PruneTrades | refacto-archive/code-extraits/TreeManager.js:455-467 | `deleteNodeById` changes only child lists, and the ids left plus the ids of the spliced-out subtrees are exactly the ids before, each spliced subtree carrying the id and lying below the start node |
| ArchiveTreeManager.PruneFindsAll | refacto-archive/code-extraits/TreeManager.js:455-467 | something is spliced out exactly when the id occurs below the start node, and otherwise the tree is unchanged |
| ArchiveTreeManager.PruneOnce | refacto-archive/code-extraits/TreeManager.js:455-467 | with unique ids, deleting an id found below the start node splices out exactly one subtree, and no node with that id remains |
| ArchiveTreeManager.PruneUnique | refacto-archive/code-extraits/TreeManager.js:433-467 | the subtree spliced out is the node `findById` returns, removed with all its descendants |
| ArchiveTreeManager.MoveRefusesSelfAndRoot | refacto-archive/code-extraits/TreeManager.js:518-528 | since `isDescendant` counts the node itself, moving a node onto itself and moving the root anywhere both throw |
| ArchiveTreeManager.MoveKeepsNodes | refacto-archive/code-extraits/TreeManager.js:474-498 | with unique ids, an accepted move keeps the multiset of ids and leaves the source, with `parentId` set to the target, as the target's last child |
| ArchiveTreeManager.CountsArePreorder | refacto-archive/code-extraits/TreeManager.js:585-623 | `countNodes` is the number of nodes in the tree and `countFolders`/`countChats` the number of nodes of that type |
| ArchiveTreeManager.CountsAddUp | refacto-archive/code-extraits/TreeManager.js:585-623 | in a tree of folders and chats only, the node count is the folder count plus the chat count |
| ArchiveTreeManager.StateOf | refacto-archive/code-extraits/TreeManager.js:570-578 | `getState` reports the initialisation flag, then zero counts without data; with data, the pre-order tallies of all nodes, of folders and of chats, adding up when the tree holds only folders and chats |
| ArchiveTreeManager.Cleared | refacto-archive/code-extraits/TreeManager.js:696-704 | `clearInlineForms` leaves no inline-form flag anywhere in the tree, and keeps each node's id, type and child list |
| ArchiveTreeManager.ClearedIds | refacto-archive/code-extraits/TreeManager.js:696-704 | clearing the flags keeps the pre-order sequence of ids |
| ArchiveTreeManager.ClearedFinds | refacto-archive/code-extraits/TreeManager.js:696-704 | after clearing, `findById` finds the cleared image of the node it found before, and nothing where it found nothing |
| ArchiveTreeManager.MarkOne | refacto-archive/code-extraits/TreeManager.js:662-691 | setting a flag on one node of a flag-free tree leaves exactly one flagged node |
| ArchiveTreeManager.StartLeavesOneForm | refacto-archive/code-extraits/TreeManager.js:662-691 | after a `start*` call exactly one node carries a form flag: the node found by id, with exactly the flag that call sets |
| ArchiveTreeManager.NewChat | refacto-archive/code-extraits/TreeManager.js:382-388 | a new chat has no child list, the generated id, and its parent recorded |
| ArchiveTreeManager.NewFolder | refacto-archive/code-extraits/TreeManager.js:409-417 | a new folder is empty and expanded, with the generated id and its parent recorded |
| ArchiveTreeManager.CreateClearsForms | refacto-archive/code-extraits/TreeManager.js:709-750 | `createChat`/`createFolder` leave the new node last under its parent, add exactly its id, and leave no form flag |
| ArchiveTreeManager.RenameClearsForms | refacto-archive/code-extraits/TreeManager.js:755-763 | `updateNodeName` gives the node found by id the new name, keeps every id, and leaves no form flag |
| ArchiveTreeManager.BareRoot | refacto-archive/code-extraits/TreeManager.js:555-561 | `resetData` installs a lone, open `'root'` folder without flags |
| ArchiveTreeManager.TreeManager.constructor | refacto-archive/code-extraits/TreeManager.js:8-13 | the manager is not initialised, has emitted nothing, and holds no tree or the tree loading handed it |
| ArchiveTreeManager.TreeManager.Init | refacto-archive/code-extraits/TreeManager.js:18-39 | a second `init` only warns; otherwise a missing tree container throws and leaves the manager uninitialised, and a present one initialises it |
| ArchiveTreeManager.TreeManager.Destroy | refacto-archive/code-extraits/TreeManager.js:628-640 | an uninitialised manager is left alone; otherwise the tree is dropped and the flag cleared |
| ArchiveTreeManager.TreeManager.GetState | refacto-archive/code-extraits/TreeManager.js:570-578 | the state reports the manager's own flag, whether it holds a tree, and that tree's folder and chat tallies |
| ArchiveTreeManager.TreeManager.DeleteNodeById | refacto-archive/code-extraits/TreeManager.js:455-467 | the `findIndex` splice and the walk over every child compute the pruning PruneTrades and PruneFindsAll describe |
| ArchiveTreeManager.TreeManager.DeleteNode | refacto-archive/code-extraits/TreeManager.js:433-448 | `'root'` or a declined confirmation changes nothing and emits nothing; otherwise the id is pruned from the tree and a node-deleted event for that id is emitted |
| ArchiveTreeManager.TreeManager.MoveNode | refacto-archive/code-extraits/TreeManager.js:474-510 | the error thrown is the first failing check (not found, target not a folder, target inside the source), with the tree unchanged and nothing emitted; otherwise the tree is the source pruned and pushed, re-parented, onto the target, and a node-moved event with both ids is emitted |
| ArchiveTreeManager.TreeManager.ToggleFolder | refacto-archive/code-extraits/TreeManager.js:334-346 | only a folder found by id has its flag flipped, and then an expanded or collapsed event names the state it is left in; anything else changes nothing and emits nothing |
| ArchiveTreeManager.ToggleEventIsNewState | refacto-archive/code-extraits/TreeManager.js:343-344 | the toggle event is the expanded event exactly when the flipped flag is true |
| ArchiveTreeManager.TreeManager.AddChat | refacto-archive/code-extraits/TreeManager.js:377-398 | for a known parent of any type, a chat named `Nouveau chat` is appended and a node-added event carrying it is emitted; otherwise no change and no event |
| ArchiveTreeManager.TreeManager.AddFolder | refacto-archive/code-extraits/TreeManager.js:404-427 | for a known parent, an expanded folder named `Nouveau dossier` is appended and a node-added event carrying it is emitted; otherwise no change and no event |
| ArchiveTreeManager.TreeManager.ClearInlineForms | refacto-archive/code-extraits/TreeManager.js:696-704 | the recursive walk returns the tree with every flag cleared, whose properties Cleared, ClearedIds and ClearedFinds state |
| ArchiveTreeManager.TreeManager.StartForm | refacto-archive/code-extraits/TreeManager.js:662-691 | for a known node, every flag is cleared and the one flag set on that node (see StartLeavesOneForm); otherwise no change |
| ArchiveTreeManager.TreeManager.CreateChat | refacto-archive/code-extraits/TreeManager.js:709-727 | for a known parent, the chat with name, link and tag is pushed, every flag cleared and a node-added event carrying the chat emitted; otherwise no change and no event |
| ArchiveTreeManager.TreeManager.CreateFolder | refacto-archive/code-extraits/TreeManager.js:732-750 | for a known parent, the named expanded folder is pushed, every flag cleared and a node-added event carrying the folder emitted; otherwise no change and no event |
| ArchiveTreeManager.TreeManager.UpdateNodeName | refacto-archive/code-extraits/TreeManager.js:755-763 | for a known node, the name is set, every flag cleared and a node-edited event emitted; otherwise no change and no event |
| ArchiveTreeManager.TreeManager.EditNode | refacto-archive/code-extraits/TreeManager.js:646-657 | for a known node and a non-blank answer to the prompt, the name becomes the trimmed answer and a node-edited event is emitted; a cancelled or blank answer or an unknown node changes nothing and emits nothing |
| ArchiveTreeManager.TreeManager.ResetData | refacto-archive/code-extraits/TreeManager.js:554-564 | the tree becomes the bare root |
| SearchEngine.EngineIndexListsChats | refacto/services/SearchEngine.js:22-52 | the index holds one entry per chat of the tree, in depth-first pre-order, each with the chat's id, name, link and tag and a path that names the tree's top, then one child at each step, down to the chat |
| SearchEngine.IndexNode | refacto/services/SearchEngine.js:32-52 | the recursive walk appends to the index exactly the entries of the chats at and below the node, in pre-order |
| SearchEngine.SearchFilters | refacto/services/SearchEngine.js:69-80 | a falsy or too-short query gives nothing; any other throws a `TypeError` while the index is still null, and otherwise gives exactly the index entries whose name, or truthy tag, contains the lower-cased trimmed query, in index order |
| SearchEngine.SearchIgnoresCase | refacto/services/SearchEngine.js:69-77 | a query and its lower-cased spelling pass or fail the guard together and find the same entries (or the same error) |
| SearchEngine.GuardBeforeTrim | refacto/services/SearchEngine.js:70-74 | the length is measured before trimming, so the padded query `" a"` passes the two-character guard and is searched as `"a"` |
| SearchEngine.PopupGuardImpliesEngineGuard | refacto/services/SearchEngine.js:70 | any query the popup's search box lets through (two characters once trimmed) passes the engine's guard |
| SearchEngine.ShortQueryStillEntersSearchMode | refacto/services/SearchEngine.js:94-104 | the one-letter query `"a"` is not blank, so the timer is armed, but its search finds nothing |
| SearchEngine.SearchEngine.constructor | refacto/services/SearchEngine.js:5-16 | no index, no timer, search mode off, empty query, and the default configuration (minimum length 2, 400 ms) |
| SearchEngine.SearchEngine.BuildIndex | refacto/services/SearchEngine.js:22-25 | the index becomes the one EngineIndexListsChats describes for the tree |
| SearchEngine.SearchEngine.RebuildIndex | refacto/services/SearchEngine.js:58-62 | the index is rebuilt only when `rebuildIndexOnChange` is set |
| SearchEngine.SearchEngine.Initialize | refacto/services/SearchEngine.js:137-141 | the index is built only when there is a tree |
| SearchEngine.SearchEngine.ClearSearch | refacto/services/SearchEngine.js:112-119 | search mode off, query emptied, timer cancelled |
| SearchEngine.SearchEngine.PerformSearch | refacto/services/SearchEngine.js:87-107 | a blank query clears the search and answers no results at once; any other cancels the armed timer and arms one for the query as given, leaving the search state alone |
| SearchEngine.SearchEngine.FireTimer | refacto/services/SearchEngine.js:101-106 | the fired timer answers the search of its query, which becomes the current query with search mode on; a search that throws on the missing index leaves query and mode as they were; with no timer armed nothing happens |
| SearchEngine.SearchEngine.GetSearchState | refacto/services/SearchEngine.js:125-131 | the state reports whether an index exists, with the search mode and current query |
| ArchiveSearch.SearchNodeFinds | refacto-archive/code-extraits/SearchEngine.js:46-87 | the name results of a walk are exactly the nodes of the subtree whose non-empty name contains the text, in pre-order, and likewise the tag results for the nodes with a matching tag |
| ArchiveSearch.SearchNodeFindsPaths | refacto-archive/code-extraits/SearchEngine.js:69-85 | a node below the start whose ancestors' names, joined by ' / ', contain the text is reported as a path result carrying that joined path |
| ArchiveSearch.SearchDataFindsPaths | refacto-archive/code-extraits/SearchEngine.js:89-94 | the same over the whole data: every visited node whose ancestor names contain the text is a path result |
| ArchiveSearch.SearchNodesFind | refacto-archive/code-extraits/SearchEngine.js:89-94 | the same for a walk over an array of top-level items |
| ArchiveSearch.SearchNodeSound | refacto-archive/code-extraits/SearchEngine.js:46-87 | every result is justified by its own match type: the name, a tag or the recorded path contains the text |
| ArchiveSearch.SearchNodesSound | refacto-archive/code-extraits/SearchEngine.js:89-94 | the same for every result of a walk over an array of items |
| ArchiveSearch.SearchNodeBound | refacto-archive/code-extraits/SearchEngine.js:46-87 | a subtree of k nodes yields at most 3k results, one per test and node |
| ArchiveSearch.TripleHit | refacto-archive/code-extraits/SearchEngine.js:48-78 | a node whose name, a tag and the path above it all contain the text is reported three times, as name, tag and path results with the same path; a start node's results carry the empty path |
| ArchiveSearch.PerformSearchCases | refacto-archive/code-extraits/SearchEngine.js:23-34 | a falsy query, or one shorter than the minimum once trimmed, gives nothing; any other is searched as its lower-cased trimmed text |
| ArchiveSearch.GuardsDisagree | refacto-archive/code-extraits/SearchEngine.js:24 | the archived guard trims before measuring and refuses `" a"`, which the refactored guard lets through |
| ArchiveSearch.EscapeRoundTrip | refacto-archive/code-extraits/SearchEngine.js:117-119 | the escaped string puts a backslash before each special character and only there, and reads back as the original text, so the pattern built from it matches the query literally |
| ArchiveSearch.EscapeOnto | refacto-archive/code-extraits/SearchEngine.js:117-119 | every well-formed escaped string is the escape of the text it reads back as |
| ArchiveSearch.MarkPiecesKeepText | refacto-archive/code-extraits/SearchEngine.js:105-110 | highlighting only wraps: the pieces the global case-insensitive match cuts put together give back the text |
| ArchiveSearch.MarkPiecesMatch | refacto-archive/code-extraits/SearchEngine.js:108-109 | every wrapped piece equals the query up to letter case |
| ArchiveSearch.HighlightGuard | refacto-archive/code-extraits/SearchEngine.js:105-110 | an empty query or text comes back unchanged; otherwise the result is the rendering of pieces that put together give back the text |
| ArchiveWordIndex.InsertLookup | refacto-archive/code-extraits/SearchEngine.js:159-182 | pushing postings into the map in order creates a word's list on its first posting and appends every later entry under it, in order |
| ArchiveWordIndex.BuiltIndexLookup | refacto-archive/code-extraits/SearchEngine.js:150-199 | the built index maps exactly the words posted during the walk, each to the entries posted under it in traversal order |
| ArchiveWordIndex.PostingsOfSound | refacto-archive/code-extraits/SearchEngine.js:153-192 | every name entry is filed under one of the whitespace-separated words of the lower-cased name, every tag entry under one of the node's tags lower-cased |
| ArchiveWordIndex.BuiltIndexFinds | refacto-archive/code-extraits/SearchEngine.js:150-199 | the index is complete: every node the walk visits is listed under each word of its lower-cased non-empty name as a name entry, and under each lower-cased tag as a tag entry, both with its ancestors' names joined by ' / ' |
| ArchiveWordIndex.PostingsOfReaches | refacto-archive/code-extraits/SearchEngine.js:153-192 | a node reached through the children lists has its own name and tag entries, with the path of names down to it, among the entries its ancestor's walk pushes |
| ArchiveWordIndex.DedupDistinct | refacto-archive/code-extraits/SearchEngine.js:216-219 | the results map keeps at most one entry per key `node.id \|\| node.name` |
| ArchiveWordIndex.DedupKeys | refacto-archive/code-extraits/SearchEngine.js:216-219 | every key seen is represented in the results |
| ArchiveWordIndex.DedupKeepsFirst | refacto-archive/code-extraits/SearchEngine.js:216-219 | the entry kept for a key is the first one seen with that key |
| ArchiveWordIndex.DedupFromScratch | refacto-archive/code-extraits/SearchEngine.js:211-224 | deduplicating a candidate list gives one entry per key, every candidate key represented, only candidates, and the first candidate of each key |
| ArchiveWordIndex.DedupFirstSeen | refacto-archive/code-extraits/SearchEngine.js:211-224 | the results are the candidates taken at increasing positions, and those positions are exactly the first candidate of each key, so the map's insertion order is first-seen order |
| ArchiveWordIndex.SearchWithIndexResults | refacto-archive/code-extraits/SearchEngine.js:206-225 | no index or an empty query gives nothing; otherwise the results are the entries listed under the query's words, deduplicated as DedupFromScratch states, in first-seen order |
| ArchiveSearchEngine.Overlay | refacto-archive/code-extraits/SearchEngine.js:231-233 | each key the passed object carries replaces the current setting, and every other setting is kept |
| ArchiveSearchEngine.OverlayTwice | refacto-archive/code-extraits/SearchEngine.js:231-233 | configuring twice is configuring once with the second object spread over the first, and configuring with no key changes nothing |
| ArchiveSearchEngine.SearchRecursive | refacto-archive/code-extraits/SearchEngine.js:46-87 | the recursive walk appends to the results exactly the hits ArchiveSearch.SearchNode specifies |
| ArchiveSearchEngine.AnyTagMatches | refacto-archive/code-extraits/SearchEngine.js:57-60 | the `some` loop answers true exactly when one of the node's tags, lower-cased, contains the text |
| ArchiveSearchEngine.SearchInData | refacto-archive/code-extraits/SearchEngine.js:42-97 | the results are exactly those of the walk from an empty path over each item of an array, over a single object, or nothing otherwise |
| ArchiveSearchEngine.IndexNode | refacto-archive/code-extraits/SearchEngine.js:153-192 | the walk leaves the map with the node's name words, then its tags, then its children's postings pushed in order |
| ArchiveSearchEngine.IndexWords | refacto-archive/code-extraits/SearchEngine.js:157-168 | one push per word of the name, in order |
| ArchiveSearchEngine.IndexTags | refacto-archive/code-extraits/SearchEngine.js:172-183 | one push per tag under the lower-cased tag, in order |
| ArchiveSearchEngine.EnterHits | refacto-archive/code-extraits/SearchEngine.js:215-220 | entering one word's list into the results map keeps the first entry per key and the key set in step |
| ArchiveSearchEngine.ArchiveSearchEngine.constructor | refacto-archive/code-extraits/SearchEngine.js:6-15 | no index, no timer, and the archived defaults (minimum length 2, 300 ms) |
| ArchiveSearchEngine.ArchiveSearchEngine.PerformSearch | refacto-archive/code-extraits/SearchEngine.js:23-34 | the guard and the walk compute exactly ArchiveSearch.PerformSearch with the configured minimum length |
| ArchiveSearchEngine.ArchiveSearchEngine.SearchWithDebounce | refacto-archive/code-extraits/SearchEngine.js:127-144 | the armed timer is cancelled; a falsy or blank query answers `[]` at once, any other arms a timer for the query and the data |
| ArchiveSearchEngine.ArchiveSearchEngine.FireTimer | refacto-archive/code-extraits/SearchEngine.js:140-143 | the fired timer answers `performSearch` of the query and data it was armed with, under the configuration at firing time |
| ArchiveSearchEngine.ArchiveSearchEngine.BuildSearchIndex | refacto-archive/code-extraits/SearchEngine.js:150-199 | the new map is the index ArchiveWordIndex.BuiltIndexLookup describes |
| ArchiveSearchEngine.ArchiveSearchEngine.SearchWithIndex | refacto-archive/code-extraits/SearchEngine.js:206-225 | the loop over the query words computes the deduplicated results ArchiveWordIndex.SearchWithIndexResults describes |
| ArchiveSearchEngine.ArchiveSearchEngine.Configure | refacto-archive/code-extraits/SearchEngine.js:231-233 | the configuration becomes the current one with the passed keys spread over it |
| UIManager.InsertResult | refacto/managers/UIManager.js:420-422 | inserting one result into the sorted copy adds exactly that result |
| UIManager.InsertResultSorted | refacto/managers/UIManager.js:420-422 | inserting into a sorted copy keeps it sorted by case-blind name order |
| UIManager.SortResultsSorted | refacto/managers/UIManager.js:420-422 | the sorted copy is sorted by case-blind name order and is a permutation of the results |
| UIManager.TotalPagesBounds | refacto/managers/UIManager.js:425 | the page count is at least 1 and is the least number of eight-result pages that hold every result |
| UIManager.PageContents | refacto/managers/UIManager.js:426-427 | a page in range shows the next eight sorted results from its first index, or what is left on the last page, and never nothing while there are results |
| UIManager.PagesFromTail | refacto/managers/UIManager.js:424-427 | the pages from p to the last, put together, are the sorted results from page p's first index on |
| UIManager.PagesCoverResults | refacto/managers/UIManager.js:424-427 | all the pages in order are exactly the sorted copy: paging neither loses nor repeats a result |
| UIManager.PaginationExamples | refacto/tests/UIManager.test.js:374-417 | 25 results make four pages with eight shown on the third; with 15, page 1 disables previous and page 2 is the last, with seven results |
| UIManager.ButtonsStayInRange | refacto/managers/UIManager.js:464-465 | from a page in range, a button is disabled exactly when its click does nothing, and an enabled click lands on a page in range |
| UIManager.UIManager.constructor | refacto/managers/UIManager.js:5-17 | no node being edited, new nodes go under `'root'`, search mode off with no results, page 1 and an empty query, in the given mode |
| UIManager.UIManager.ShowAddForm | refacto/managers/UIManager.js:201-213 | the form's parent id is recorded |
| UIManager.UIManager.ShowEditForm | refacto/managers/UIManager.js:219-227 | the node being edited is recorded |
| UIManager.UIManager.ShowSearchResults | refacto/managers/UIManager.js:400-466 | the search state is written first; without a container nothing is shown, otherwise the view is the page of the sorted copy with the count, the page count and the disabled buttons |
| UIManager.UIManager.ClickPrev | refacto/managers/UIManager.js:515-522 | past page 1 the previous button shows the page before of the results it was built for, in search mode with its query and results recorded; on page 1 it does nothing |
| UIManager.UIManager.ClickNext | refacto/managers/UIManager.js:523-530 | before the last page the next button shows the page after of the results it was built for, in search mode with its query and results recorded; on the last it does nothing |
| UIManager.UIManager.ClearSearchResults | refacto/managers/UIManager.js:727-732 | the search state returns to its defaults |
| UIManager.CountChatsInFolderLoop | refacto/managers/UIManager.js:183-195 | the loop returns the recursive chat count, which Tree.CountChatsInFolderCounts shows is the number of chats reachable through folders |
| UIManager.CountExamples | refacto/tests/UIManager.test.js:123-153 | a folder holding a chat and a sub-folder with two chats counts three, and an empty folder counts none |
| Listeners.IndexOf | refacto/core/EventBus.js:29 | `indexOf` answers -1 exactly when the callback is absent, and otherwise the first position holding it |
| Listeners.RemoveFirst | refacto/core/EventBus.js:29-32 | an absent callback leaves the list alone; otherwise exactly one occurrence leaves it (one fewer element, the multiset minus that callback) |
| Listeners.RemoveFirstAfterAppend | refacto/core/EventBus.js:26-33 | `off` right after `on` with a callback not yet registered gives back the list it started from |
| Listeners.RemoveFirstTakesEarliest | refacto/core/EventBus.js:29-32 | with a duplicate registration, `off` drops the earliest one, not the one `on` just added |
| Listeners.Subscribe | refacto/core/EventBus.js:14-19 | `on` leaves the event among the registry's keys, creating its list when missing, and no other key appears |
| Listeners.Unsubscribe | refacto/core/EventBus.js:26-33 | `off` never adds or deletes an event's list, even when it empties it |
| Listeners.Clear | refacto/core/EventBus.js:56-62 | `clear` never adds an event |
| Listeners.OthersUntouched | refacto/core/EventBus.js:14-62 | `on`, `off` and `clear(event)` change no other event's list |
| Listeners.CountUpdates | refacto/core/EventBus.js:69-72 | `listenerCount` goes up by one after `on`, down by one after `off` of a registered callback (and not otherwise), and is 0 after either kind of `clear` |
| Listeners.OffUndoesOn | refacto/core/EventBus.js:14-33 | `on` then `off` of a new callback restores the registry, except that the event keeps a (possibly empty) list |
| Listeners.TotalWithout | refacto-archive/code-extraits/EventBus.js:172 | the listener total of `getState` does not depend on the order the lists are summed in |
| Listeners.TotalUpdate | refacto-archive/code-extraits/EventBus.js:172 | replacing one event's list changes the total by the difference in length |
| Listeners.TotalUpdates | refacto-archive/code-extraits/EventBus.js:168-175 | the total goes up by one after `on`, down by one after `off` of a registered callback, down by the event's count after `clear(event)`, and to 0 after `clear()` |
| EventBus.Failing | refacto/core/EventBus.js:43-49 | the callbacks whose error is logged are exactly the called ones that throw |
| EventBus.FailingAppend | refacto/core/EventBus.js:43-49 | the logged callbacks of two runs in a row are those of the first followed by those of the second |
| EventBus.EventBus.constructor | refacto/core/EventBus.js:5-7 | the registry starts empty |
| EventBus.EventBus.On | refacto/core/EventBus.js:14-19 | the registry becomes Listeners.Subscribe of the old one |
| EventBus.EventBus.Off | refacto/core/EventBus.js:26-33 | the registry becomes Listeners.Unsubscribe of the old one |
| EventBus.EventBus.Emit | refacto/core/EventBus.js:40-50 | every listener of the event is called once in registration order, a throwing one is logged and the loop goes on, and the registry is unchanged |
| EventBus.EventBus.Clear | refacto/core/EventBus.js:56-62 | the registry becomes Listeners.Clear of the old one |
| EventBus.EventBus.ListenerCount | refacto/core/EventBus.js:69-72 | the number of callbacks registered for the event, 0 for an unknown one |
| EventBus.BusExamples | refacto/tests/EventBus.test.js:9-26 | a handler registered then emitted to is called; after `off` it is not; an unknown event calls nothing |
| ArchiveEventBus.Callbacks | refacto-archive/code-extraits/EventBus.js:110-112 | the callbacks behind a list of registered functions, position by position |
| ArchiveEventBus.Directs | refacto-archive/code-extraits/EventBus.js:126-133 | the listeners left once every one-shot wrapper has removed itself are exactly those registered by `on` |
| ArchiveEventBus.ThenThen | refacto-archive/code-extraits/EventBus.js:110-118 | calls recorded before two nested steps add up in order |
| ArchiveEventBus.EmitFromQuiet | refacto-archive/code-extraits/EventBus.js:110-130 | a visit to a non-throwing listener calls it, and a one-shot wrapper then takes itself off the live array before the next index |
| ArchiveEventBus.EmitFromThrow | refacto-archive/code-extraits/EventBus.js:113-117 | a visit to a throwing listener re-emits `'error:occurred'` and continues on the array that re-emission left, unless it overflowed |
| ArchiveEventBus.EmitFromPlain | refacto-archive/code-extraits/EventBus.js:107-119 | with only `on` listeners from index k on and none throwing, the rest of the walk calls each of them once in order and changes nothing |
| ArchiveEventBus.EmitPlain | refacto-archive/code-extraits/EventBus.js:107-119 | with only `on` listeners and none throwing, `emit` calls each once in order and changes nothing |
| ArchiveEventBus.OnceRunsOnce | refacto-archive/code-extraits/EventBus.js:126-133 | a one-shot listener alone on its event runs on the first `emit` and is gone; a second `emit` calls nothing |
| ArchiveEventBus.OnceThrowingStays | refacto-archive/code-extraits/EventBus.js:127-130 | a one-shot callback that throws never reaches its `off`, so with no error listener it stays registered |
| ArchiveEventBus.ErrorLoopOverflows | refacto-archive/code-extraits/EventBus.js:113-117 | once an error listener throws, re-emission recurses without bound: whatever the stack depth, the `emit` ends in overflow |
| ArchiveEventBus.OnceSkipsNext | refacto-archive/code-extraits/EventBus.js:107-133 | with `once(e, a)` then `on(e, b)`, emitting e calls a and never b, leaving only b registered |
| ArchiveEventBus.EmitListNoThrow | refacto-archive/code-extraits/EventBus.js:107-133 | iterating over a copy, with no callback throwing, calls every listener in order and leaves exactly the `on` listeners |
| ArchiveEventBus.EmitSnapshotCallsAll | refacto-archive/code-extraits/EventBus.js:107-133 | corrected `emit` over a copy: every listener registered at the start is called once, in order, and a second `emit` calls exactly the `on` listeners |
| ArchiveEventBus.EventBus.constructor | refacto-archive/code-extraits/EventBus.js:50-53 | an empty registry, not initialised |
| ArchiveEventBus.EventBus.Init | refacto-archive/code-extraits/EventBus.js:58-67 | a second `init` keeps everything; the first empties the registry and marks the bus initialised |
| ArchiveEventBus.EventBus.On | refacto-archive/code-extraits/EventBus.js:75-86 | the callback is subscribed and the returned function unsubscribes that same callback from that event |
| ArchiveEventBus.EventBus.Unsubscribe | refacto-archive/code-extraits/EventBus.js:83-85 | calling the returned function is `off` of the event and callback |
| ArchiveEventBus.EventBus.Off | refacto-archive/code-extraits/EventBus.js:93-100 | the registry becomes Listeners.Unsubscribe of the old one |
| ArchiveEventBus.EventBus.Once | refacto-archive/code-extraits/EventBus.js:126-133 | a new wrapper, distinct from every registered function, is appended to the event's list |
| ArchiveEventBus.EventBus.Emit | refacto-archive/code-extraits/EventBus.js:107-133 | the `forEach` over the live listener array, which a one-shot wrapper shortens as it runs, produces exactly the calls, final registry and overflow `EmitLive` specifies, throwing listeners re-emitting the error event |
| ArchiveEventBus.EventBus.Clear | refacto-archive/code-extraits/EventBus.js:139-145 | the registry becomes Listeners.Clear of the old one |
| ArchiveEventBus.EventBus.ListenerCount | refacto-archive/code-extraits/EventBus.js:152-154 | the number of functions registered for the event, 0 for an unknown one |
| ArchiveEventBus.EventBus.GetState | refacto-archive/code-extraits/EventBus.js:168-175 | the flag, the number of events, the total of all list lengths and the set of event names |
| ArchiveEventBus.EventBus.Destroy | refacto-archive/code-extraits/EventBus.js:180-191 | an uninitialised bus is left alone; otherwise the registry is emptied and the flag cleared |
| UserPreferences.Overlay | refacto/services/UserPreferences.js:27 | `{ ...base, ...patch }` holds the keys of both, the patch's values where it has them and the base's elsewhere |
| UserPreferences.LoadFullRecord | refacto/tests/UserPreferences.test.js:22-29 | loading a record that sets every default key gives exactly that record back |
| UserPreferences.SavePartial | refacto/tests/UserPreferences.test.js:41-49 | saving `{theme: 'dark'}` over the defaults sends `{theme: 'dark', fontSize: 'normal'}` |
| UserPreferences.LoadSkipsValidation | refacto/services/UserPreferences.js:25-28 | loading does not validate: a stored theme `setTheme` would refuse becomes the current one |
| UserPreferences.UserPreferences.constructor | refacto/services/UserPreferences.js:5-12 | the current preferences start as a copy of the defaults, and nothing has been sent to storage |
| UserPreferences.UserPreferences.Load | refacto/services/UserPreferences.js:18-34 | without storage or on a failed load the defaults are answered and nothing changes; a stored record is spread over the defaults and becomes current; nothing stored keeps and answers the current preferences |
| UserPreferences.UserPreferences.Save | refacto/services/UserPreferences.js:41-51 | the given preferences are spread over the current ones, and the result is sent to storage when there is storage |
| UserPreferences.UserPreferences.Get | refacto/services/UserPreferences.js:57-59 | the answer is the current preferences |
| UserPreferences.UserPreferences.SetTheme | refacto/services/UserPreferences.js:66-71 | a theme other than `light`/`dark` throws and changes nothing; a valid one is saved; well-formed preferences stay well-formed |
| UserPreferences.UserPreferences.SetFontSize | refacto/services/UserPreferences.js:78-83 | a size other than `normal`/`large` throws and changes nothing; a valid one is saved; well-formed preferences stay well-formed |
| UserPreferences.UserPreferences.Reset | refacto/services/UserPreferences.js:111-114 | the preferences return to the well-formed defaults, which are sent to storage when there is storage |
| FlatStore.FindFolder | popu.js:156 | `find` on the folder list: none exactly when no folder has the id, otherwise the first folder that has it |
| FlatStore.WithoutFolder | popu.js:93-101 | `filter` keeps exactly the folders with another id |
| FlatStore.WithoutUniqueFolder | popu.js:93-101 | deleting a folder whose id is unique removes exactly that folder and keeps the others in order |
| FlatStore.WithoutNone | popu.js:93-101 | filtering out an id no folder has keeps the list |
| FlatStore.Shown | popu.js:68-70 | a folder shows, in order, the chats of its ids that have an entry, skipping the others |
| FlatStore.LinkedShowsAll | popu.js:68-70 | when every id of a folder has its chat, the folder shows one chat per id |
| FlatStore.CheckChat | popu.js:143-160 | the save is accepted exactly when the trimmed name is non-empty, the trimmed link starts with `https://chat.openai.com/chat/` and the chosen folder exists; otherwise the alert is that of the first check that fails |
| FlatStore.AppendChat | popu.js:162-164 | the chosen folder gains the chat id at the end of its list and no other folder changes |
| FlatStore.AppendChatLinked | popu.js:162-164 | storing the chat before appending its id keeps every folder's ids pointing at stored chats |
| FlatStore.FlatStore.constructor | popu.js:16-23 | no folders and no chats |
| FlatStore.FlatStore.AddFolder | popu.js:116-123 | a cancelled or blank prompt changes nothing; otherwise a new empty folder with the trimmed name is appended |
| FlatStore.FlatStore.OpenChatForm | popu.js:126-135 | with no folder the form does not open; otherwise it opens on the first folder |
| FlatStore.FlatStore.SaveChat | popu.js:143-169 | a refused save alerts with CheckChat's message and changes nothing; an accepted one stores the chat under the new id and appends that id to the chosen folder only; a linked store stays linked |
| FlatStore.FlatStore.DeleteFolder | popu.js:93-101 | only an empty folder, and only when confirmed, is removed, with every folder of that id |
| FlatStore.FlatStore.RenameFolder | popu.js:57-63 | a non-blank answer becomes the folder's trimmed name; otherwise nothing changes |
| FlatStore.FlatStore.RenameChat | popu.js:80-87 | a non-blank answer becomes the chat's trimmed name, its link kept; the set of chat ids never changes |

## Left out

- Rendering and interaction: the DOM trees, inline forms, search-result HTML, templates, drag-and-drop, notifications, theme classes and keyboard focus are presentation; the model returns the state they would show.
- Persistence: `chrome.storage`, `localStorage`, the storage managers and `loadData`/`saveData` are foreign I/O; a save is the point where the popup rebuilds its index, and a load is an input value.
- `refacto/popup.js` calls `rebuildSearchIndex` after loading and saving (refacto/popup.js:189-195), a function that file never defines; that persistence path is not modelled.
- Timers: `setTimeout`/`clearTimeout` debouncing is an explicit pending query that a separate `FireTimer` step fires; elapsed time is not modelled.
- Ids: `Date.now`/`Math.random` ids are fresh-id parameters; `FlatStore.FlatStore.SaveChat` requires its id to be new in the chat dictionary.
- Dialogs: `confirm`, `prompt` and `alert` answers are inputs (`confirmed`, an optional answer); the alert text is returned as a value.
- Collation: `localeCompare(…, 'fr', {sensitivity: 'base'})` is replaced by `Ordering.CollateLe`, lexicographic order after ASCII lower-casing; accents and other locale rules are not modelled, and the sort lemmas rely only on its totality and transitivity.
- Case folding: `toLowerCase` maps only ASCII letters, and whitespace is a fixed set of characters; Unicode case mapping is not modelled.
- Regular expressions: the archived engine's escaped, case-insensitive regex is modelled by what it matches — a literal, case-insensitive substring; `highlightMatch` is modelled by its guard and by the marked pieces, not by the HTML it builds.
- PopupState.OpenUp: `openAllParentFolders` climbs at most `fuel` parents; with a fuel at least the tree's depth it reaches the root, and a cyclic parent chain, impossible in a tree, is not modelled.
- Object aliasing: nodes are values. Where the source keeps a reference (the edit target, `getPreferences`'s copy, a node pushed onto a found parent), the model keeps an id or a copy, and a later in-place change through another reference is not modelled.
- ArchiveTreeManager.TreeManager: its tree operations require a loaded tree; the source throws on a null `data` in its first lookup.
- ArchiveTreeManager.TreeManager.MoveNode: returns the failing check as a value instead of throwing an `Error` with its message.
- ArchiveTreeManager.NewChat and ArchiveTreeManager.NewFolder: no `createdAt` timestamp. The archived `TreeManager` stamps its default tree and every node it creates with `createdAt: new Date().toISOString()` (refacto-archive/code-extraits/TreeManager.js:95-124, 387, 416, 719, 742); nodes have no timestamp field, because no modelled operation reads it.
- The archived `TreeManager`'s `loadData`, `render` and `selectNode` are storage or DOM glue; `init`'s lookup of the tree container is an input.
- ArchiveTreeManager.TreeManager: of the events the archived manager emits, the node events (added, deleted, moved, expanded, collapsed, edited) are recorded in `emitted`. Three are not modelled: `saveData`'s data-saved event, which follows the asynchronous storage write and is reached only outside the extension branch (refacto-archive/code-extraits/TreeManager.js:134-154); `render`'s tree-rendered event (line 176), which depends on the DOM container; and `selectNode`'s node-selected event (line 548).
- PopupState.Loaded: `expanded` is either absent or a boolean; a stored `expanded: null`, which the source keeps because `typeof null` is `'object'`, is read as absent and becomes true.
- ArchiveEventBus.EventBus.GetState: the event names are a set; the key order of `Object.keys` is not modelled.
- Event buses: the listeners' bodies, the arguments passed to `emit`, the error passed to `'error:occurred'`, re-entrant `on`/`off` from inside a listener, and prototype keys of the `events` object are not modelled; a listener is a number and whether it throws is a parameter.
- ArchiveEventBus.EventBus.Emit: a stack overflow is modelled by a bound on nested re-emissions, reported as a flag.
- Listeners.Subscribe, Listeners.Unsubscribe and Listeners.Clear: their own contracts state only the resulting event names; what they do to each list is stated by `Listeners.CountUpdates`, `Listeners.OthersUntouched`, `Listeners.OffUndoesOn` and `Listeners.RemoveFirstAfterAppend`.
- `UserPreferences`: values are strings as in the source; storage failures on save and the `async` ordering of load and save are not modelled beyond the answer the storage gives.
- `FlatStore`: render's automatic click on the add-folder button when there is no folder (popu.js:110-112) is a dialog loop and is not modelled.
- `refacto/managers/KeyboardManager.js`, the `FullManager` files, `full.js`, `background.js`, `refacto/utils/helpers.js`, the logger and the configuration file are not part of this model.

## Findings

| source | as written | input that shows it | evidently intended | confidence | as-written member | corrected member |
|---|---|---|---|---|---|---|
| popup.js:795-828 | the chat form's submit never clears `currentEditNode`, unlike the folder form's (popup.js:737-738); the same holds in refacto/popup.js | edit chat `c` and save, then open the add-folder form on a parent and submit a valid name: `c` is renamed and no folder is created | a saved chat submit clears the edit target, so the next add adds | not executed | PopupState.ChatEditCapturesNextAdd | PopupState.ChatSubmitThenFolderAdd |
| refacto-archive/code-extraits/EventBus.js:107-133 | `emit` runs `forEach` over the live listener array, and a `once` wrapper removes itself from that array while it is walked | `once(e, a)`, `on(e, b)`, `emit(e)`: `a` is called, `b` is not | every listener registered when `emit` starts is called once | not executed | ArchiveEventBus.OnceSkipsNext | ArchiveEventBus.EmitSnapshotCallsAll |
