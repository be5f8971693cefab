# Verified models of LOOT's stateful cores

This project models the parts of LOOT in which hand-written state changes carry a promise to the
user, and proves the promise. `dafny verify dfyconfig.toml` checks everything.

- **Compare Load Orders** (`diff/`). The Myers search over one reused array, the walk back through
  its snapshots, the labelling of rows and the padding of the two lists in place. `EditScripts`
  says, without any mention of a search, what turning one list into another is and what a common
  subsequence is; `EditGraph` gives the recurrence of the greedy search and relates it to paths;
  `ShortestPath`, `Backtrack` and `LoadOrderDiff` hold the imperative code; `Optimality` ties paths
  to scripts and to common subsequences; `GreedyScripts` says which of the cheapest scripts is shown.
- **Recovery of removed masterlist groups** (`recovery/`). What the worklist computes, when it
  stops, and what the rewritten user groups keep: order, absence of cycles, and a definition for
  every name. For a set of changes, "renaming" sends a changed name to its new name and leaves any
  other name alone.
- **The groups editor** (`editor/`). Nodes and edges are objects that hold each other, as in the
  program. `GroupGraph` has the edge-list invariant, `GroupsEditor` one method per handler,
  `EditorStates` what each action does to a value that stands for the dialog, `EditorRuns` whole
  sessions, and `LoadExtract` loading and reading back.
- **Smaller cores**. The card sizing cache (`cards/`), redating, the load order indices and the
  text table of a load order (`game/`), and the fresh folder name (`settings/`).

What the proofs brought to light about the code, stated as lemmas where a lemma can say it:

- The recovery worklist keeps no visited set. It stops if and only if no cycle of removed groups
  can be reached from what it starts with (`RecoverySet.WorklistStopsExactlyIfSafe`), and it does
  not stop for two removed groups that load after each other (`RecoverySet.WorklistMayRunForever`).
  The recovery methods take the condition as a precondition.
- Recovery can make a cycle where there was none, if a group is already called like a removed one
  with " (Recovered)" appended (`RecoveryLaws.ClashMakesCycle`), but such a clash may do no harm
  (`RecoveryLaws.ClashMayBeHarmless`). The result has a cycle exactly if the surviving edges have
  one when names that will coincide count as one (`RecoveryLaws.CyclesComeFromGlueing`), so without
  a clash exactly if the surviving edges have one.
- The name of a removed group that is not recovered is among the user groups all the same, exactly
  if the group loads after a recovered one or has the name that another group is changed to
  (`RecoveryLaws.UnrecoveredMayReturn`, with an example of each in `RecoveryLaws.UnrecoveredReturns`
  and `RecoveryLaws.UnrecoveredNameReturns`).
- Only loaded plugins are moved along. The group of one that is not loaded is defined afterwards
  exactly if its old name still has a definition (`RecoveryLaws.PluginGroupIsDefinedExactly`).
- The scan for one plugin's index gives the one-pass index exactly if the plugin has not occurred
  before in the load order and no active light plugin before it differs from it, light itself, in
  being medium (`LoadOrderIndex.ScanAgreesExactlyWithoutMix`). The latter takes a plugin that
  reports both flags, as in `LoadOrderIndex.MixedPluginsDisagree`; whether libloot ever does so is
  not part of this model.
- Rows that a model has lost go on counting in the card sizing cache until it is cleared
  (`CardSizing.LostRowStillCounts`). The largest width is still the model's exactly if each lost row
  is matched by a row that is left (`CardSizing.LargestIsOfModelExactly`).
- Saving from the groups editor drops the descriptions of user groups, and a group that was loaded
  as loading after itself loses that entry (`LoadExtract.RoundTrip`).
- The groups editor's flag for "contains plugins" is unset although plugins are in the group in
  exactly one case: the default group, when some plugin names no group, no plugin names the default
  group outright, and nothing has been added to it or taken from it since the editor was opened
  (`GroupsEditor.GroupsEditorDialog.DefaultLooksEmptyExactly`, with an example in
  `EditorRuns.UngroupedPluginIsOverlooked`). Everywhere else an unset flag means an empty group, and
  the default group is the masterlist's, so it cannot be removed.
- Renaming a group is safe exactly if no other group has the new name, which the program does not
  check (`GroupsEditor.GroupsEditorDialog.RenameGroupButtonClicked`, with an example in
  `EditorRuns.RenamingMayMakeTwins`).
- Redating puts files in order, and a second run changes nothing, exactly if no file is redated
  when it is met again; two plugins that share a file can break this
  (`Redating.WalkingTwiceIsWalkingOnce`, `Redating.SharedFileBreaksOrder`).

## Model

| member | source | states |
|---|---|---|
| EditGraph.FurthestIsReachable | src/gui/qt/compare_load_orders_dialog.cpp:161-181 | The point at which round d leaves off on diagonal k, by the search's own recurrence, is reachable from the origin with exactly d insertions and deletions; so is the point at which it enters the diagonal |
| EditGraph.FurthestIsMaximal | src/gui/qt/compare_load_orders_dialog.cpp:161-181 | No point of diagonal k that is reachable with exactly d insertions and deletions lies further than where round d leaves off, and such points exist only on diagonals of round d's parity and range |
| EditGraph.ClampToGrid | src/gui/qt/compare_load_orders_dialog.cpp:161-167 | A point that ran off the grid costs at least as many steps more than its nearest grid point as it lies off the grid |
| EditGraph.HitIsTheEnd | src/gui/qt/compare_load_orders_dialog.cpp:183-185 | The first time the stopping test holds, it holds at exactly the end of both lists on the end's own diagonal, never at a point off the grid |
| EditGraph.EndIsHit | src/gui/qt/compare_load_orders_dialog.cpp:183-185 | A round that can reach the end of both lists does pass the stopping test |
| EditGraph.EndIsReachable | src/gui/qt/compare_load_orders_dialog.cpp:158-188 | The end is reachable with as many steps as there are rows, so the search cannot run out of rounds |
| ShortestPath.ChoiceMatchesRecurrence | src/gui/qt/compare_load_orders_dialog.cpp:161-169 | The choice between the two neighbours that the array shows is the one the recurrence makes, though the array also holds stale entries |
| ShortestPath.WriteKeepsRounds | src/gui/qt/compare_load_orders_dialog.cpp:181 | Overwriting one diagonal of round d leaves intact everything that the round still reads |
| ShortestPath.ExtendDiagonal | src/gui/qt/compare_load_orders_dialog.cpp:161-179 | The value computed for diagonal k is the furthest reachable row, with every array index in range and no negative row of the second list |
| ShortestPath.SearchRound | src/gui/qt/compare_load_orders_dialog.cpp:161-187 | A round reports success if and only if the end is reachable with that many steps, and otherwise leaves the array holding the round |
| ShortestPath.TraceShortestPath | src/gui/qt/compare_load_orders_dialog.cpp:141-188 | The trace has one snapshot for each round up to the first that reaches the end, each showing what its round read; the error for a path not found cannot occur |
| Backtrack.ChainIsScript | src/gui/qt/compare_load_orders_dialog.cpp:213-226 | An unbroken chain of unit steps inside the grid, read backwards, is an edit script that turns the rest of the first list into the rest of the second |
| Backtrack.SnapshotTellsEntry | src/gui/qt/compare_load_orders_dialog.cpp:202-211 | The point before the step onto a diagonal, read off the snapshot, lies on a neighbouring diagonal where the round before left off, and all rows between entry and exit are equal |
| Backtrack.RetraceDiagonal | src/gui/qt/compare_load_orders_dialog.cpp:213-217 | Walking back along a diagonal stops exactly where the round entered it, over equal rows only |
| Backtrack.BacktrackTrace | src/gui/qt/compare_load_orders_dialog.cpp:190-230 | The moves form a contiguous chain of unit steps from the origin to the end that never leaves the grid, with as many insertions and deletions as the trace has rounds after the first, and spell a greedy script |
| GreedyScripts.FurthestBounds | src/gui/qt/compare_load_orders_dialog.cpp:158-182 | No script of at most d insertions and deletions gets further along a diagonal than where round d leaves off on it |
| GreedyScripts.EntryIsGreedy | src/gui/qt/compare_load_orders_dialog.cpp:161-167 | The choice between the neighbours removes a row only if no script of the cost so far gets further by putting one out, and puts one out only if none gets as far by removing one |
| GreedyScripts.GreedyIsUnique | src/gui/qt/compare_load_orders_dialog.cpp:202-226 | For any two lists there is only one such script of a given cost |
| Optimality.ScriptIsPath | src/gui/qt/compare_load_orders_dialog.cpp:141-188 | Every edit script, also between parts of the lists, is a path of the same cost through the edit graph |
| Optimality.NoCheaperScript | src/gui/qt/compare_load_orders_dialog.cpp:141-188 | No script that turns one list into the other costs less than the number of the first round that reaches the end |
| Optimality.KeepSubsequence | src/gui/qt/compare_load_orders_dialog.cpp:268-277 | Every common subsequence is kept by some script whose cost is the number of all other rows |
| Optimality.KeptIsCommon | src/gui/qt/compare_load_orders_dialog.cpp:268-277 | What a script keeps is a common subsequence, and its cost is the number of all other rows |
| Optimality.CheapestKeepsLongest | src/gui/qt/compare_load_orders_dialog.cpp:268-277 | A cheapest script keeps a longest common subsequence |
| Alignment.LeftIsPartitioned | src/gui/qt/compare_load_orders_dialog.cpp:268-277 | Every row of the first list is labelled once, as removed or unchanged, and the unchanged ones spell what the script keeps |
| Alignment.RightIsPartitioned | src/gui/qt/compare_load_orders_dialog.cpp:268-277 | Every row of the second list is labelled once, as inserted or unchanged, and the unchanged ones spell what the script keeps |
| Alignment.LeftFollowsScript | src/gui/qt/compare_load_orders_dialog.cpp:271-274 | Each row of the first list has the label of the instruction that deals with it |
| Alignment.RightFollowsScript | src/gui/qt/compare_load_orders_dialog.cpp:269-274 | So has each row of the second list |
| Alignment.AlignAddsOnlyPadding | src/gui/qt/compare_load_orders_dialog.cpp:232-251 | Taking the padding away gives back both lists as they were |
| Alignment.AlignLinesUp | src/gui/qt/compare_load_orders_dialog.cpp:232-251 | Given labels whose unchanged rows spell the same texts, an unchanged row always faces an unchanged row with the same text, and nothing else does |
| Alignment.AlignIsTidy | src/gui/qt/compare_load_orders_dialog.cpp:242-249 | Padding faces only removed or inserted rows, keeps none of them from facing each other, and ends neither list |
| Alignment.TidyIsAligned | src/gui/qt/compare_load_orders_dialog.cpp:232-251 | There is no other way of lining up two labelled lists with these properties |
| LoadOrderDiff.AreLabelsEqual | src/gui/qt/compare_load_orders_dialog.cpp:94-108 | True if and only if both lists have the same texts |
| LoadOrderDiff.AlignUnchangedRows | src/gui/qt/compare_load_orders_dialog.cpp:232-251 | The loop ends although the first list grows while it is walked, and leaves both lists as the row-by-row definition of lining up says |
| LoadOrderDiff.LabelRows | src/gui/qt/compare_load_orders_dialog.cpp:268-277 | Labelling by the moves labels both lists from end to end as the script spelt by the moves says, whatever labels were there before |
| LoadOrderDiff.DiffLists | src/gui/qt/compare_load_orders_dialog.cpp:253-280 | Equal lists are left alone; for others the labels are those of a script that is cheapest of all and greedy, lined up |
| LoadOrderDiff.SetLoadOrders | src/gui/qt/compare_load_orders_dialog.cpp:326-341 | The same for the two load orders given to the dialog |
| LoadOrderDiff.DiffIsReadable | src/gui/qt/compare_load_orders_dialog.cpp:253-280 | What is shown contains both load orders in full, labelled without gaps; the unchanged rows spell a longest common subsequence and face each other, and padding is tidy |
| LoadOrderDiff.DiffIsUnique | src/gui/qt/compare_load_orders_dialog.cpp:253-280 | The two load orders alone decide every row and label that is shown |
| Groups.GetRemovedGroups | src/gui/state/game/game.cpp:390-406 | The names that only the old groups define |
| Groups.UpdateGroupNames | src/gui/state/game/game.cpp:419-439 | The group and the names it loads after are renamed, its description is kept, whether or not anything changed |
| Groups.AddGroup | src/gui/state/game/game.cpp:455-475 | The result has exactly the old edges and the added ones, the old names and the added one; existing groups keep place, name and description, and unique names stay unique |
| Worklist.TurnSettlesOne | src/gui/state/game/game.cpp:619-638 | One turn of the loop settles the popped name and loses no other name that the queue could reach |
| Worklist.TurnLosesWeight | src/gui/state/game/game.cpp:619-638 | If no cycle can be reached from the popped name, a turn makes the queue lighter, counting paths |
| Worklist.StopsExactlyWithoutCycle | src/gui/state/game/game.cpp:619-638 | The loop empties its queue within some number of turns if and only if no cycle can be reached from any queued name |
| RecoverySet.WorklistStopsExactlyIfSafe | src/gui/state/game/game.cpp:594-638 | The same for the queue that the old masterlist groups fill |
| RecoverySet.WorklistMayRunForever | src/gui/state/game/game.cpp:594-638 | A concrete update for which no number of turns empties the queue |
| RecoverySet.RecoveryIsClosed | src/gui/state/game/game.cpp:549-638 | With unique old names, the recovered names hold what user data refers to and the removed groups directly after that, and with each name the removed names that its group loads after |
| RecoverySet.RecoveryIsLeast | src/gui/state/game/game.cpp:549-638 | Every set with those properties contains all recovered names |
| GroupRecovery.NamesToKeep | src/gui/state/game/game.cpp:555-561 | Exactly the removed names that the user defines too |
| GroupRecovery.ChangesForUserGroups | src/gui/state/game/game.cpp:563-571 | Exactly the removed names that user groups load after and that are not kept, each with the suffix appended |
| GroupRecovery.ChangesForPlugins | src/gui/state/game/game.cpp:573-592 | The removed groups of loaded plugins are added to the changes; those plugins are moved along and no other plugin is |
| GroupRecovery.QueueReferences | src/gui/state/game/game.cpp:594-617 | The queue holds exactly what referenced old groups load after, and the removed groups directly after a referenced one |
| GroupRecovery.CloseChanges | src/gui/state/game/game.cpp:619-638 | Under the exact condition for stopping, the loop adds exactly the removed names that can be reached from the queue and are not kept |
| GroupRecovery.RecoverRemovedGroups | src/gui/state/game/game.cpp:545-647 | The changes and the kept names together are exactly the recovered names, and the user groups and plugin groups are rewritten to match |
| Grafting.CollectAfter | src/gui/state/game/game.cpp:512-532 | The names an old group brings along: all it loads after if it is recovered, otherwise the recovered ones among them, renamed |
| Grafting.AdditionGrafts | src/gui/state/game/game.cpp:509-541 | Adding one old group keeps the account of edges, names, descriptions and origins exact |
| Grafting.RecoverInto | src/gui/state/game/game.cpp:477-543 | The new user groups have exactly the renamed user edges and the renamed old edges with a recovered end, and exactly the renamed names of user groups and of old groups that are recovered or load after one that is; each added group comes from such an old group |
| RecoveryLaws.OrderSurvives | src/gui/state/game/game.cpp:477-543 | Every user edge, every old edge with a recovered end, and every chain of such edges orders the renamed groups as before |
| RecoveryLaws.CoincideExactly | src/gui/state/game/game.cpp:408-417 | Two names are the same after renaming exactly if they were before, or one is changed into the other and that one is not changed |
| RecoveryLaws.CyclesComeFromGlueing | src/gui/state/game/game.cpp:477-543 | For any names at all, the new user groups have a cycle if and only if the surviving edges have one when names that coincide after renaming count as one |
| RecoveryLaws.GlueingWithoutClash | src/gui/state/game/game.cpp:477-543 | Counting such names as one loses no cycle, and makes none unless a name in use is what a changed name is changed to |
| RecoveryLaws.CyclesSurviveOrComeFromSource | src/gui/state/game/game.cpp:477-543 | Unless names clash, the new user groups have a cycle if and only if the surviving edges had one |
| RecoveryLaws.RecoveryAddsNoCycle | src/gui/state/game/game.cpp:477-543 | If the old masterlist and the user groups together have no cycle and no name clashes, the new user groups have none |
| RecoveryLaws.ClashMakesCycle | src/gui/state/game/game.cpp:568 | A concrete update in which a clash of names turns an acyclic graph into a cyclic one |
| RecoveryLaws.ClashMayBeHarmless | src/gui/state/game/game.cpp:568 | A concrete update in which names clash and no cycle arises |
| RecoveryLaws.NoEdgeDangles | src/gui/state/game/game.cpp:390-406 | Every name that a new user group loads after is defined in the new masterlist or by the user, if all names were defined before |
| RecoveryLaws.NoPluginDangles | src/gui/state/game/game.cpp:573-592 | Every loaded plugin's group is renamed with its group and is defined afterwards, if it was before |
| RecoveryLaws.UserGroupsStay | src/gui/state/game/game.cpp:482-486 | The user's own groups keep their places, names and descriptions |
| RecoveryLaws.PluginGroupIsDefinedExactly | src/gui/state/game/game.cpp:573-592 | For any plugin with a group, loaded or not, the group is defined afterwards if and only if the plugin is loaded or the group's old name still has a definition |
| RecoveryLaws.UnrecoveredMayReturn | src/gui/state/game/game.cpp:522-540 | For any names at all, the name of a removed group that is not recovered is among the user groups if and only if the group loads after a recovered one or its name is what another old group is changed to |
| RecoveryLaws.UnrecoveredReturns | src/gui/state/game/game.cpp:522-540 | A concrete update in which such a group loads after a recovered one |
| RecoveryLaws.UnrecoveredNameReturns | src/gui/state/game/game.cpp:509-511 | A concrete update in which another group takes its name |
| MasterlistUpdate.RecoverAfterUpdate | src/gui/state/game/game.cpp:1291-1298 | From old and new masterlist to new user data: nothing dangles and all user edges survive; exactly the loaded plugins of groups that were removed and that the user does not define are moved, to the name with " (Recovered)" appended; every old edge with a recovered end survives; the user's groups keep place, name and description; and if nothing was removed nothing changes |
| MasterlistUpdate.UpdateLeavesNothingDangling | src/gui/state/game/game.cpp:1291-1298 | The same as a statement about any recovery plan and its outcome |
| GroupGraph.TakenOutIsGone | src/gui/qt/groups_editor/node.cpp:213-225 | Taking an edge out at one end and then at the other leaves no occurrence in any list, for an edge from a node to itself too, and shortens the first end's list |
| GroupGraph.EnteredIsListed | src/gui/qt/groups_editor/edge.cpp:35-46 | After a new edge has entered itself, every list holds it once for each end that the node is |
| GroupGraph.GraphView.FindNode | src/gui/qt/groups_editor/graph_view.cpp:173-178 | A live node with the name, or none exactly if no live node has it |
| GroupGraph.GraphView.AddGroup | src/gui/qt/groups_editor/graph_view.cpp:170-190 | Adds one empty user node if and only if the name is free |
| GroupGraph.GraphView.Connect | src/gui/qt/groups_editor/edge.cpp:35-46 | The edge is live and the lists agree with the edges, whether or not its ends are the same node |
| GroupGraph.GraphView.NodeReleased | src/gui/qt/groups_editor/node.cpp:252-282 | Exactly one user edge for each other node under the mouse goes there from the node, and none to itself |
| GroupGraph.GraphView.EdgeRightClicked | src/gui/qt/groups_editor/edge.cpp:109-127 | A user edge disappears from both lists and from the scene; a masterlist edge stays |
| GroupGraph.GraphView.NodeRightClicked | src/gui/qt/groups_editor/node.cpp:192-250 | Only a user node that passes for empty goes; the loop ends with exactly the edges that did not touch it, and all lists still agree |
| GroupsEditor.MoveMovesOne | src/gui/qt/groups_editor/groups_editor_dialog.cpp:630-639 | Recording a move changes one plugin's group and no other's, and is not recorded exactly if it goes back to the saved group |
| GroupsEditor.RenameMovesAll | src/gui/qt/groups_editor/groups_editor_dialog.cpp:698-705 | Renaming a group takes exactly its plugins along |
| GroupsEditor.RenameMovesNames | src/gui/qt/groups_editor/groups_editor_dialog.cpp:698-705 | Renaming a group records a move for each of its plugins and for no other |
| GroupsEditor.GroupsEditorDialog.ContainsMoreThanOnePlugin | src/gui/qt/groups_editor/groups_editor_dialog.cpp:424-441 | True if and only if two different plugins are in the group |
| GroupsEditor.MoveLeavesOthers | src/gui/qt/groups_editor/groups_editor_dialog.cpp:625-643 | After a plugin has left a group, others are in it exactly if the group held two before |
| GroupsEditor.MoveAllMovesAll | src/gui/qt/groups_editor/groups_editor_dialog.cpp:621-644 | Adding plugins to a group puts exactly those in it, even if one is named twice or was there already |
| GroupsEditor.GroupsEditorDialog.DefaultLooksEmptyExactly | src/gui/qt/main_window.cpp:1822-1829 | In every safe state, the default group's flag is unset while it holds plugins if and only if nothing has been added to it or taken from it, no plugin names it outright and some plugin names no group |
| GroupsEditor.GroupsEditorDialog.FlagsTell | src/gui/qt/groups_editor/groups_editor_dialog.cpp:640-650 | In every other case a node whose flag is unset holds no plugin, and one whose flag is set holds one unless an addition had no plugin to add |
| GroupsEditor.GroupsEditorDialog.MovePlugin | src/gui/qt/groups_editor/groups_editor_dialog.cpp:620-645 | Moving one plugin keeps the editor safe except for the selected group's flag, which is set at the end |
| GroupsEditor.GroupsEditorDialog.AddPluginButtonClicked | src/gui/qt/groups_editor/groups_editor_dialog.cpp:610-654 | All chosen plugins end up in the selected group, and the flags of all groups, masterlist or user, are exactly what the moves one by one make of them |
| GroupsEditor.GroupsEditorDialog.RenameGroupButtonClicked | src/gui/qt/groups_editor/groups_editor_dialog.cpp:675-714 | For any new name, a user group is renamed and its plugins go along; the editor stays safe exactly if no other group has the name; without a user group selected nothing changes |
| GroupsEditor.GroupsEditorDialog.NodeRightClicked | src/gui/qt/groups_editor/node.cpp:198-231 | When a node is removed no plugin is in its group, its edges go, and it is no longer selected, but any other selection stays; a user node that stays holds a plugin, unless an addition had none to add |
| GroupsEditor.GroupsEditorDialog.GroupSelected | src/gui/qt/groups_editor/groups_editor_dialog.cpp:529-552 | Selecting a group that is shown stays safe |
| EditorRuns.OpenedIsSafe | src/gui/qt/main_window.cpp:1822-1837 | The editor is safe when it opens, with the flags of all nodes as above, if the masterlist defines the default group and every plugin's group is mentioned somewhere |
| EditorRuns.UngroupedPluginIsOverlooked | src/gui/qt/main_window.cpp:1824-1829 | With one plugin that names no group, the default group's flag is unset though the plugin is in it |
| EditorRuns.RenamingMayMakeTwins | src/gui/qt/groups_editor/graph_view.cpp:192-203 | With two user groups, renaming one to the name of the other leaves two nodes of that name |
| EditorStates.RemovingUndoesConnecting | src/gui/qt/groups_editor/edge.cpp:109-127 | Drawing an edge adds one user edge from the one group to the other, and removing one between them brings back the state before |
| EditorStates.RemovingUndoesAdding | src/gui/qt/groups_editor/node.cpp:198-231 | So does removing a group that has just been added |
| EditorStates.RenamingBackUndoesRenaming | src/gui/qt/groups_editor/groups_editor_dialog.cpp:675-714 | Renaming a group to a free name and back brings back all groups, edges, flags and plugins' groups |
| EditorRuns.ConnectGroups | src/gui/qt/groups_editor/node.cpp:252-282 | Exactly one new user edge leads from the one group to the other, and nothing else changes; nothing does if they are the same or not shown |
| EditorRuns.RemoveEdge | src/gui/qt/groups_editor/edge.cpp:109-127 | Exactly one user edge from the one group to the other goes, if there is one, and nothing else changes |
| EditorRuns.AddGroup | src/gui/qt/groups_editor/graph_view.cpp:170-190 | Exactly one empty user node is added if the name is not empty and free, and nothing else changes |
| EditorRuns.RemoveGroup | src/gui/qt/groups_editor/node.cpp:198-231 | The node and its edges go if it is the user's and passes for empty, and nothing else changes |
| EditorRuns.Perform | src/gui/qt/groups_editor/groups_editor_dialog.cpp:508-714 | Every action leaves exactly the next state, edges counted, and stays safe, except a rename to the name of another group, which never is; only an addition to the default group or of a plugin in it touches that group |
| EditorRuns.Run | src/gui/qt/groups_editor/groups_editor_dialog.cpp:508-714 | After any sequence of actions, renames to taken names left out, the dialog is in the state that they lead to one after another; each plugin's group is still in the graph, every node other than an untouched default whose flag is unset is empty, the default group looks empty wrongly only if it did before, all masterlist groups are still there, and masterlist edges lead only to masterlist groups |
| EditorRuns.Accept | src/gui/qt/main_window.cpp:2712 | On saving, every plugin's group is a masterlist group or among the saved user groups, the saved edges are exactly the user's, so none of the masterlist's gets in, and every name that a saved group loads after is defined |
| EditorRuns.Session | src/gui/qt/main_window.cpp:1822-1839 | From opening to saving: the saved groups, their edges and the moved plugins are exactly those of the state to which the actions in order lead from the given masterlist and user groups; every plugin's group and every name loaded after is defined |
| LoadExtract.InsertNode | src/gui/qt/groups_editor/graph_view.cpp:41-59 | Finds the node with the name or adds exactly one with the given flags |
| LoadExtract.ShowEdgesOf | src/gui/qt/groups_editor/graph_view.cpp:141-165 | Exactly the group's "after" entries are drawn, an edge for each, and each undefined name becomes a user node |
| LoadExtract.SetGroups | src/gui/qt/groups_editor/graph_view.cpp:114-168 | The graph shows exactly the given groups, names and edges of both kinds, an edge for each "after" entry, with correct flags |
| LoadExtract.GetInEdges | src/gui/qt/groups_editor/node.cpp:105-115 | Exactly the listed edges that do not start at the node |
| LoadExtract.GetAfterGroups | src/gui/qt/groups_editor/graph_view.cpp:247-252 | Exactly the names from which a counted edge leads to the node |
| LoadExtract.GetUserGroups | src/gui/qt/groups_editor/graph_view.cpp:232-259 | In whatever order the scene lists its items, the result has one group for each user node and each masterlist node with a user edge, with exactly the counted edges |
| LoadExtract.RoundTrip | src/gui/qt/groups_editor/graph_view.cpp:114-259 | For any groups at all, reading back what was loaded gives each user edge except from a group to itself, no masterlist edge, no description, and exactly the names that the masterlist does not define or to which the user adds |
| LoadExtract.ExactRoundTrip | src/gui/qt/groups_editor/graph_view.cpp:114-259 | With every name defined and no group loading after itself, reading back gives the user groups minus the empty ones that the masterlist defines |
| CardSizing.ReleaseKeepsCounts | src/gui/qt/card_delegate.cpp:263-276 | Taking one row off leaves correct counts, and deletes the entry exactly if it was the last row, so that no remaining row loses its key |
| CardSizing.AcquireKeepsCounts | src/gui/qt/card_delegate.cpp:279-307 | Adding one row to an old or new entry leaves correct counts |
| CardSizing.OwnsAfterDeleting | src/gui/qt/card_delegate.cpp:270-275 | Deleting a card keeps exactly one live card for each remaining key |
| CardSizing.CardSizingCache.UpdateIndex | src/gui/qt/card_delegate.cpp:244-310 | The row has its new key, its card is live and that of the key, counts stay equal to the numbers of rows, and one live card remains for each key in use |
| CardSizing.CardSizingCache.UpdateAll | src/gui/qt/card_delegate.cpp:225-242 | Every row of the model has its key, and the one row too many changes nothing |
| CardSizing.LargestIsOfModelExactly | src/gui/qt/card_delegate.cpp:321-331 | The largest width is zero or that of a row of the model if and only if every cached row off the model is matched by one of the model |
| CardSizing.LostRowStillCounts | src/gui/qt/card_delegate.cpp:225-242 | After a model has lost a wide row, the largest width is still at least that row's |
| CardSizing.CardSizingCache.GetCard | src/gui/qt/card_delegate.cpp:312-319 | There is a card exactly if a row has the key, and it is live |
| CardSizing.CardSizingCache.Clear | src/gui/qt/card_delegate.cpp:213-223 | No row, entry or live card is left |
| CardSizing.CardSizingCache.GetLargestMinWidth | src/gui/qt/card_delegate.cpp:321-331 | The largest least width over the rows' current keys, and zero for none |
| LoadOrderIndex.MapToLoadOrderTuples | src/gui/state/game/game.cpp:740-797 | One entry for each loaded plugin in load order, with its name and whether it is active; an inactive one has no index, and an active one's is the number of positions before it that hold active plugins of its class |
| LoadOrderIndex.GetLoadOrderAsTextTable | src/gui/state/game/game.cpp:353-388 | One line for each loaded plugin in load order, in the layout that its flags and activity call for, with the number of positions before it that hold active plugins of its class; it reads back as just that |
| LoadOrderText.LineReadsBack | src/gui/state/game/game.cpp:367-384 | From a line of the text one can read off the kind of plugin, its index and its name, however large the index and whatever the name |
| LoadOrderText.FullStandsOut | src/gui/state/game/game.cpp:367-384 | The line of a full plugin, even of index 253 or 254, is never taken for one of another kind |
| LoadOrderText.ConcatKeepsOrder | src/gui/state/game/game.cpp:384-387 | Lines are put one after another in their order |
| LoadOrderText.PaddingIsSpaces | src/gui/state/game/game.cpp:368-377 | Only spaces are put before a number, up to the width |
| Numerals.DigitsReadBack | src/gui/state/game/game.cpp:368-377 | The digits of a number, decimal or hexadecimal, read back as the number |
| Numerals.BasesAreTenAndSixteen | src/gui/state/game/game.cpp:368-377 | 254 is "254" in decimal and "fe" in hexadecimal |
| LoadOrderIndex.GetActiveLoadOrderIndex | src/gui/state/game/game.cpp:1071-1097 | There is an index exactly if the plugin is active and in the load order, and it is the number of positions before its first occurrence that hold active plugins with equal flags |
| LoadOrderIndex.CountsAgreeWithoutStranger | src/gui/state/game/game.cpp:1088-1092 | Counting by equal flags and counting by kind agree exactly if no plugin of the kind has other flags |
| LoadOrderIndex.ScanAgreesExactlyWithoutMix | src/gui/state/game/game.cpp:1071-1097 | For any active plugin of any load order, scan and one pass agree if and only if it has not occurred before and no active light plugin before it differs from it, light itself, in being medium |
| LoadOrderIndex.MixedPluginsDisagree | src/gui/state/game/game.cpp:1088-1092 | With a light plugin and one that is light and medium, the scan and the one pass differ |
| LoadOrderIndex.ScanAgrees | src/gui/state/game/game.cpp:1071-1097 | They agree throughout if no name occurs twice and no active plugin is both light and medium |
| LoadOrderIndex.EveryIndexIsTaken | src/gui/state/game/game.cpp:740-797 | The indices of each kind leave no gap |
| LoadOrderIndex.IndicesIncrease | src/gui/state/game/game.cpp:740-797 | Later plugins of a kind have larger indices |
| Redating.RedatePlugins | src/gui/state/game/game.cpp:937-980 | If the game allows it, no timestamp goes back, no file outside the load order changes, and timestamps follow the load order exactly if no file is redated again; with different files they do, keep to the bound, and each file keeps its timestamp or gets that of the file ahead and 60 seconds; otherwise nothing changes |
| Redating.RedatedIsOrdered | src/gui/state/game/game.cpp:955-978 | Afterwards timestamps do not decrease along the load order, and none has gone back |
| Redating.RedatedIsBounded | src/gui/state/game/game.cpp:955-978 | No timestamp passes the latest original one by more than a minute for each redated file |
| Redating.WalkFollowsOrder | src/gui/state/game/game.cpp:955-978 | Both as a statement about the timestamps of the file system |
| Redating.WalkNeverGoesBack | src/gui/state/game/game.cpp:962-972 | Even if plugins share files, no timestamp goes back and other files do not change |
| Redating.WalkIsBounded | src/gui/state/game/game.cpp:970-972 | For any files, no timestamp passes the latest original one by more than a minute for each time that a file is redated |
| Redating.FilesKeepOrder | src/gui/state/game/game.cpp:954-960 | The files walked are those of the plugins that have one, in load order |
| Redating.FilesOfOne | src/gui/state/game/game.cpp:955-959 | A plugin without a file is passed over |
| Redating.OrderedExactlyIfNoneRedatedAgain | src/gui/state/game/game.cpp:955-978 | For any files, timestamps end up following the load order if and only if no file is redated when it is met again |
| Redating.OnlyOrderedFilesStay | src/gui/state/game/game.cpp:962-969 | Timestamps are left alone if and only if they already followed the load order |
| Redating.WalkingTwiceIsWalkingOnce | src/gui/state/game/game.cpp:955-978 | A second run changes nothing if and only if the first redated no file again, as is so for different files |
| Redating.SharedFileBreaksOrder | src/gui/state/game/game.cpp:955-978 | Timestamps of two files, one of them shared, that end up out of order and change again in a second run |
| FolderName.CandidatesDiffer | src/gui/qt/settings/settings_dialog.cpp:76 | No two candidates are the same filename, under any case folding that leaves digits, spaces and parentheses alone |
| FolderName.TakenCandidatesAreFew | src/gui/qt/settings/settings_dialog.cpp:71-78 | If the first k candidates are all taken there are at least k existing names |
| FolderName.DeriveFolderName | src/gui/qt/settings/settings_dialog.cpp:65-81 | The loop ends, within one more candidate than there are existing names, at the first candidate that no existing name equals: the base name, or that with the number of candidates tried before it in decimal between " (" and ")" |

## Left out

- Widgets, painting, icons, layout, scrolling, searching, signals and dialogs: a list widget is its sequence of rows, a scene its sets of live nodes and edges.
- libloot: masterlist parsing, metadata merging, sorting and condition evaluation. Groups, plugins and user metadata are values; of user metadata only the group is kept.
- Files, clocks and logging: a file system is a map from plugins to files and from files to timestamps, and the least time of the clock is a parameter.
- Fixed integer widths: sizes and counters are unbounded, so the casts that throw on overflow are not modelled. The bounds of the search's array are proved.
- Unsaved-change detection, node positions and automatic layout of the groups editor.
- Unicode normalisation and filename comparison as such: filename equality is equality after a folding of each character, or of a key, that is a parameter.
- EditorRuns.Run: renames to the name of another group are passed over; EditorRuns.Perform and GroupsEditor.GroupsEditorDialog.RenameGroupButtonClicked say what one does, but not what later actions make of two nodes with one name.
- GroupRecovery.RecoverRemovedGroups: takes loaded plugins with different names, as libloot lists them, and an update from which the worklist stops.
- GroupRecovery.ChangesForPlugins: plugins that are not loaded keep their group, as in the program; RecoveryLaws.PluginGroupIsDefinedExactly says when that group is still defined.
- CardSizing.CardSizingCache.UpdateIndex: a card's least width is taken to depend on its key alone, which is what the key is for.
- ShortestPath.SearchRound: the body of the program's outer loop is a method of its own, as are the entry to a diagonal and the retracing of one round; the order of reads and writes is the program's.
- GroupsEditor.GroupsEditorDialog.MovePlugin: the loop over chosen plugins and the loop over all plugins on renaming are split in the same way.
- LoadExtract.GetUserGroups: how often a name is listed in a saved "after" list is not stated, only which names are; edges are counted while loading and editing.
- Settings migration, filters, message lists, game detection and backups: they map old settings to new, pick plugins and messages for display, look for installed games and copy load orders, and none of them has a part in what is proved here.
