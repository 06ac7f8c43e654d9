# Ninja level editor: a Dafny model of its editing engine

This project models the level-editing engine of a grid-based level editor. The editor is a React single-page app. It writes the JSON document that a game reads.

The document is a **Region**, which holds **Nodes**. Each Node holds **Levels**. A Level holds:
- two path graphs: the main `SubNodes` and the secondary `NewPaths[0].NodesToUnlock`;
- the placed objects: enemies, spawn objects, the end node, the new-path triggers and a single trap.

Every path graph lives on a fixed 20 × 20 table, `NODES`, which maps a (row, column) cell to a node index.

The model has one module per concern:

| module | file | models |
|---|---|---|
| `EditorTypes` | types.dfy | the JSON records as datatypes; directions 0..3 clockwise from Up |
| `Topology` | topology.dfy | the `NODES` table, the `findNodePosition` scan, grid neighbours |
| `Constants` | constants.dfy | `resetLevelData`, `EULER_ANGLES_Y`, `aabr` |
| `PathGraph` | path_graph.dfy | the click engine shared by `handleAddPath` and `handleAddNewPath` |
| `SavePass` | save_pass.dfy | the JumpNodes passes and `saveLevel` |
| `LevelEdits` | level_edits.dfy | every level handler as a function from Level to Level or an `Outcome` |
| `LevelConfiguration` | level_configuration.dfy | the level page as a class: `levelData`, `isAddingTrap` and the region document |
| `BlockCell` | block.dfy | a grid cell: click dispatch, cell classification, the enemy-submit guard, component state |
| `GridView` | grid.dfy | render order and the `prevClickedIndex` register |
| `TagPattern` | tag_pattern.dfy | the `/Level (\d+)/` and `/Node (\d+)/` max-fold and the tag it makes |
| `RegionLookup` | region_lookup.dfy | `find` and `findIndex` over nodes, levels and regions |
| `NodeConfiguration` | node_configuration.dfy | the node page: `handleAddLevel`, `handleNext` |
| `AddJson` | add_json.dfy | the region page: `handleAddNode`, `handleSubmit` |
| `AddEnemyForm` | add_enemy.dfy | the enemy modal's `handleSubmit` |

How the source's idioms are modelled:
- State that React components hold becomes a class: `LevelEditor`, `BlockComponent`, `GridComponent`, `NodeConfigurationPage` and `AddJsonPage`. The records stay values.
- A loop in the source becomes a method proved equal to a specification function:
  - the row scan of `findNodePosition` (`Topology.ScanTable`, used by `Topology.FindNodePosition`);
  - the `forEach` refresh of every node's NeighbourNodes (`PathGraph.RefreshNeighbours`);
  - the `forEach` of the JumpNodes pass (`SavePass.GenerateJumpNodes`);
  - the whole click of the path engine (`PathGraph.AddPath`).
- JavaScript truthiness is written out:
  - `!prevBlockIndex` holds for a missing index and for 0;
  - the `{}` trap-trigger placeholder is truthy;
  - an unguarded `NewPaths[0]` on an empty array throws, which is the `Outcome.Thrown` result;
  - `find` and `findIndex` return the first match.
- Confirmations (`window.confirm`) are boolean inputs. Alerts are results. The held key, the clicked index and the fetched regions are inputs.

Behaviours of the code worth noting:
- The save pass sets `JumpNodes[d]` only when the neighbour in d is itself in the node list. `areNodesConnectedInDirection` returns false when either node is missing.
- Neither engine records the opposite direction at the current node. An edge is written only at the previous node, and it counts as connected because either endpoint may record it.
- Player spawns are appended on every start selection, not upserted.
- Triggers A and B can only be overwritten. The click is a no-op while the value is 0, so a fresh new path never gets a trigger from the editor.
- The grid renders each Block without `isAddingTrap`, `onAddTrapObject` or `onAddTrapTrigger`, although the level page hands all three to the grid. In the cell the trap mode is therefore always falsy. A grid click never opens the trap-object or trigger modal, so the page's trap handlers and the cell's trap branches are modelled but unreachable from the grid (`GridView.GridClickNeverAuthorsTraps`).
- Nothing in the editor creates `NewPaths[0]`. New-path clicks that write throw on a level without one.
- The enemy modal accepts "Laser", which is not a declared `Enemy.Type`. Such an enemy is stored as it is. The cell it stands on keeps its previous category.
- `handleAddNode` writes a `NodeId` that the declared `Node` record does not have. The model's `Node` carries it as an optional field.

## Model

| member | source | states |
|---|---|---|
| `EditorTypes.Opposite` | src/types.ts:90-95 | the opposite of a direction is a direction, differs from it, and turning it by two more returns d: (d + 2) mod 4 |
| `EditorTypes.PlacementTransform` | src/Pages/level-configuration.tsx:537-541 | the transform every placement writes is all zero except eulerAngles.y, which is the given angle |
| `EditorTypes.RegionNamesDistinct` | src/types.ts:135-138 | the four region names are distinct JSON strings, so the name picks one region kind |
| `Topology.Rectangular` | src/constants.ts:1-82 | NODES has 20 rows of NODES[0].length = 20 entries, so every (row, col) cell is indexable |
| `Topology.CellsInjective` | src/constants.ts:1-82 | no index occurs in two cells of NODES |
| `Topology.NoZeroCell` | src/constants.ts:1-82 | no cell holds 0, so the falsy test on a previous index never mistakes a cell for "no click" |
| `Topology.IndexOf` | src/Pages/level-configuration.tsx:136 | indexOf: the first column holding v, or -1 exactly when the row does not hold it |
| `Topology.PositionOf` | src/Pages/level-configuration.tsx:132-143 | the scan's result is the cell holding v when v is on the grid, else (-1, -1) |
| `Topology.PositionOfCell` | src/Pages/level-configuration.tsx:132-143 | looking up the index of cell (r, c) returns (r, c): the scan keeping the last match inverts the table |
| `Topology.ScanTable` | src/Pages/level-configuration.tsx:132-143 | the forEach over the rows of a table ends holding the last row whose indexOf finds v, with that column, or (-1, -1) |
| `Topology.FindNodePosition` | src/Pages/level-configuration.tsx:132-143 | the forEach loop over the rows computes PositionOf |
| `Topology.NeighbourCell` | src/Pages/level-configuration.tsx:394-428 | the four bounds checks admit a neighbour exactly when the offset cell (Up row-1, Right col+1, Down row+1, Left col-1) exists, and it is that cell's index |
| `Topology.NeighbourPosition` | src/Pages/level-configuration.tsx:394-428 | a neighbour in d sits exactly one step away in d's offset |
| `Topology.NeighbourSymmetric` | src/Pages/level-configuration.tsx:394-428 | if w is v's neighbour in d then v is w's neighbour in the opposite direction |
| `Topology.NeighbourIsOther` | src/Pages/level-configuration.tsx:394-428 | no cell is its own neighbour |
| `Constants.ResetLevelData` | src/constants.ts:84-130 | the reset level carries the tag, has every collection empty and EndNode 0, and applies no restriction (all -1) |
| `Constants.ResetDependsOnlyOnTag` | src/constants.ts:84-130 | two reset levels differ only in their tag |
| `Constants.EulerAnglesDistinct` | src/constants.ts:132-137 | the four facings get four distinct angles (180, 0, 90, -90) |
| `Constants.AabrCoversBlockTypes` | src/constants.ts:139-157 | every category a cell can take has a label, and only "none" has the empty label |
| `PathGraph.FirstWithIndex` | src/Pages/level-configuration.tsx:340-341 | `find` by Index: the first node with the index, or -1 exactly when there is none |
| `PathGraph.HasNodeIff` | src/Pages/level-configuration.tsx:396 | `some` by Index holds exactly when some node has the index |
| `PathGraph.FirstWithIndexAppend` | src/Pages/level-configuration.tsx:439-446 | after a push, old lookups are unchanged and the new node is found only when its index was absent |
| `PathGraph.UniqueNodeAt` | src/Pages/level-configuration.tsx:452-455 | with unique indices, `find` returns the one node holding its index |
| `PathGraph.CountInValidPaths` | src/types.ts:92 | a repeat-free Paths list holds each of its entries exactly once |
| `PathGraph.ConnectedNeighbours` | src/Pages/level-configuration.tsx:339-377 | for a real grid neighbour in d, areNodesConnected tests the pair (d at this node, opposite d at the neighbour): the either-endpoint rule |
| `PathGraph.ConnectedSymmetric` | src/Pages/level-configuration.tsx:339-377 | connectivity of neighbours does not depend on which endpoint is asked first |
| `PathGraph.GetNeighbourNodes` | src/Pages/level-configuration.tsx:380-430 | getNeighbourNodes returns a 4-entry flag array |
| `PathGraph.NeighbourFlagMeaning` | src/Pages/level-configuration.tsx:380-430 | NeighbourNodes[d] holds exactly when the grid cell in d exists, is in the list, and neither this node records d nor the neighbour the opposite direction |
| `PathGraph.FlagsDependOnShape` | src/Pages/level-configuration.tsx:380-430 | the flags read only Index and Paths, never the flag arrays themselves |
| `PathGraph.Refresh` | src/Pages/level-configuration.tsx:513-515 | the refresh keeps every node's Index, Paths and JumpNodes, and the list's length and order |
| `PathGraph.RefreshIsFresh` | src/Pages/level-configuration.tsx:513-515 | after the in-place forEach, every node's flags agree with the final list |
| `PathGraph.RefreshIdempotent` | src/Pages/level-configuration.tsx:513-515 | refreshing twice is refreshing once |
| `PathGraph.RefreshNeighbours` | src/Pages/level-configuration.tsx:513-515 | the forEach loop computes Refresh |
| `PathGraph.PathDirection` | src/Pages/level-configuration.tsx:476-480 | the direction tests produce a direction or -1 |
| `PathGraph.EdgeDirection` | src/Pages/level-configuration.tsx:461-480 | the direction from the two scanned positions is a direction or -1 |
| `PathGraph.DirectionPriority` | src/Pages/level-configuration.tsx:476-480 | first match wins, one coordinate per test: one row above is Up whatever the column, and the same cell twice matches no test |
| `PathGraph.NeighbourDirection` | src/Pages/level-configuration.tsx:461-480 | clicking the grid neighbour of prev in d yields d |
| `PathGraph.LinkEdgeShape` | src/Pages/level-configuration.tsx:487-510 | the linking step keeps every old node's Index and JumpNodes and every Paths but prev's, which gains d when missing; it appends prev with [d], then curr with [], only when absent |
| `PathGraph.LinkEdgeUnique` | src/Pages/level-configuration.tsx:487-510 | the linking step never puts an index in the list twice |
| `PathGraph.EdgeUnfold` | src/Pages/level-configuration.tsx:452-518 | an edge click is the refresh of the linked list, between two distinct cells, and the previous index is not falsy |
| `PathGraph.EdgeLinksPrevious` | src/Pages/level-configuration.tsx:487-499 | after an edge, prev is in the list and its Paths gained d unless it had d; an absent prev is created with [d] |
| `PathGraph.LinkedPathsValid` | src/Pages/level-configuration.tsx:487-499 | linking keeps Paths repeat-free and leaves d in them exactly once |
| `PathGraph.EdgeRecordsDirectionOnce` | src/Pages/level-configuration.tsx:487-499 | after an edge, prev's Paths hold d exactly once |
| `PathGraph.EdgeKeepsCurrent` | src/Pages/level-configuration.tsx:501-510 | after an edge, curr is in the list: with Paths untouched if it was there, else with [] |
| `PathGraph.EdgeFrame` | src/Pages/level-configuration.tsx:452-518 | an edge keeps every other node's Index, Paths and JumpNodes, appends only the missing endpoints, and leaves every node's flags fresh |
| `PathGraph.FirstClickAdds` | src/Pages/level-configuration.tsx:433-449 | without a previous index the clicked cell is appended once with no Paths, no JumpNodes and flags for its neighbours already in the list; other nodes are not refreshed, and a present cell changes nothing |
| `PathGraph.NoEdgeUnchanged` | src/Pages/level-configuration.tsx:482-485 | a second click that matches no direction test returns the list unchanged |
| `PathGraph.AddPathPreservesValid` | src/Pages/level-configuration.tsx:433-515 | every click keeps indices unique, Paths repeat-free directions, and the flag arrays 4 long |
| `PathGraph.AddPathOnGrid` | src/Pages/level-configuration.tsx:433-515 | every click keeps every node a grid cell |
| `PathGraph.EdgeConnects` | src/Pages/level-configuration.tsx:487-518 | after clicking prev then its neighbour curr, the two are connected both ways round |
| `PathGraph.EdgeLinked` | src/Pages/level-configuration.tsx:487-518 | after the edge, both endpoints are in the list and prev records d |
| `PathGraph.LinkedNotFlagged` | src/Pages/level-configuration.tsx:380-430 | a node connected to its neighbour in d, with fresh flags, does not flag that neighbour |
| `PathGraph.EdgeFreshAt` | src/Pages/level-configuration.tsx:513-515 | after an edge, the flags of every node in the list are fresh |
| `PathGraph.EdgeClearsFlags` | src/Pages/level-configuration.tsx:487-518 | the edge clears the NeighbourNodes flag each endpoint keeps for the other |
| `PathGraph.AddPathIdempotent` | src/Pages/level-configuration.tsx:433-518 | repeating a click with the same previous index changes nothing more |
| `PathGraph.EdgeIdempotent` | src/Pages/level-configuration.tsx:452-518 | repeating an edge click changes nothing more |
| `PathGraph.AddPath` | src/Pages/level-configuration.tsx:326-518 | one click of the engine, as the handler runs it with its lookups, scans and pushes, computes AddPathResult |
| `SavePass.ConnectedInDirectionIsEitherWay` | src/Pages/level-configuration.tsx:146-171 | areNodesConnectedInDirection is the click engine's either-endpoint rule, with both nodes in the list |
| `SavePass.JumpFlags` | src/Pages/level-configuration.tsx:173-210 | each node's JumpNodes array has 4 entries |
| `SavePass.JumpFlagMeaning` | src/Pages/level-configuration.tsx:173-210 | JumpNodes[d] holds exactly when the grid neighbour in d exists and the two are connected, which needs both in the list |
| `SavePass.JumpFlagSymmetric` | src/Pages/level-configuration.tsx:173-210 | a node's flag towards its neighbour equals the neighbour's flag back |
| `SavePass.JumpFlagsDependOnShape` | src/Pages/level-configuration.tsx:173-210 | the pass reads only Index and Paths |
| `SavePass.WithJumpNodes` | src/Pages/level-configuration.tsx:173-213 | the pass keeps the count, order, Index, Paths and NeighbourNodes of every node |
| `SavePass.WithJumpNodesIdempotent` | src/Pages/level-configuration.tsx:173-213 | running the pass twice is running it once |
| `SavePass.WithJumpNodesValid` | src/Pages/level-configuration.tsx:173-213 | the pass keeps the graph well formed |
| `SavePass.GenerateJumpNodes` | src/Pages/level-configuration.tsx:173-210 | the forEach over the nodes, writing the list it reads, computes WithJumpNodes |
| `SavePass.FlagsPartitionNeighbours` | src/Pages/level-configuration.tsx:173-210 | with fresh NeighbourNodes, a neighbour in the list is flagged in exactly one of NeighbourNodes and JumpNodes, and one outside it in neither |
| `SavePass.JumpNodesForMainPath` | src/Pages/level-configuration.tsx:128-214 | generateJumpNodesForMainPath changes only SubNodes |
| `SavePass.JumpNodesForNewPath` | src/Pages/level-configuration.tsx:216-309 | with no new path the level is returned as it is; otherwise only NewPaths[0] changes |
| `SavePass.JumpNodesForSave` | src/Pages/level-configuration.tsx:310-319 | both passes: SubNodes and NewPaths[0].NodesToUnlock get fresh JumpNodes; nothing else changes |
| `SavePass.SaveIdempotent` | src/Pages/level-configuration.tsx:310-319 | saving twice in a row produces the same level |
| `SavePass.SaveLevelStores` | src/Pages/level-configuration.tsx:106-126 | a level saved under its own tag at an existing slot is what the same lookup then finds |
| `SavePass.SaveLevelMissing` | src/Pages/level-configuration.tsx:109-123 | a save with no document, node or level to replace leaves the document as it is |
| `SavePass.SaveLevelFrame` | src/Pages/level-configuration.tsx:109-125 | a save touches one slot: names, node tags and ids, level counts and every other level stay |
| `SavePass.FindLevelOnGrid` | src/Pages/level-configuration.tsx:32-41 | a level found in a document of grid levels is a grid level |
| `SavePass.SaveLevelOnGrid` | src/Pages/level-configuration.tsx:106-126 | saving a grid level keeps the whole document on the grid |
| `TagPattern.LeftmostMatch` | src/Pages/node-configuration.tsx:34 | the unanchored match is at the leftmost position where the prefix is followed by a digit, and None when there is no such position |
| `TagPattern.DigitRun` | src/Pages/node-configuration.tsx:34 | `(\d+)` captures the greedy run of digits: all digits, followed by a non-digit or the end |
| `TagPattern.HighestIsMaximum` | src/Pages/node-configuration.tsx:33-40 | the reduce yields an upper bound of every matched number, which is 0 or one of them |
| `TagPattern.UnmatchedTagIgnored` | src/Pages/node-configuration.tsx:34-39 | a tag the pattern does not match, wherever it stands, does not change the highest number |
| `TagPattern.NatToString` | src/Pages/node-configuration.tsx:42 | the template renders a number as a non-empty run of decimal digits |
| `TagPattern.NatToStringValue` | src/Pages/node-configuration.tsx:36-42 | parseInt of the rendered number gives the number back |
| `TagPattern.MadeTagNumber` | src/Pages/node-configuration.tsx:34-42 | a tag made as prefix + number captures exactly that number |
| `TagPattern.NewTagIsFresh` | src/Pages/node-configuration.tsx:33-42 | the tag made from the highest number plus one is none of the existing tags |
| `RegionLookup.NodeIndex` | src/Pages/node-configuration.tsx:28 | findIndex by NodeTag: the first match, or -1 exactly when there is none |
| `RegionLookup.LevelIndex` | src/Pages/level-configuration.tsx:116-118 | findIndex by LevelTag: the first match, or -1 exactly when there is none |
| `RegionLookup.RegionIndex` | src/Pages/add-json.tsx:59-61 | find of a region by name: the first match, or -1 exactly when there is none |
| `RegionLookup.NodeIndexIs` | src/Pages/node-configuration.tsx:28 | a position holding the tag with no earlier one is what findIndex returns |
| `RegionLookup.LevelIndexIs` | src/Pages/level-configuration.tsx:116-118 | the same for levels |
| `LevelEdits.AddPathToLevel` | src/Pages/level-configuration.tsx:322-520 | handleAddPath changes only SubNodes, and a branch that returns early changes nothing |
| `LevelEdits.AddNewPathFrame` | src/Pages/level-configuration.tsx:643-841 | handleAddNewPath throws exactly when a writing branch meets an empty NewPaths; otherwise it changes only NewPaths[0].NodesToUnlock, which becomes the engine's result |
| `LevelEdits.NewPathClickAddsCell` | src/Pages/level-configuration.tsx:754-770 | a new-path click without a previous index, on a level with a new path, adds the clicked cell to the secondary graph |
| `LevelEdits.EnemyAt` | src/Pages/level-configuration.tsx:50-59 | findIndex of the enemy on a cell: the first match, or -1 exactly when none stands there |
| `LevelEdits.AddEnemy` | src/Pages/level-configuration.tsx:44-104 | handleAddEnemy changes only Enemies |
| `LevelEdits.AddEnemyUpserts` | src/Pages/level-configuration.tsx:44-104 | an enemy on the cell is replaced in place (length and other entries kept), else one is appended; the cell then holds an "Enemy" facing the direction, with the modal's type and flags |
| `LevelEdits.AddEnemyKeepsOnePerCell` | src/Pages/level-configuration.tsx:44-104 | the upsert never puts a second enemy on a cell |
| `LevelEdits.AddEnemyIdempotent` | src/Pages/level-configuration.tsx:44-104 | placing the same enemy twice is placing it once |
| `LevelEdits.AddSpawn` | src/Pages/level-configuration.tsx:530-605 | a placement appends exactly one spawn object with the tag, the cell and the angle, keeping every earlier one; nothing else changes |
| `LevelEdits.EndSelect` | src/Pages/level-configuration.tsx:547-554 | end selection sets EndNode and changes nothing else |
| `LevelEdits.StartSelectAppendsPlayer` | src/Pages/level-configuration.tsx:530-545 | every start selection adds one more "Player" spawn and leaves the count of every other tag |
| `LevelEdits.SetIndexAChanges` | src/Pages/level-configuration.tsx:607-623 | with no new path the read throws; IndexA and JointA change, to the cell, only when IndexA is non-zero and the overwrite is confirmed; nothing else changes |
| `LevelEdits.SetIndexBChanges` | src/Pages/level-configuration.tsx:625-641 | the same for IndexB and JointB |
| `LevelEdits.UnsetTriggerStaysUnset` | src/Pages/level-configuration.tsx:607-641 | a new path whose triggers are 0 keeps them whatever the confirmation |
| `LevelEdits.AddTrapObjectOnlyFirst` | src/Pages/level-configuration.tsx:843-872 | a trap object is added only to a level with no trap (else the alert), giving exactly one turret on the cell with the placeholder trigger; nothing else changes |
| `LevelEdits.AddTrapTriggerFirstTrap` | src/Pages/level-configuration.tsx:874-895 | the trigger replaces Traps[0]'s, and nothing else, only when a trap exists (else the alert) |
| `LevelEdits.AtMostOneTrap` | src/Pages/level-configuration.tsx:843-895 | neither trap handler takes a level past one trap |
| `LevelEdits.FirstIncomplete` | src/Pages/level-configuration.tsx:907-909 | find of a trap with a missing object or trigger: a match, or -1 exactly when every trap is complete |
| `LevelEdits.ToggleTrapModeMeaning` | src/Pages/level-configuration.tsx:899-916 | the toggle always enters authoring; it stays in authoring exactly when some trap is incomplete, and then alone alerts |
| `LevelEdits.PlaceholderCountsAsPresent` | src/Pages/level-configuration.tsx:865-913 | right after a turret is placed, its `{}` trigger counts as present, so the toggle leaves authoring without an alert |
| `LevelEdits.ResetLevel` | src/Pages/level-configuration.tsx:526-528 | reset gives an empty level under the current tag, or "" with no level |
| `LevelConfiguration.LevelEditor.constructor` | src/Pages/level-configuration.tsx:28-30 | the page starts, on any document, with no level loaded and not authoring a trap |
| `LevelConfiguration.LevelEditor.LoadLevel` | src/Pages/level-configuration.tsx:32-41 | with a document and no level yet, the level the route names is loaded if it exists; a loaded level carries the route's tag, and one loaded from an on-grid document is on the grid |
| `LevelConfiguration.LevelEditor.SaveLevel` | src/Pages/level-configuration.tsx:106-126 | the level becomes the page's level and is spliced into the document, where the route's lookup then finds it; the page invariant (the loaded level on the grid) holds exactly when the saved level is on the grid, and an on-grid document stays on the grid |
| `LevelConfiguration.LevelEditor.GenerateJumpNodes` | src/Pages/level-configuration.tsx:310-319 | after confirmation, both passes run and the result is saved; the document's slot for the route then holds the page's level |
| `LevelConfiguration.LevelEditor.AddPath` | src/Pages/level-configuration.tsx:322-520 | with a level loaded, the level becomes AddPathToLevel of it; the document and trap mode stay |
| `LevelConfiguration.LevelEditor.AddNewPath` | src/Pages/level-configuration.tsx:643-841 | with a level loaded, the level becomes the new-path result, or stays and the handler throws |
| `LevelConfiguration.LevelEditor.AddEnemy` | src/Pages/level-configuration.tsx:44-104 | the loaded level gets the enemy upsert |
| `LevelConfiguration.LevelEditor.StartSelect` | src/Pages/level-configuration.tsx:530-545 | the loaded level gets one more "Player" spawn |
| `LevelConfiguration.LevelEditor.EndSelect` | src/Pages/level-configuration.tsx:547-554 | the loaded level gets the end node |
| `LevelConfiguration.LevelEditor.AddCageKey` | src/Pages/level-configuration.tsx:556-571 | the loaded level gets one more "Key" spawn |
| `LevelConfiguration.LevelEditor.AddCageReward` | src/Pages/level-configuration.tsx:573-588 | the loaded level gets one more "RewardCage" spawn |
| `LevelConfiguration.LevelEditor.AddDamageNode` | src/Pages/level-configuration.tsx:590-605 | the loaded level gets one more "DamageNode" spawn |
| `LevelConfiguration.LevelEditor.SetIndexA` | src/Pages/level-configuration.tsx:607-623 | with no level the click is ignored; otherwise the level becomes SetIndexA's result, or the read throws |
| `LevelConfiguration.LevelEditor.SetIndexB` | src/Pages/level-configuration.tsx:625-641 | the same for trigger B |
| `LevelConfiguration.LevelEditor.AddTrapObject` | src/Pages/level-configuration.tsx:843-872 | the loaded level gets the trap, or stays and the alert is returned |
| `LevelConfiguration.LevelEditor.AddTrapTrigger` | src/Pages/level-configuration.tsx:874-897 | the loaded level gets the trigger, or stays and the alert is returned; trap authoring ends in every case |
| `LevelConfiguration.LevelEditor.OnAddTrap` | src/Pages/level-configuration.tsx:899-916 | the "Add Trap" button sets the trap mode and alert of ToggleTrapMode and leaves the level |
| `LevelConfiguration.LevelEditor.Reset` | src/Pages/level-configuration.tsx:526-528 | the level becomes the reset level under the current tag |
| `BlockCell.TrapModeDispatch` | src/components/Block.tsx:115-126 | in trap mode 't' opens the trigger modal, 'o' the object modal, and every other key gets the alert |
| `BlockCell.AddPathOnAnyCell` | src/components/Block.tsx:127-130 | outside trap mode 'x' adds a path on any cell |
| `BlockCell.KeysActOnPathCells` | src/components/Block.tsx:132-173 | outside trap mode every other key does nothing on a cell outside SubNodes, and on a path cell acts as the key legend says (a normal click otherwise) |
| `BlockCell.PlacementsNeedPathCell` | src/components/Block.tsx:132-173 | every placement handler, and the new-path handler ('p'), is only reached from a main-path cell outside trap mode |
| `BlockCell.Click` | src/components/Block.tsx:290-299 | a disabled (start or end) cell yields no action, and every other cell yields one |
| `BlockCell.LowerKey` | src/components/Block.tsx:96 | the stored key has the same length, each character lower-cased |
| `BlockCell.LowerKeyIdempotent` | src/components/Block.tsx:96 | lower-casing twice is lower-casing once |
| `BlockCell.FirstPlayer` | src/components/Block.tsx:224 | `find` of the first "Player" spawn, or none exactly when there is no such spawn |
| `BlockCell.TrapSlotFind` | src/components/Block.tsx:260-271 | the trap test finds the first trap whose slot is on the cell, after slots that are all set and elsewhere; it reports none only when every slot is set and elsewhere; it throws exactly on a null slot met before any match |
| `BlockCell.TrapSlotFindAppend` | src/components/Block.tsx:260-271 | the test stops at the first match or null slot, so the traps after it are never read; past a run of non-matching set slots the outcome is that of the rest |
| `BlockCell.ClassifyMeaning` | src/components/Block.tsx:222-283 | unless an undeclared enemy type falls through, the category is what the cell shows and nothing of a higher rank (start, end, enemy, trap, trigger, path cell) is on it |
| `BlockCell.UndeclaredEnemyKeepsCategory` | src/components/Block.tsx:238-256 | an enemy of an undeclared type leaves the cell's category as it was |
| `BlockCell.ClassifyThrowsOnlyOnMissingSlot` | src/components/Block.tsx:260-271 | with no null trap slot the classification never throws |
| `BlockCell.ResetCellsAreEmpty` | src/components/Block.tsx:222-283 | on a reset level every grid cell is shown as empty |
| `BlockCell.EnemySubmitForwards` | src/components/Block.tsx:285-288 | a submit is dropped exactly when the cell was never clicked, and otherwise reaches the page unchanged with the cell's index |
| `BlockCell.BlockComponent.constructor` | src/components/Block.tsx:70-92 | a cell starts with no key, no click and the category "none" |
| `BlockCell.BlockComponent.KeyDown` | src/components/Block.tsx:95-97 | the held key becomes the lower-cased key name; nothing else changes |
| `BlockCell.BlockComponent.KeyUp` | src/components/Block.tsx:99-101 | the held key is cleared; nothing else changes |
| `BlockCell.BlockComponent.OnClick` | src/components/Block.tsx:112-174 | the action is Click of the held key, trap mode and level; a cell that is not disabled records itself as clicked |
| `BlockCell.BlockComponent.Reclassify` | src/components/Block.tsx:222-283 | the category becomes Classify's result, or stays when the classification throws |
| `BlockCell.BlockComponent.SubmitEnemy` | src/components/Block.tsx:285-288 | the submit forwards what EnemySubmit gives for the recorded click |
| `GridView.FlattenRows` | src/components/Grid.tsx:38-40 | laying out 20-wide rows puts entry (r, c) at position 20 r + c |
| `GridView.RenderOrder` | src/components/Grid.tsx:38-40 | the grid renders 400 cells, row by row |
| `GridView.RenderOrderDistinct` | src/components/Grid.tsx:41 | no index is rendered twice, so it works as the cell's key |
| `GridView.RenderOrderCoversGrid` | src/components/Grid.tsx:38-43 | the rendered indices are exactly the grid cells |
| `GridView.GridClickNeverAuthorsTraps` | src/components/Grid.tsx:6-62 | with the trap mode the grid leaves undefined, a click never opens the trap-object or trigger modal nor gets the trap-mode alert; 't' and 'o' act as keys outside the legend |
| `GridView.LastClickIsPrevious` | src/components/Grid.tsx:47-50 | the register gives each path click the click just before it, and the first one none |
| `GridView.GridComponent.constructor` | src/components/Grid.tsx:35 | the register starts empty |
| `GridView.GridComponent.OnAddPath` | src/components/Grid.tsx:47-50 | the page's handler gets the previous path click, the level becomes AddPathToLevel of it, and the register then holds the clicked cell |
| `GridView.GridComponent.OnAddNewPath` | src/components/Grid.tsx:61 | a new-path click sends no previous index and leaves the register |
| `GridView.NewPathClickIsFirstClick` | src/components/Grid.tsx:61 | so a new-path click always takes the first-click branch and adds the cell without linking it |
| `NodeConfiguration.LevelTags` | src/Pages/node-configuration.tsx:18 | the level tags, in order |
| `NodeConfiguration.NewLevelTagNumber` | src/Pages/node-configuration.tsx:32-42 | the new tag is "Level " and the highest matched number plus one, which exceeds every matched number |
| `NodeConfiguration.NewLevelTagFresh` | src/Pages/node-configuration.tsx:33-42 | the new tag is none of the node's level tags |
| `NodeConfiguration.UnmatchedLevelIgnored` | src/Pages/node-configuration.tsx:34-39 | a level whose tag does not match, wherever it stands, does not change the new tag |
| `NodeConfiguration.AddLevelNoop` | src/Pages/node-configuration.tsx:25-30 | the handler returns early exactly without a document, without a region, or when no node matches |
| `NodeConfiguration.AddLevelAppendsOne` | src/Pages/node-configuration.tsx:42-45 | exactly one reset level under the new tag is appended to the matching node; other nodes and earlier levels stay |
| `NodeConfiguration.AddedLevelIsFound` | src/Pages/node-configuration.tsx:42-47 | the level page, opened on the node and the new tag, finds the fresh level |
| `NodeConfiguration.CheckNextOrder` | src/Pages/node-configuration.tsx:51-59 | a missing region is reported before a missing level, and the check passes exactly when both are set |
| `NodeConfiguration.NodeConfigurationPage.constructor` | src/Pages/node-configuration.tsx:9-11 | the page starts with no level selected, none listed, no error |
| `NodeConfiguration.NodeConfigurationPage.LoadLevels` | src/Pages/node-configuration.tsx:14-22 | the route's node's level tags are listed, when the node exists |
| `NodeConfiguration.NodeConfigurationPage.AddLevel` | src/Pages/node-configuration.tsx:24-49 | the document gains the level, whose tag is listed and selected, and the error is cleared; or nothing changes |
| `NodeConfiguration.NodeConfigurationPage.Next` | src/Pages/node-configuration.tsx:51-65 | the route of the level page, or the error shown instead |
| `AddJson.NodeTags` | src/Pages/add-json.tsx:50 | the node tags, in order |
| `AddJson.AddNodeNoop` | src/Pages/add-json.tsx:57-62 | the handler returns early exactly without a document, without a selected region, or when the region was not fetched |
| `AddJson.AddNodeAppendsOne` | src/Pages/add-json.tsx:59-81 | exactly one node is appended to the first fetched region of the name: tag "Node " and the highest number plus one, NodeId the old count plus one, no levels |
| `AddJson.NewNodeTagFresh` | src/Pages/add-json.tsx:64-74 | the new tag is none of the region's node tags |
| `AddJson.NewNodeIsFound` | src/Pages/add-json.tsx:74-81 | the node page, opened on the new tag, finds the new node |
| `AddJson.CheckSubmitOrder` | src/Pages/add-json.tsx:92-100 | a missing region is reported before a missing node, and the check passes exactly when both are set |
| `AddJson.AddJsonPage.constructor` | src/Pages/add-json.tsx:8-13 | the page starts with nothing selected or listed and no error |
| `AddJson.AddJsonPage.SelectRegion` | src/Pages/add-json.tsx:33-54 | picking a fetched region makes it the document and lists its node tags |
| `AddJson.AddJsonPage.AddNode` | src/Pages/add-json.tsx:56-87 | the fetched region gains the node in place and becomes the document; the new tag is listed and selected |
| `AddJson.AddJsonPage.Submit` | src/Pages/add-json.tsx:89-103 | the node tag the node page opens on, or the error shown instead |
| `AddEnemyForm.SubmitEnemyMeaning` | src/modals/add-enemy.tsx:61-83 | a submit goes through exactly for the five listed names; type, spawnable and direction pass unchanged; the anticlockwise flag survives only for "Rotating" |
| `AddEnemyForm.DeclaredTypesAccepted` | src/modals/add-enemy.tsx:65-70 | every declared enemy type passes the modal |
| `AddEnemyForm.LaserReachesLevel` | src/modals/add-enemy.tsx:66 | "Laser" passes the modal, is stored as it is by the upsert, and leaves the cell's category as it was |

## Left out

- REST calls, and the save-on-update side effect of the data context: src/services/index.ts and src/context/data.tsx are not part of this model. A save is the updated Region value. The fetched regions are an input of the region page.
- `window.confirm` and `alert`: a confirmation is a boolean input and an alert is a returned message.
- Keyboard listener registration, modal visibility and the submit routing of the start, trap and trigger modals: the held key and the modal's values are inputs.
- JSX, CSS, block colours, routing, `encodeURIComponent` of route parameters, and the presentational components (LevelPreview, StartEndSelector, EnemyPalette, the laser and trap-trigger modals).
- Transform and Bounds numbers are passed through as reals. Only node indices and `eulerAngles.y` are reasoned about.
- Shallow-copy aliasing in the state updaters, including the `jumpNodes` array shared by the nodes one click creates: levels are values. Mutating the previous state in place is therefore not modelled.
- `parseInt` precision beyond exact naturals, and the general regular-expression engine: the two fixed patterns are modelled directly.
- `toLowerCase` is modelled on ASCII letters only.
- `handleNormalClick` only logs, so it is the `CallNormalClick` action and nothing more.
- Node removal, trap slot indices and spawn upsert-by-tag do not occur in the code.
- Off-grid indices: the path engine, the save pass and the neighbour functions require every index to be a grid cell. The Grid only passes NODES entries. On the level page only the path-click handlers and the JumpNodes pass require the loaded level's path lists to be on the grid; the other handlers take any level. An off-grid index in a stored level would make the source throw a TypeError, and the model does not capture that.
- JavaScript number width: indices and angles are unbounded integers. The code performs no arithmetic on them that could overflow.
