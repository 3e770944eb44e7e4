# Jigsaw: a verified model of the game core

A browser jigsaw puzzle. An image is cut into a `c x r` grid of pieces
along random Bezier cut lines. The pieces are scattered on a table, and the
player drags and turns them. Pieces that are neighbours in the picture snap
together into a group when they are dropped close enough to where they
belong and are turned the same way. A group that holds the whole border,
unturned, freezes in place. A multiplayer mode keeps the pieces of several
players in step: one player hosts, the others join a room.

The model covers:

- **Aabb**: the axis-aligned boxes of `src/logic/framework/bvh.js`. These
  are the overlap test, the perimeter and the union.
- **AabbTree**: the dynamic bounding-volume tree of the same file, kept as
  an arena of nodes in a class. It covers:
  - inserting a leaf by the perimeter heuristic;
  - removing a leaf;
  - the AVL-style rotations;
  - the refitting walk up to the root;
  - the stack-based query.
- **Bvh**: the `BVH` wrapper that files each piece under a box 1.5 times
  its size and reports what the box touches.
- **Pieces**: the pieces and groups of `src/logic/framework/piece.js`. These
  are the quarter-turn table, the neighbour test, the connected position,
  `Group.join`, `correctPositions`, `moveTo` and `rotate`, on a `Board`
  class that holds every piece and group.
- **GameRules**, **Snapping** and **Game**: `PuzzleGame` of
  `src/logic/game.js`. This is the board layout and the edge count, restoring
  a save, the first stacking of the groups, `placePieces` (connect, freeze,
  align, re-file, restack), `grabPieces`, `tryFreezeGroup` and `getPieces`.
- **Network**: the bookkeeping of `src/logic/multiplayer/network.js`. This
  is message segmentation and reassembly, `updatePiece`, the peer table of
  host and client, and the host's batch of piece updates. The game calls
  that a received message makes are also modelled.
- **Generate** and **Puzzles**: cut-line generation
  (`src/logic/puzzle/generate.js`) and the puzzle description, its save
  format and the sides of each piece (`src/logic/puzzle/puzzle.js`).
- **Pointer**: the pointer state machine of `src/ui/controls/pointer.js`
  (idle / dragging a group / panning the camera).
- **Menu**: the small helpers of `src/ui/menu.jsx`.

Coordinates are `real`s. Besides `+`, `-`, `*`, comparisons, `min` and
`max`, the source divides: a piece is `h / w` tall
(`src/logic/framework/piece.js:46`), the index halves the grown box sides
(`src/logic/framework/bvh.js:271-272`), and the cell size is the image size
over the grid (`src/logic/puzzle/puzzle.js:27-28`). The model divides exact
reals there; rounding is listed under "## Left out". Piece and
group identities are integer indices. A group is named by the index of the
piece that founded it, as `Group.id` is in the source. Random draws, the
clock, the pointer hit test and every message transport are parameters of
the operations that use them.

## Model

| member | source | states |
|---|---|---|
| Aabb.Perimeter | src/logic/framework/bvh.js:16-18 | the perimeter of a proper box is non-negative, and zero only for a point |
| Aabb.Combine | src/logic/framework/bvh.js:19-26 | the union box contains both boxes and is the least box that does |
| Aabb.CombineCommutes | src/logic/framework/bvh.js:19-26 | the union does not depend on the order of its arguments |
| Aabb.CombineProper | src/logic/framework/bvh.js:19-26 | the union of a proper box with any box is proper |
| Aabb.TestSymmetric | src/logic/framework/bvh.js:6-15 | the overlap test is symmetric |
| Aabb.TestIffSharedPoint | src/logic/framework/bvh.js:6-15 | two proper boxes pass the overlap test exactly when they share a point (touching counts) |
| Aabb.TestMonotone | src/logic/framework/bvh.js:6-15 | a box that contains another overlaps everything the smaller one overlaps, which is what makes pruning a subtree sound |
| Aabb.TouchingOverlap | src/logic/framework/bvh.js:6-15 | boxes that only share a side still overlap |
| AabbTree.Tree.constructor | src/logic/framework/bvh.js:42-45 | a new tree is empty: no nodes, no leaves, no root |
| AabbTree.Tree.FindSibling | src/logic/framework/bvh.js:78-112 | the descent stops at a leaf, or at an internal node where creating a new parent costs less than descending into either child |
| AabbTree.DescentCost | src/logic/framework/bvh.js:80-101 | descending into a child never costs less than the cost the child inherits |
| AabbTree.Tree.Splice | src/logic/framework/bvh.js:114-131 | the new leaf and its new parent are linked in above the chosen sibling; the leaves gain exactly the new leaf with its box and no piece; only the nodes on the path to the root still need refitting |
| AabbTree.SpliceCorrect | src/logic/framework/bvh.js:114-131 | the splice keeps every parent/child link consistent and changes the leaf set, leaf boxes and leaf pieces only by the new leaf |
| AabbTree.FirstLeaf | src/logic/framework/bvh.js:72-76 | a leaf inserted into an empty tree becomes a well-formed one-leaf tree |
| AabbTree.Tree.Insert | src/logic/framework/bvh.js:47-51 | insertion keeps the tree well formed and fitted, adds one fresh leaf carrying the given box, and leaves every other leaf as it was |
| AabbTree.Tree.Refit | src/logic/framework/bvh.js:133-137 | the walk to the root, balancing each node and then refitting it, leaves every node fitted (box is the union of its children's boxes, height one more than the taller child) and keeps the leaves |
| AabbTree.Tree.Fit | src/logic/framework/bvh.js:135-136 | the refit step: the node takes the union of its children's boxes and one more than the taller child's height, the links stay as they were, and the leaves are unchanged |
| AabbTree.Tree.Balance | src/logic/framework/bvh.js:170-254 | a leaf, a node of height below 2, or a node whose children's heights differ by at most 1 is left alone and returned; a right child taller by more than 1 is promoted and returned, a left child taller by more than 1 likewise; links, fitting outside the remaining path and all leaves are kept |
| AabbTree.Tree.Rotate | src/logic/framework/bvh.js:179-252 | a rotation lifts a child into the node's place and lowers the node below it with correct stored heights; the lifted child keeps its taller child (the second one on a tie) in its second slot and hands the other to the lowered node, in the slot the lifted child came from; the leaves and their boxes and pieces are unchanged |
| AabbTree.RotationCorrect | src/logic/framework/bvh.js:179-252 | rotation keeps the tree linked and fitted off the refit path and keeps the leaves |
| AabbTree.RightRotationHeightsAsWritten | src/logic/framework/bvh.js:216-252 | the heights the second rotation stores for the lowered and the lifted node; the lowered one is too high exactly when its lost child `d` was taller than its remaining child `c` |
| AabbTree.RightRotationHeightsMisfit | src/logic/framework/bvh.js:240-241 | with child heights 0, 1, 0 the stored height of the lowered node is 2 while its children are leaves |
| AabbTree.Tree.Remove | src/logic/framework/bvh.js:139-169 | removal keeps the tree well formed and removes exactly that leaf, with its box and piece |
| AabbTree.UnspliceCorrect | src/logic/framework/bvh.js:146-158 | unlinking the leaf and its parent puts the sibling in the parent's place and keeps the links consistent; only the path from the grandparent needs refitting |
| AabbTree.LastLeaf | src/logic/framework/bvh.js:139-144 | removing the only leaf leaves the empty tree |
| AabbTree.Tree.Query | src/logic/framework/bvh.js:55-69 | the reported leaves are exactly the leaves other than `self` whose boxes overlap the query box, each reported once |
| AabbTree.MissPrunes | src/logic/framework/bvh.js:61-67 | a node whose box misses the query has no hit below it |
| AabbTree.Under | src/logic/framework/bvh.js:29-40 | every node's box contains the boxes of the leaves below it |
| AabbTree.SiblingsDisjoint | src/logic/framework/bvh.js:29-40 | the two children of a node have disjoint sets of leaves, so the query reports no leaf twice |
| AabbTree.ParentHigher | src/logic/framework/bvh.js:255-261 | in a fitted tree every parent is internal and strictly higher than its children |
| AabbTree.PathToRoot | src/logic/framework/bvh.js:133-137 | the parent chain from any live node reaches the root, with heights strictly rising |
| AabbTree.Tree.SetPiece | src/logic/framework/bvh.js:276 | attaching a piece to a leaf changes only that leaf's piece |
| Bvh.PieceBox | src/logic/framework/bvh.js:270-273 | the box is centred on the piece and is 1.5 times its width and height |
| Bvh.BVH.constructor | src/logic/framework/bvh.js:265-268 | a new index holds no piece |
| Bvh.BVH.File | src/logic/framework/bvh.js:274-276 | the piece is filed under a fresh leaf carrying its box, and no other piece uses that leaf |
| Bvh.BVH.QueryLeaves | src/logic/framework/bvh.js:55-69 | the leaf query returns the indexed pieces, other than the one on leaf `self`, whose boxes overlap |
| Bvh.BVH.PiecesOf | src/logic/framework/bvh.js:285-289 | mapping reported leaves to their pieces loses none and duplicates none |
| Bvh.BVH.Insert | src/logic/framework/bvh.js:269-280 | the piece is indexed under its box, and the hits are exactly the previously indexed pieces whose boxes meet it (never the piece itself), each once |
| Bvh.BVH.Remove | src/logic/framework/bvh.js:281-284 | the piece is no longer indexed; every other piece keeps its box |
| Bvh.BVH.Query | src/logic/framework/bvh.js:285-289 | the hits are exactly the indexed pieces whose boxes overlap the query, each once |
| Bvh.PairedAdd | src/logic/framework/bvh.js:274-276 | filing a piece under a fresh leaf keeps the piece-to-leaf table a bijection and adds exactly that piece's box |
| Bvh.PairedRemove | src/logic/framework/bvh.js:281-284 | unfiling a piece keeps the bijection and drops exactly that piece's box |
| Bvh.HitPieces | src/logic/framework/bvh.js:285-289 | leaf hits translate into exactly the overlapping pieces |
| Bvh.SkipSelf | src/logic/framework/bvh.js:277-279 | skipping the new leaf's own box in the insertion query reports the overlaps among the pieces indexed before |
| Pieces.QuickRotateNorm | src/logic/framework/piece.js:4-9 | every quarter turn keeps the length of a vector |
| Pieces.QuickRotateTurns | src/logic/framework/piece.js:4-9 | table entry k is k successive quarter turns |
| Pieces.QuickRotateUndo | src/logic/framework/piece.js:4-9 | turning by k and then by (4 - k) mod 4 gives back the vector |
| Pieces.QuickRotateLinear | src/logic/framework/piece.js:4-9 | turns distribute over sums and negation |
| Pieces.IsNeighbor | src/logic/framework/piece.js:90-96 | two pieces are neighbours exactly when they share a row or column of the grid and are one step apart |
| Pieces.NeighborSymmetricIrreflexive | src/logic/framework/piece.js:90-96 | being neighbours is symmetric, and no piece neighbours itself |
| Pieces.ConnectedPosition | src/logic/framework/piece.js:97-108 | the place is the piece's own place plus the grid offset to `other`, turned by the piece's orientation; for the same grid cell it is the piece's own place |
| Pieces.AlignedSymmetric | src/logic/framework/piece.js:97-108 | if `q` sits where `p` would put it, then `p` sits where `q` would put it (same size and turn) |
| Pieces.AlignedThrough | src/logic/framework/piece.js:27-35 | two pieces both aligned on a common root are aligned on each other, so a corrected group fits together pairwise |
| Pieces.NewGroup | src/logic/framework/piece.js:12-16 | a new group is named after its founder, holds only the founder and is not frozen |
| Pieces.FreshWf | src/logic/framework/piece.js:42-76 | freshly made pieces, each founding its own group, form a well-formed board |
| Pieces.JoinSelf | src/logic/framework/piece.js:17-26 | joining a group with itself changes nothing |
| Pieces.JoinDistinct | src/logic/framework/piece.js:17-26 | joining two groups: the larger one (the other one on a tie) takes over every member of the smaller, appended in order; the smaller's members point at it; it is frozen if either was; all else unchanged |
| Pieces.Size | src/logic/framework/piece.js:36-38 | the size of a group is the number of pieces that belong to it |
| Pieces.SizeCounts | src/logic/framework/piece.js:36-38 | on a well-formed board, the member list length counts the pieces pointing at the group |
| Pieces.CorrectedOver | src/logic/framework/piece.js:27-35 | correcting positions keeps the number of pieces |
| Pieces.Placed | src/logic/framework/piece.js:30-33 | a corrected piece sits exactly where the root puts it and only its position changes |
| Pieces.PlacedTwice | src/logic/framework/piece.js:27-35 | correcting a piece that was already corrected changes nothing |
| Pieces.CorrectedAligned | src/logic/framework/piece.js:27-35 | after correction every listed piece is aligned on the root, the root and unlisted pieces are untouched, and only positions change |
| Pieces.CorrectedGroupAligned | src/logic/framework/piece.js:27-35 | after correction any two members of the group are aligned on each other |
| Pieces.Reoriented | src/logic/framework/piece.js:116-118 | reorienting keeps the number of pieces |
| Pieces.ReorientedKeeps | src/logic/framework/piece.js:116-118 | reorienting to a quarter turn keeps ids and groups and gives quarter-turn orientations |
| Pieces.Board.constructor | src/logic/framework/piece.js:42-76 | the board holds the given well-formed pieces and groups |
| Pieces.Board.Join | src/logic/framework/piece.js:17-26 | the board after `join` is the join of the two groups, and stays well formed |
| Pieces.Board.CorrectPositions | src/logic/framework/piece.js:27-35 | the members of the group are placed by the root; the groups are unchanged |
| Pieces.Board.MoveTo | src/logic/framework/piece.js:109-113 | the piece is moved and then its group is corrected around it |
| Pieces.Board.Rotate | src/logic/framework/piece.js:114-121 | every member of the group takes the new orientation and is then placed by the piece |
| Pieces.MoveToResult | src/logic/framework/piece.js:109-113 | after `moveTo` the piece is exactly at the target, its group members are aligned on it, and non-members are untouched |
| Pieces.RotateResult | src/logic/framework/piece.js:114-121 | after `rotate` the group shares the new turn, is aligned on the piece, the piece keeps its place, and non-members are untouched |
| GameRules.LayoutFresh | src/logic/game.js:55-68 | the pieces made are c*r in number, each with its id as index, its own group, unturned and not grabbed |
| GameRules.LayoutAt | src/logic/game.js:55-68 | piece i*r+j is the piece of column i and row j |
| GameRules.EdgeTotalAppend | src/logic/game.js:54-61 | counting edge pieces is additive over concatenation |
| GameRules.EdgeCountIsBorder | src/logic/game.js:54-61 | for c, r >= 2 the constant `2c + 2r - 4` is exactly the number of pieces flagged as edges |
| GameRules.CountEdges | src/logic/game.js:221-226 | a group never counts more edge pieces than it has members |
| GameRules.CountEdgesCard | src/logic/game.js:221-226 | the loop counts the distinct edge pieces among the members |
| GameRules.CountEdgesComplete | src/logic/game.js:221-228 | a group counts as many edge pieces as the board has exactly when it holds every edge piece |
| GameRules.SnapError | src/logic/game.js:176-178 | the squared snapping error is non-negative, and zero when `q` is exactly where `p` puts it |
| GameRules.SnapErrorIs | src/logic/game.js:176-178 | the error is the squared distance between `q` and its connected position |
| GameRules.SnapSymmetric | src/logic/game.js:168-180 | for pieces of the same size, `q` snaps to `p` exactly when `p` snaps to `q` |
| GameRules.AlignedNeighboursSnap | src/logic/game.js:166-180 | aligned, equally turned neighbours always snap |
| GameRules.Joiners | src/logic/game.js:80-83 | the pieces joining a saved group are exactly the saved pieces that name it and are not its founder |
| GameRules.JoinersDistinct | src/logic/game.js:80-83 | a restored group lists no piece twice |
| GameRules.Heads | src/logic/game.js:84-86 | the groups pushed for stacking are exactly the pieces that head their own group, in id order |
| GameRules.Restored | src/logic/game.js:74-107 | a restored piece joins its saved group (or keeps its own when unsaved) and keeps id, grid cell and edge flag |
| GameRules.RestoreWf | src/logic/game.js:70-108 | restoring a consistent save gives a well-formed board |
| GameRules.SaveOf | src/logic/game.js:246-253 | the save has one record per piece |
| GameRules.SaveRestores | src/logic/game.js:246-253 | a save of a well-formed board is consistent, and restoring it gives back each piece's group, place and turn |
| Game.MakePieces | src/logic/game.js:52-68 | the nested loops build exactly the column-major layout |
| Game.RestoreAll | src/logic/game.js:70-108 | every piece is restored or scattered; each group lists its founder followed by its joiners; the heads are collected in id order; the board is well formed |
| Game.RestoreOne | src/logic/game.js:72-107 | one turn of the restore loop extends the restored prefix by one piece |
| Game.Outside | src/logic/game.js:165 | the filtered hits are exactly the hits outside the group |
| Game.FreezeMeansBorderDone | src/logic/game.js:218-232 | the freezing condition holds exactly when the group's first member is unturned and the group holds every edge piece |
| Game.FreezeTest | src/logic/game.js:218-232 | the test answers frozen-already or the freezing condition |
| Game.TopOf | src/logic/game.js:117-121 | the result is the highest z-index among hits outside the group, or the start value when there is none higher |
| Game.LiftAll | src/logic/game.js:124-126 | every member gets the new z-index |
| Game.MarkAll | src/logic/game.js:147-150 | every member gets the new grabbed flag and z-index |
| Game.MarkedResult | src/logic/game.js:147-150 | members get the flag and z-index, non-members are untouched, nothing else changes |
| Game.InsertMember | src/logic/game.js:115-122 | the member is indexed under its box, and the running maximum is raised to cover every overlapping piece outside the group; the new maximum is the old one or the z-index of such a piece |
| Game.IndexMembers | src/logic/game.js:115-122 | all members are indexed and the result is the greatest z-index of an outside piece they overlap, or 0 when there is none |
| Game.ReindexMembers | src/logic/game.js:199-207 | all members are re-filed under their current boxes, and the result is the greatest z-index of an outside piece they overlap, or the start value |
| Game.StackGroup | src/logic/game.js:111-127 | one group is frozen where due, indexed, and lifted above everything already stacked that it overlaps |
| Game.StackHeads | src/logic/game.js:110-127 | the stacking loop keeps its invariant over all heads |
| Game.StackedDone | src/logic/game.js:110-127 | after stacking, every piece is indexed under its box, each group's members share a z-index of at least 2, each group is frozen exactly when due, and of two overlapping pieces of different groups the later group lies higher |
| Game.Build | src/logic/game.js:52-108 | the pieces are the layout restored from the save, and the groups are as saved |
| Game.StackAll | src/logic/game.js:110-127 | the board after the first stacking meets everything `StackedDone` states |
| Game.Start | src/logic/game.js:52-127 | the constructor's values satisfy the `Started` description |
| Game.PuzzleGame.constructor | src/logic/game.js:10-131 | a valid game with `edgeCount = 2c + 2r - 4` whose board and index are as `Started` describes |
| Game.Reinsert | src/logic/game.js:161-162 | after remove and insert the piece is indexed under its new box, and the hits are exactly the other pieces whose boxes meet it |
| Game.Candidates | src/logic/game.js:160-165 | the candidates are exactly the overlapping pieces outside the piece's group |
| Snapping.JoinRegroups | src/logic/game.js:187 | after the join both pieces share a group, which is frozen if either was, and only the two groups' pieces change group |
| Snapping.JoinMerges | src/logic/game.js:187 | a join never separates pieces that were together |
| Snapping.MergesTrans | src/logic/game.js:166-188 | a sequence of joins never separates pieces that were together |
| Snapping.Connect | src/logic/game.js:166-188 | one candidate check keeps the board well formed and the anchor a piece of the board |
| Snapping.ConnectAll | src/logic/game.js:166-188 | checking all candidates keeps the board well formed and the anchor a piece of the board |
| Snapping.ConnectKeeps | src/logic/game.js:166-188 | a candidate check only merges, keeps the dropped group together, keeps the anchor in it, and touches no unrelated piece |
| Snapping.ConnectAllKeeps | src/logic/game.js:166-188 | the same for the whole candidate list |
| Snapping.ConnectingStep | src/logic/game.js:160-188 | one turn of the outer loop keeps the connecting invariant (groups only merge, every merged group met the root's group through a snapping pair with a piece of the walked list, the anchor rule holds, the root's group is frozen exactly when a group it gathered was, group records outside it are unchanged), and the root's first group only gains members |
| Snapping.GatheredStep | src/logic/game.js:160-188 | one turn of the outer loop keeps groups merging only, the dropped group together, the first group's starting members at the head of its list, and unrelated pieces untouched |
| Snapping.SnapsRegrouped | src/logic/game.js:170-182 | whether two pieces snap depends only on their positions and turns, not on groups |
| Snapping.JoinJoinedBySnaps | src/logic/game.js:160-187 | a join of the root's group with a snapping candidate's group, made for a piece of the walked list, keeps every merged group linked by a snapping pair whose root-side piece is on that list |
| Snapping.JoinSnapsInto | src/logic/game.js:160-187 | a piece of the joined group came from a group linked to root's group by a snapping pair with a piece of the walked list, found before the join or made by it |
| Snapping.JoinWalked | src/logic/game.js:160-187 | a join only appends to the list the outer loop walks, so a piece on it stays on it |
| Snapping.ConnectTracked | src/logic/game.js:166-188 | one candidate check keeps the snap-only merges, the anchor rule (the anchor moves only to a strictly larger group), the exact frozen flag of the root's group and the records of the other groups, and a snapping candidate ends up in the root's group |
| Snapping.JoinMergedFrozen | src/logic/framework/piece.js:17-26 | a join of the root's group with another gives the subsumer the OR of the two flags, so the root's group stays frozen exactly when a group it gathered was |
| Snapping.JoinRecordsOutside | src/logic/game.js:187 | a join with root's group leaves the group record of every piece outside it as it was |
| Snapping.RegroupedKeeps | src/logic/game.js:166-188 | a candidate check keeps groups merging only and unrelated pieces untouched |
| Snapping.ConnectAllRegrouped | src/logic/game.js:166-188 | the same for the whole candidate list |
| Snapping.ConnectAllTracked | src/logic/game.js:166-188 | checking all candidates of a walked piece keeps the snap-only merges, the anchor rule, the exact frozen flag and the other groups' records, and every candidate that snaps ends up in the root's group |
| Snapping.ConnectAllGrows | src/logic/game.js:166-188 | checking candidates only appends to every group's member list |
| Snapping.SnappedExtend | src/logic/game.js:166-188 | a candidate already joined stays joined while later candidates are checked |
| Snapping.JoinedSame | src/logic/game.js:191-212 | the snap-only merge fact depends only on groups, the walked list and the first board |
| Snapping.MergedFrozenSame | src/logic/game.js:191-212 | which first groups the root's group gathered depends only on the groups of the pieces |
| Snapping.TryConnect | src/logic/game.js:168-188 | the board and anchor after one candidate are as `Connect` defines |
| Snapping.ConnectCandidates | src/logic/game.js:166-188 | the board and anchor after the inner loop are as `ConnectAll` defines |
| Game.TopStep | src/logic/game.js:115-122 | one member's hits keep the running maximum exactly the greatest z-index of an overlapping outside piece |
| Game.CandidatesCover | src/logic/game.js:160-165 | every overlapping piece outside the group is among the candidates |
| Game.ExhaustedStep | src/logic/game.js:160-188 | after one member's candidates are checked, none of them that snaps to that member is left outside the group |
| Game.ExhaustedSame | src/logic/game.js:191-212 | the no-snap-left fact depends only on groups, which the second loop does not change |
| Game.SettledJoins | src/logic/game.js:191-212 | the second loop keeps the snap-only merges, the anchor rule and the no-snap-left fact |
| Game.ConnectMember | src/logic/game.js:160-188 | the candidates are exactly the overlapping pieces outside the group, the board and anchor afterwards are what checking them in turn gives, the connecting invariant is kept, and no candidate met so far that snaps to an earlier member is left outside the group |
| Game.ConnectGroup | src/logic/game.js:159-189 | after the first loop groups have only merged; each merged group met the root's group through a snapping pair whose piece the first group lists; the first group's list starts with its members from before the drop; the root's group is frozen exactly when a group it gathered was; the anchor is the root or a piece of a larger group; pieces outside it and their groups' records are unchanged; every re-filed piece has its current box; and no overlapping outside piece snaps to a piece of that list |
| Game.SettledAt | src/logic/game.js:191-212 | piece by piece: the members of the root's group are placed by the anchor, released and raised, and the rest are as they were |
| Game.SettledWf | src/logic/game.js:191-212 | the settled board is well formed and keeps every piece in its group |
| Game.SettledPieces | src/logic/game.js:191-212 | the settled pieces are as the drop promises: the root's group placed by the anchor, released at `z + 2`, the rest untouched |
| Game.SettledIndex | src/logic/game.js:197-207 | after the second loop every member of the root's group is filed under its new box and every other piece keeps its box |
| Game.SettledOrder | src/logic/game.js:197-212 | after the drop the root's group lies above every outside piece it overlaps |
| Game.SettledTop | src/logic/game.js:197-212 | after the drop the root's group lies at `z + 2`, where `z` is the greatest z-index of an outside piece overlapping it, or 0 when there is none |
| Game.SettledTopBound | src/logic/game.js:197-207 | no outside piece overlapping the root's group after the drop has a z-index above `z` |
| Game.SettledTopMet | src/logic/game.js:197-207 | when `z` is not 0, some outside piece overlapping the root's group after the drop has z-index `z` |
| Game.SettledFrozen | src/logic/game.js:191-192 | the root's group is frozen exactly when a group it gathered was frozen or when it is due |
| Game.SettledGroups | src/logic/game.js:191-212 | the second loop changes only the record of the root's group, so every other piece's group record is as before the drop |
| Game.SettledDrops | src/logic/game.js:156-217 | from the state after the first loop, the settled board and index meet the whole drop description, as for `PlacePieces` |
| Game.PuzzleGame.TryFreezeGroup | src/logic/game.js:218-232 | only the frozen flag of the group may change, and it becomes frozen-before or the freezing condition |
| Game.PuzzleGame.Release | src/logic/game.js:209-212 | every member is released at z-index `z + 2` |
| Game.PuzzleGame.FreezeAndAlign | src/logic/game.js:191-195 | the group is frozen where due and its members are placed by the anchor |
| Game.PuzzleGame.Settle | src/logic/game.js:191-212 | the board after the last three steps is the settled board |
| Game.PuzzleGame.PlacePieces | src/logic/game.js:156-217 | the `Dropped` description: groups only merge, and only with groups met through a snapping pair whose piece the root's first group lists; that list starts with its members from before the drop, and no overlapping outside piece snaps to a piece on it; the anchor is the root or a piece of a larger group; the dropped group is aligned on the anchor, released at `z + 2` with `z` the greatest z-index of an outside piece it overlaps (0 when none), re-filed, and frozen exactly when a group it gathered was or when it is due; every piece outside it keeps its record, its box and its group's record |
| Game.PuzzleGame.GrabPieces | src/logic/game.js:146-155 | every member of the root's group is grabbed at z-index 9999 and nothing else changes |
| Game.PuzzleGame.GetPieces | src/logic/game.js:246-253 | one record per piece holding its group, place and turn; the records form a save the constructor accepts |
| Network.SegmentsShape | src/logic/multiplayer/network.js:7-18 | the last segment is `"done"`; every other segment is non-empty and at most 64000 long; all but the last data segment are full; together they give back the message |
| Network.SegmentMessage | src/logic/multiplayer/network.js:7-18 | the loop produces exactly those segments; the empty message gives just `["done"]` |
| Network.IgnoredAfterDone | src/logic/multiplayer/network.js:270-273 | once `"done"` has arrived, further init messages change nothing |
| Network.Reassembles | src/logic/multiplayer/network.js:266-281 | feeding the segments of a message, with no data segment equal to `"done"`, reassembles exactly that message and stops listening |
| Network.ObjectSegmentsAreData | src/logic/multiplayer/network.js:86-91 | a JSON object's data segments are never `"done"`, so the round trip holds for the init message |
| Network.Receiver.constructor | src/logic/multiplayer/network.js:266-268 | the receiver starts listening with an empty buffer |
| Network.Receiver.OnMessage | src/logic/multiplayer/network.js:269-279 | the JSON is delivered exactly when `"done"` arrives while listening, and it is the buffer so far |
| Network.Updated | src/logic/multiplayer/network.js:28-34 | only piece `u.id` changes, and only its place and turn |
| Network.UpdatePiece | src/logic/multiplayer/network.js:28-34 | the board after `updatePiece` is the update of the old board, and the returned piece is the updated one |
| Network.Renamed | src/logic/multiplayer/network.js:42-46 | the self entry moves to the new key, the old key is gone, other entries are untouched; a change to the same id loses the entry |
| Network.Host.OnIdChange | src/logic/multiplayer/network.js:42-46 | the table is renamed and `selfId` is the new id |
| Network.Host.constructor | src/logic/multiplayer/network.js:71-83 | the table holds only the self entry at key -1, and the round robin starts at 0 |
| Network.Host.PeerConnected | src/logic/multiplayer/network.js:97-100 | a connected peer gets a fresh entry at the origin |
| Network.Host.PeerLost | src/logic/multiplayer/network.js:101-109 | the lost peer's entry is removed, and a piece it held is dropped as placePieces does |
| Network.Host.HandlePointer | src/logic/multiplayer/network.js:137-149 | the self cursor moves, and a hovered piece's report is recorded as held |
| Network.Host.HandleGrab | src/logic/multiplayer/network.js:150-157 | the grabbed piece's report is recorded as held by self |
| Network.Host.HandleDrop | src/logic/multiplayer/network.js:158-160 | self holds no piece any more |
| Network.Received | src/logic/multiplayer/network.js:113-136 | the sender's entry after a message: the cursor moves only when both coordinates are present; a drop clears the held piece; otherwise a grab, then a piece report, is recorded |
| Network.HostCalls | src/logic/multiplayer/network.js:113-136 | the game calls of a message: the updates it carries, a grab exactly for its grab, and a drop of exactly its dropped piece made last, after that piece's update |
| Network.HostCallsOk | src/logic/multiplayer/network.js:113-136 | a well-formed message gives only calls the game accepts |
| Network.Host.Receive | src/logic/multiplayer/network.js:114-127 | the sender's entry becomes the received entry, and the game is not touched |
| Network.Host.HandleMessage | src/logic/multiplayer/network.js:113-136 | the sender's entry is as received, and the game goes through exactly the message's calls in order |
| Network.Perform | src/logic/multiplayer/network.js:113-136 | one call changes the game as an update, a grab or a drop does |
| Network.PerformAll | src/logic/multiplayer/network.js:113-136 | the game goes through the calls in order |
| Network.TracedStep | src/logic/multiplayer/network.js:113-136 | a trace of k calls extended by one performed call traces k + 1 calls |
| Network.HeldIds | src/logic/multiplayer/network.js:166-171 | the ids collected are exactly the pieces held by some peer, each once |
| Network.Missing | src/logic/multiplayer/network.js:173-178 | fewer than n distinct ids below n leave some id free, so the round robin finds a new one |
| Network.RoundRobinStep | src/logic/multiplayer/network.js:173-178 | the round robin reaches any target id before wrapping past it |
| Network.FillIds | src/logic/multiplayer/network.js:173-178 | the held ids come first and are topped up to 20 distinct in-range ids |
| Network.Records | src/logic/multiplayer/network.js:180-183 | one record per id, holding the piece's place, turn and group |
| Network.Host.SendUpdate | src/logic/multiplayer/network.js:161-187 | at least 20 distinct piece records are sent, including every piece a peer holds, each with the piece's current state, with the unchanged peer table |
| Network.Report | src/logic/multiplayer/network.js:150-157 | a report names the piece and carries its place and turn |
| Network.HeldPiece | src/logic/multiplayer/network.js:199-200 | the id of the piece self holds, or -1 |
| Network.UpdateCallsMeaning | src/logic/multiplayer/network.js:201-205 | the client applies every reported piece except the one it holds itself, and nothing else |
| Network.PeerCallsMeaning | src/logic/multiplayer/network.js:207-225 | a grab exactly for each known peer that newly holds a piece, a drop exactly for each known peer that let go of one, nothing for new peers |
| Network.GoneCallsMeaning | src/logic/multiplayer/network.js:226-233 | a drop exactly for each vanished peer that held a piece, and nothing else |
| Network.UpdateLoop | src/logic/multiplayer/network.js:201-205 | the loop makes exactly the update calls |
| Network.PeerLoop | src/logic/multiplayer/network.js:207-225 | the loop visits each entry of the message once, makes its calls, and merges the entries into the table |
| Network.GoneLoop | src/logic/multiplayer/network.js:226-233 | the loop visits each vanished peer once, makes its calls, and removes them from the table |
| Network.MergedTable | src/logic/multiplayer/network.js:222-223 | the table after the second loop is the old table overwritten by the message's entries |
| Network.RemainingTable | src/logic/multiplayer/network.js:226-233 | the table after the third loop is the table without the vanished peers |
| Network.GoneFrame | src/logic/multiplayer/network.js:226-233 | merging in the message's entries does not change the calls for peers the message lacks |
| Network.Reconcile | src/logic/multiplayer/network.js:195-235 | the new table is the host's table; the calls are those of the three loops over the message's peers and the vanished peers |
| Network.ClientCallsOk | src/logic/multiplayer/network.js:195-235 | a well-formed host message gives only calls the game accepts |
| Network.Client.constructor | src/logic/multiplayer/network.js:37-46 | the table holds only the self entry at key -1; no game yet, nothing to send |
| Network.Client.Setup | src/logic/multiplayer/network.js:55-59 | the client is attached to its game and nothing else changes |
| Network.Client.OnIdChange | src/logic/multiplayer/network.js:42-46 | the table is renamed and `selfId` is the new id |
| Network.Client.HandleMessage | src/logic/multiplayer/network.js:195-235 | before setup the message is ignored; after it, the table becomes the host's and the game goes through the update, grab and drop calls in order |
| Network.Client.HandlePointer | src/logic/multiplayer/network.js:236-249 | the self cursor moves, a hovered piece is recorded as held, and an update is due |
| Network.Client.HandleGrab | src/logic/multiplayer/network.js:250-254 | the grab is recorded as held and a grab message with the piece's report is sent |
| Network.Client.HandleDrop | src/logic/multiplayer/network.js:255-259 | self holds nothing and a drop message with the piece's report is sent |
| Network.Client.SendUpdate | src/logic/multiplayer/network.js:260-265 | the self entry is sent exactly when an update is due, and no update is due afterwards |
| Network.Entry | src/logic/multiplayer/network.js:260-265 | the sent entry carries the cursor and the held piece, with no grab or drop |
| Network.EntryReceived | src/logic/multiplayer/network.js:113-136 | the host's copy of a client's entry becomes the client's own entry (a piece it no longer holds stays recorded until a drop) |
| Generate.Count | src/logic/puzzle/generate.js:58 | a counted loop runs n times, or not at all for negative n |
| Generate.RandFloat | src/logic/puzzle/generate.js:8-12 | a unit draw lands in [min, max) |
| Generate.NubDir | src/logic/puzzle/generate.js:13 | the nub points up or down |
| Generate.MakeEdge | src/logic/puzzle/generate.js:3-52 | an edge is four curves from (0, 0) to (1, 0); the nub's base points lie on the line, its tip is halfway across it; the first control point mirrors the previous edge's last one |
| Generate.NubInsideEdge | src/logic/puzzle/generate.js:8-21 | with draws in range the nub sits strictly inside 0.3 .. 0.7 and its tip is 0.15 to 0.25 off the line |
| Generate.LineFrom | src/logic/puzzle/generate.js:54-65 | a line has one four-curve edge per draw, each ending at (1, 0) |
| Generate.LineSmooth | src/logic/puzzle/generate.js:57-62 | consecutive edges of a line join smoothly: each first control point mirrors the previous last one through the shared point |
| Generate.MakeLine | src/logic/puzzle/generate.js:54-65 | the loop builds exactly the line its draws define |
| Generate.SwapVec | src/logic/puzzle/generate.js:75-77 | the swap exchanges the coordinates |
| Generate.SwapLineInvolution | src/logic/puzzle/generate.js:67-85 | swapping twice gives back the line |
| Generate.MakeVerticalLine | src/logic/puzzle/generate.js:67-85 | the vertical line is the horizontal line of the same draws with coordinates swapped |
| Generate.MakeLines | src/logic/puzzle/generate.js:94-107 | `r - 1` horizontal lines of `c` edges and `c - 1` vertical lines of `r` edges, each the line of its draws |
| Generate.Reversed | src/logic/puzzle/generate.js:91 | reversal keeps the length |
| Generate.ReverseEdge | src/logic/puzzle/generate.js:87-92 | the reversed edge runs the curves backwards with control points swapped and ends at the given point |
| Generate.ReverseEdgeInvolution | src/logic/puzzle/generate.js:87-92 | reversing an edge, then reversing the result from its end point, gives back the edge |
| Generate.ReverseEdgeTwiceAt | src/logic/puzzle/generate.js:87-92 | the same, curve by curve |
| Generate.Path | src/logic/puzzle/generate.js:87-92 | the points an edge passes through, start first |
| Generate.ReverseEdgePath | src/logic/puzzle/generate.js:87-92 | a reversed edge passes through the same points in the opposite order |
| Puzzles.NewPuzzle | src/logic/puzzle/puzzle.js:20-33 | the puzzle's grid, piece size and image size agree, and its lines are those `makeLines` draws |
| Puzzles.ToSaveFormat | src/logic/puzzle/puzzle.js:153-160 | the save keeps the grid size and the cut lines |
| Puzzles.FromSaveFormat | src/logic/puzzle/puzzle.js:161-173 | loading gives a consistent puzzle whose save is the one loaded |
| Puzzles.LoadSaved | src/logic/puzzle/puzzle.js:153-173 | saving and loading a consistent puzzle with its image gives back the puzzle |
| Puzzles.MapSwapped | src/logic/puzzle/puzzle.js:13-16 | the mapped edge has the edge's length |
| Puzzles.ReverseEdge | src/logic/puzzle/puzzle.js:12-17 | the copy in puzzle.js computes the same reversed edge as the one in generate.js |
| Puzzles.ReverseEdgeAgrees | src/logic/puzzle/puzzle.js:12-17 | mapping then reversing is the reversed edge |
| Puzzles.PieceOutline | src/logic/puzzle/puzzle.js:103-133 | a side of a piece is straight exactly on the board's border; otherwise it is the cut between the piece and its neighbour on that side: the top and right cuts as drawn, the bottom and left ones reversed |
| Puzzles.VerticalNeighboursShareCut | src/logic/puzzle/puzzle.js:119-125 | the bottom of a piece retraces, backwards, the top of the piece below it |
| Puzzles.HorizontalNeighboursShareCut | src/logic/puzzle/puzzle.js:111-133 | the left side of a piece retraces, backwards, the right side of the piece to its left |
| Pointer.JsRem4 | src/ui/controls/pointer.js:30-32 | JavaScript's `% 4`: a remainder congruent to the argument, strictly between -4 and 4, with the argument's sign |
| Pointer.TapOrientation | src/ui/controls/pointer.js:28-33 | a tap turns a quarter turn forward with shift, and back without it, staying in 0..3 |
| Pointer.TapUndo | src/ui/controls/pointer.js:28-33 | a tap with shift and a tap without it undo each other |
| Pointer.FindIndex | src/ui/controls/pointer.js:93-95 | the first position of the pointer id in the list, or -1 exactly when it is absent |
| Pointer.Dragged | src/ui/controls/pointer.js:20-24 | the dragged root lands exactly at the aimed place |
| Pointer.Controls.constructor | src/ui/controls/pointer.js:50-54 | the controls start idle, with no pointer and no data |
| Pointer.Controls.InitDragGroup | src/ui/controls/pointer.js:7-18 | every member of the hit piece's group goes to z-index 999 and nothing else changes; the drag records the root, not moved, the start time and the offset from pointer to piece |
| Pointer.Controls.PointerDown | src/ui/controls/pointer.js:55-74 | idle on a piece starts a drag; idle elsewhere starts a pan; a second pointer is accepted only while panning with one; every other press is ignored |
| Pointer.Controls.DragCamera | src/ui/controls/pointer.js:40-48 | with one pointer the camera moves by the pan start minus the pointer; with two nothing moves |
| Pointer.Controls.DragGroup | src/ui/controls/pointer.js:20-24 | the drag is marked moved and the root group is moved to the pointer plus the offset |
| Pointer.Controls.MarkMoved | src/ui/controls/pointer.js:22 | only the moved flag changes |
| Pointer.Controls.MovePan | src/ui/controls/pointer.js:81-86 | the matching pointer is replaced by the event, and the camera follows |
| Pointer.Controls.PointerMove | src/ui/controls/pointer.js:76-88 | while dragging only the first pointer moves the group; while panning the camera follows; idle ignores it |
| Pointer.Controls.DropGroup | src/ui/controls/pointer.js:26-38 | a tap (under 100 ms, or never moved) turns the group first; then the group is always dropped as placePieces does |
| Pointer.Controls.EndDrag | src/ui/controls/pointer.js:91-92 | the drop happens and the controls return to idle with no pointer |
| Pointer.Controls.Release | src/ui/controls/pointer.js:91-92 | the state returns to idle with no pointer; the game is untouched |
| Pointer.Controls.EndPan | src/ui/controls/pointer.js:93-105 | the matching pointer is removed, and the state is idle when none remain |
| Pointer.Controls.PointerUp | src/ui/controls/pointer.js:90-106 | dragging drops the group and goes idle; panning removes the pointer; idle ignores it |
| Menu.FirstBlank | src/ui/menu.jsx:82-89 | the first free slot follows the longest run of saves numbered 1, 2, 3, ... from the start |
| Menu.AscendingAtLeastPosition | src/ui/menu.jsx:82-89 | in a list of keys from 1 up in increasing order, the key at position i is at least i + 1 |
| Menu.FirstBlankIsFree | src/ui/menu.jsx:82-89 | with saves in increasing key order, the first blank is no existing save's key, so a new game never overwrites one |
| Menu.NewGameOfferedIffSlotFree | src/ui/menu.jsx:121-128 | "New game" is offered exactly when the first five entries are not saves 1 to 5 |
| Menu.Letters | src/ui/menu.jsx:432 | only ASCII letters are kept, in order |
| Menu.Prefix | src/ui/menu.jsx:432 | the first n characters, or the whole string when shorter |
| Menu.UpperChar | src/ui/menu.jsx:432 | a lower-case letter becomes upper case and every other character is kept |
| Menu.Upper | src/ui/menu.jsx:432 | upper-casing keeps the length and maps each character |
| Menu.SanitizeRoomId | src/ui/menu.jsx:431-433 | the room id holds only A-Z and at most 10 characters |
| Menu.SanitizeIdempotent | src/ui/menu.jsx:431-433 | sanitising a sanitised id changes nothing |
| Menu.StartEnabledIffFiveLetters | src/ui/menu.jsx:481-484 | the host/join button is enabled exactly when the typed text holds at least five letters |
| Menu.FindIndex | src/ui/menu.jsx:152 | the first position holding the id, or -1 exactly when it is absent |
| Menu.SliceIndex | src/ui/menu.jsx:154-155 | a slice index is clamped into 0..length, counting negative values from the end |
| Menu.Slice | src/ui/menu.jsx:154-155 | `slice` keeps the entries between the clamped ends |
| Menu.DeleteById | src/ui/menu.jsx:151-157 | a present id's first entry is cut out and the list shrinks by one; for an absent id, `slice(0, -1)` and `slice(0)` give the list without its last entry followed by the whole list |
| Menu.SliceAround | src/ui/menu.jsx:153-156 | the two slices around a present position are the list without that position |
| Menu.DeleteRemovesExactly | src/ui/menu.jsx:294-300 | with distinct ids, deleting a present id keeps every other entry in order and drops only that one |
| Menu.DeletedAt | src/ui/menu.jsx:151-157 | the entries after the deleted one move down one place |
| Menu.DeleteDropsOne | src/ui/menu.jsx:151-157 | counted with multiplicity, exactly the entry found is removed |
| Menu.Clamp | src/ui/menu.jsx:309 | the result lies in [min, max] when min <= max, and is v when v already does |

## Left out

- Rendering and the animation loop are not part of this model. This covers WebGL, the scene, shadows, cursors on screen, `drawFullPuzzle`, the pixel work of `drawPiece`, `setBgColor` and the render calls.
- Persistence is not part of this model: IndexedDB `save`/`storeGame`, image fetching and data URLs. `getPieces` is modelled; writing it is not.
- Message transport is not part of this model. This covers channels, `sendSegments` with its 10 ms timer, the 33 ms update interval, JSON encoding and the peer manager. Messages are Dafny values, and the model reports what is sent.
- The clock and `Math.random` are inputs. Tap timing takes `now` as a parameter. The random scatter of unsaved pieces is a `Placement` per piece. Cut-line draws are unit values mapped as `randFloat` maps them.
- `game.query` and `piece.hitTest` are not modelled. The pointer handlers take the hit piece as a parameter. `viewportToWorld` is not modelled: events carry world positions.
- Pinch zoom and `setZoom` are not modelled. The two-pointer camera state only records the pointers: the source leaves the zoom gesture unimplemented there.
- `getCursors` and `close` are not modelled. They are rendering and transport.
- Host setup is not modelled: the init message (horizontal and vertical cuts, `getPieces()`, the image) and the segments sent to every peer on connect. `Network.Host.PeerConnected` models only the table change.
- The orientation getter rounds the renderable's angle (`Math.round(r / PI * 2)`). The model stores the quarter-turn count as an integer, so the floating-point round trip through radians is not modelled.
- JavaScript iteration order over sets and objects is not modelled. Group members are an ordered list in join order, as a `Set` keeps insertion order. The peer tables are maps, and the loops over them visit keys in an order the model leaves open (a ghost `order` returned by the loop).
- `Network.UpdatePiece`: requires the update's orientation to be a quarter turn (0..3). The source writes whatever the message carries.
- `Network.Host.SendUpdate`: does not state which pieces outside the held ones fill the batch (the next ids of the round robin). It states only that at least 20 distinct pieces are sent, including every held one.
- `Network.Host.SendUpdate`: requires at least 20 pieces. With fewer, the `while` loop of the source never ends. The menu clamps columns and rows to 5..50 before fitting them to the image's shape (`src/ui/menu.jsx:364-372` and `389-397`), so a puzzle made there usually has far more than 20 pieces.
- `Network.Client.HandleMessage`: requires `selfId` to be a key of the table once the game has started. When the host's table lacks the client, the source throws at `src/logic/multiplayer/network.js:199-200`, and every later message throws the same way; that failure path is not modelled.
- Floating-point rounding is not modelled. The model computes with exact reals, so a snap error that lands on the `0.0625` bound after rounding, or a box side that rounds differently, may decide differently in the source.
- `Game.PuzzleGame.PlacePieces`: states the anchor as the root or a piece whose first group was strictly larger than the dropped group; it does not state which of several such pieces is chosen, beyond what `Snapping.ConnectAll` defines.
- `Network.Client.HandleMessage`: the self-exclusion tests of the source compare string keys with the numeric `selfId` and never match. The model copies the host's self entry like any other and does not rely on those tests.
- `Network.Receiver`: reassembles the init JSON but does not parse it. The client then builds a `Puzzle` from it; that constructor takes three arguments and draws fresh cut lines, so the cuts the host sent are ignored. This is not modelled.
- `Network.Host.OnIdChange` and `Network.Client.OnIdChange`: require a new id different from the current one. `Network.Renamed` also covers the same-id case, where the source loses the entry.
- `Game.PuzzleGame.PlacePieces` and `Game.PuzzleGame.GrabPieces`: the `isLocal` network notifications (`mp.handleGrab`, `mp.handleDrop`) are separate calls in the model (`Network.Host.HandleGrab`, `Network.Host.HandleDrop`). They are not made from inside the game.
- Camera centring on a restored game and the zoom bounds are not modelled. Only the camera position moved by panning is kept.
- Menu `boundColumns`, `boundRows` and `computeBestRows` are not modelled. They are floating-point layout suggestions for the puzzle picker, and the rest of the menu is React rendering.
- `Puzzles.NewPuzzle`: requires non-zero columns and rows. The source divides the image size by both (`src/logic/puzzle/puzzle.js:20-33`); with a zero the piece size becomes an infinite or NaN float, which is not modelled.
- `GameRules.EdgeCountIsBorder`: stated for boards of at least 2 x 2. For a single row or column, `2c + 2r - 4` counts more edge pieces than exist, so such a group never freezes.

## Findings

| source | as written | input that shows it | evidently intended | confidence | as-written member | corrected member |
|---|---|---|---|---|---|---|
| src/logic/framework/bvh.js:240-241 | In the rotation that lifts the right child `b` when its child `d` is taller than `e`, the code stores `a.height = max(c, d) + 1` and `b.height = max(a, e) + 1`. Here `a` has just taken `e` and given `d` to `b`. | child heights c = 0, d = 1, e = 0: `a` is stored at height 2 although both its children are leaves | `a.height = max(c, e) + 1` and `b.height = max(a, d) + 1`, the heights of the children each node holds after the rotation | not executed | AabbTree.RightRotationHeightsAsWritten, AabbTree.RightRotationHeightsMisfit | AabbTree.Tree.Rotate |
