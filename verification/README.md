# Snapmap+ backend and installer: proved model

Snapmap+ extends a shipped game: its backend rewrites the game's navigation files and
marshals work onto the engine's main thread, its installer replaces itself and places
files beside files it does not own, and its tools print and parse the release notes. This
project models those parts in Dafny and proves what each of them has to keep.

The modules follow the program:

- **Point lookup and the splice** (`Boxes`, `Bsp`, `SearchTree`, `Carve`, `CarveBounds`, `Surface`). The node
  records of the navigation file spell a tree; a lookup walks the records and gives the tree's
  area. Carving a surface into it changes a point's area only where the surface claims it, and,
  unless a lump fills up, everywhere it claims it.
- **Rebuilding the generated subtrees** (`Cells`, `Rebuild`, `Collect`, `RebuildTree`,
  `RebuildScope`, `RebuildResults`, with the trees of `RebuildStrips` and `RebuildInstances`). A cell is the set of
  the regions (sign patterns over the planes) that it holds; clipping selects, and an empty cell is the source's NULL. The recursion is proved to end,
  never to be stuck on cells of a BSP, and to give every region the area it had.
- **Edges, leaps and the route budget** (`EdgeWalk`, `Leaps`, `Routes`, `RouteBudget`,
  `RouteGroups`, `RouteShed`, `RouteFill`, `RouteCap`, `RouteResults`, `RoutePass`, with `Sorting`).
- **Visibility rows** (`PvsCodec`, `PvsRows`, `PvsResults`, with `Division`) and **index structures**
  (`Relink`, `TravPoints`, `FloorRoutes`).
- **The file itself** (`AasPayload`, `AasLump`): parser, writer and growable lumps.
- **Hand-offs between threads** (`SyncMarshal`, `MainCall`, `Deferred`, `CommandSetup`). Each section
  under a lock is one atomic step of a class method; a system of any number of callers and one
  drain takes those steps in any order, and the invariants hold in every reachable state.
- **The installer's disk protocols** (`Disks`, `SelfReplace`, `SetAside`, `Updates`, `Migration`,
  `MigrationRun`, `DoomFolder`, `DoomClean`, `DoomInstall`, `DoomRoundTrip`,
  `DoomInstances`, with `Decimals`). `Disks.Disk` is a map from path to bytes whose operations may fail, stop half way, or succeed. It carries a predicate that
  every state it passes through must meet, so what is proved about it holds at whatever moment
  the program is interrupted.
- **Pictures and release notes** (`Bc7Tables`, `Bc7Block`, `Bc7Decode`, `Bc7Fields`, `Bc7Image`; `NotesText`,
  `NotesParse`, `NotesPrint`, `NotesPieces`, `NotesRoundTrip`, `NotesGo`, `NotesAgree`,
  `NotesMeaning`, `NotesInstances`). The BC7 decoder is compared with texels defined by the absolute bit positions of the fields in chapter 20 (BPTC) of the Khronos
  Data Format Specification 1.3, and with an encoder that writes the fields one behind the other; the printer of the notes with both of their parsers.

Methods are written as the source writes them (loops, stacks, in-place lumps, compaction) and are
proved against functions; the lemmas then say what those functions mean, the main ones without naming them: in the
fields of the records, in the numbers of the file formats and in literal constants. Numbers of the engine
(the most routes out of an area, the deepest tree, the lumps' limits) are constants or parameters.

## What the proofs found

Where a promise of the code or of its comments does not hold, the model keeps the code as it is,
shows an instance, and says exactly when the promise is kept.

- The depth check of the rebuild rolls back the node records it added but not the shipped slots it
  has already rewritten (`src/backend/aas_augment.c:1499-1518`); the comment at 1508-1509 says the
  spliced tree is restored. `RebuildResults.DepthRollbackIff` says, of the spliced records, when it is.
  `RebuildInstances.DepthRollbackLosesAreas` is a run in which the scoring of the planes gives a deeper
  tree, and after whose rollback every point has lost its area.
- The depth measured for that check stops at one more than the limit, so two trees past the limit
  compare as equal, and an accepted rebuild can be deeper (`RebuildInstances.DepthCheckIff`).
- A generated subtree below a shipped branch without volume is cut off with the old records and not
  built again; the slot to it dangles (`RebuildResults.TreeAgainIff`, `DanglingIsShared`, and the tree
  of `RebuildInstances.HiddenRecordDangles`). Lookups of points off the planes are unaffected
  (`RebuildKeepsPoints`).
- The per-area range of traversal points is stored in 16 bits, and wraps (`TravPoints.RangeRightIff`):
  65536 points of one area are counted as none (`TravPoints.CrowdIsLost`).
- The edge walk does not look for the crossing of a floor whose height changes by 1e-10 or less over the
  edge: the one piece it emits there can lie on both sides of a step limit (`EdgeWalk.SlowRiseIff`,
  `EdgeWalk.SlowLanding`), though never by more than that threshold (`EdgeWalk.SlowRiseIsNear`).
- Two executables of the same file name share the names of the installer's cache: a sweep can take the
  only image of one of them by a stale entry of the other (`SetAside.StrandedSurvivesIff`,
  `SetAside.SharedNameLoses`).
- Installing writes over a foreign file without a copy when a backup of that path is already recorded;
  `DoomInstall.PlacingConservesIff` and `DoomRoundTrip.Install` say when its bytes are lost. The record
  of an install in one folder does that to a file in another (`DoomInstances.SecondFolderLoses`), since
  its backups are carried over and its list of files is not (`installer/install.go:88-93`). With no
  earlier record the round trip is complete (`DoomRoundTrip.RoundTrip`).
- The record is dropped after the files are back. An uninstall that was interrupted in between and is
  run again removes a restored file: exactly the bytes of which no file is spared are gone
  (`DoomRoundTrip.Uninstall`, `DoomRoundTrip.RestoredSurvivesIff`, and the run of
  `DoomInstances.RerunLoses`).
- A destination file with other bytes keeps the player data's old tree for good (`MigrationRun.MirroredIff`).
  A partial copy that could not be removed again is such a file, since no copy replaces what exists
  (`MigrationRun.PartialCopyStays`).
- Validation of a drafted release note does not keep its summary from being read as something else. One
  that opens with `## ` ends the section, and one that is a section's header begins a section that nobody
  drafted (`NotesInstances.HeadingIsForged`); a group's title or the count line is taken for one
  (`NotesInstances.GroupIsTaken`), and by the installer a bullet too (`NotesInstances.BulletIsTaken`). A
  line break that only Python knows of splits a field (`NotesInstances.SeparatorSplits`).
  `NotesRoundTrip.RoundTrip` and `NotesAgree.InstallerReadsDraftIff` say exactly when a draft is read back.

## Model

| member | source | states |
|---|---|---|
| `Bsp.LookupIsArea` | src/backend/aas_augment.c:195-218 | walking the node records from a child value gives, within the step limit, exactly the area that the tree spelled by those records assigns to the point |
| `Bsp.SpellsUnique` | src/backend/aas_augment.c:195-218 | the records spell at most one tree from any child value |
| `Bsp.ReplaceSpells` | src/backend/aas_augment.c:1008-1021 | appending the records of a subtree and writing one child field spells the old tree with that subtree in the slot |
| `Bsp.ReplaceArea` | src/backend/aas_augment.c:1008-1021 | after one such replacement a point is answered by the new subtree exactly when it passes the slot, and as before otherwise |
| `Bsp.PassesArea` | src/backend/aas_augment.c:195-218 | a point that passes a slot is answered by the subtree under it |
| `SearchTree.AasTree.PointArea` | src/backend/aas_augment.c:195-218 | the loop over the records returns the area of the specified lookup, 0 after the step limit or at a missing record |
| `SearchTree.AasTree.AppendNode` | src/backend/aas_augment.c:602-614 | appends one record and leaves the others alone; 0 exactly when the lump has no room |
| `SearchTree.AasTree.InternPlane` | src/backend/aas_augment.c:584-600 | returns the index of an equal plane, appending one only when there was none; fails exactly when a plane would have to be appended to a full lump |
| `SearchTree.AasTree.TreeDepth` | src/backend/aas_augment.c:220-254 | the explicit-stack walk measures the depth of the tree the records spell, or one more than the limit when it is deeper |
| `SearchTree.DepthWalk` | src/backend/aas_augment.c:229-254 | the loop of TreeDepth: on records that spell a tree its result is that tree's measured depth |
| `SearchTree.AreaOfLongerSigns` | src/backend/aas_augment.c:584-600 | interning further planes changes no answer |
| `Boxes.BoxSideMeans` | src/backend/aas_augment.c:844-859 | a box reported in front of (behind) a plane has no point on the other side |
| `Boxes.BoxSideIff` | src/backend/aas_augment.c:844-859 | a box is reported in front of (behind) a plane exactly when all its points are more than the tolerance on that side |
| `Boxes.ClipKeeps` | src/backend/aas_augment.c:864-881 | clipping a box to one side of a plane loses no point of that side |
| `Boxes.ClipIff` | src/backend/aas_augment.c:864-881 | across an axis, a clipped box holds exactly the points of the box on that side, its edge included |
| `Carve.KeptTests` | src/backend/aas_augment.c:977-1003 | the split tests dropped for a leaf are those that hold of every point of its cell; none left out matters, and a cell no point of which passes is told |
| `Carve.BuildChain` | src/backend/aas_augment.c:1008-1015 | the chain of nodes spells the kept tests, ending in the new area and falling back to the old leaf; it fails only when the lump is full |
| `Carve.TakenAreLeaves` | src/backend/aas_augment.c:942-1022 | every slot taken is a leaf slot of the tree whose area may be taken |
| `Carve.TakeSlot` | src/backend/aas_augment.c:1008-1021 | taking one more slot keeps the tree proper and leaves the slots still to come where they were |
| `Carve.VisitNode` | src/backend/aas_augment.c:942-1023 | one node of the worklist: each side is skipped, queued or decided, and what is pending still covers what is left |
| `Carve.Search` | src/backend/aas_augment.c:898-1027 | the worklist takes exactly the specified leaf slots when it runs to its end, a dry run counts the same slots and changes nothing, and it stops early only when the node lump is full |
| `Carve.CarveIsSound` | src/backend/aas_augment.c:898-1027 | every point whose area changes gets the new area, had an area that may be taken, and lies strictly in front of all split planes |
| `Carve.CarveIsComplete` | src/backend/aas_augment.c:898-1027 | a carve that ran to its end gives the new area to every point of the search box on takeable ground in front of all split planes |
| `Carve.ClaimedGroundIsTaken` | src/backend/aas_augment.c:898-1027 | no claimed point of the search box is missed by the leaf slots taken |
| `CarveBounds.TakenIff` | src/backend/aas_augment.c:942-1022 | a slot is taken exactly when some claimed, takeable ground may lie in it and no plane on its way down has the whole search box beyond |
| `CarveBounds.BeyondStays` | src/backend/aas_augment.c:942-975 | ground that the search box lies beyond keeps its area |
| `CarveBounds.CarveAnswers` | src/backend/aas_augment.c:898-1027 | after a finished carve every point has the new area or its old one, by the claim, the old area and the box alone |
| `Carve.DryTakesWhatFreshTakes` | src/backend/aas_augment.c:977-1022 | a dry run takes the slots that a carve of an area the tree does not hold yet takes |
| `Surface.DryRunPredicts` | src/backend/aas_augment.c:898-1027 | a dry run returns the count that a real carve of the same surface with a fresh area returns, whatever planes were interned in between |
| `Surface.CarveLeaves` | src/backend/aas_augment.c:898-1027 | splicing a surface in: ground changes only to the surface's area and only where its planes claim it and its old area may be taken; ground that the search box lies beyond, by more than 0.001 at some plane on its way down the old tree, stays; and a carve that fills no lump gives the area to exactly the other claimed ground and takes exactly the slots the box is not beyond |
| `Surface.ClaimsMeans` | src/backend/aas_augment.c:909-925 | a surface claims what lies more than 9.6 above its plane, along Z, and strictly inside each of its edges |
| `Surface.SearchBoxMeans` | src/backend/aas_augment.c:927-931 | the search box spans the surface's own extent, from 9.6 below its lowest corner to its height above the highest |
| `Surface.InternSplits` | src/backend/aas_augment.c:909-925 | the split planes of a surface are in the lump afterwards, under the indices returned |
| `Cells.Geometry.Clip` | src/backend/aas_augment.c:1121-1195 | clipping a cell keeps exactly its regions on that side, and is NULL when there are none |
| `Cells.NeverStuck` | src/backend/aas_augment.c:1228-1251 | while two cells of a BSP are left some candidate plane is usable, so the exit for cells that are no BSP's cannot be taken |
| `Cells.HalfShrinks` | src/backend/aas_augment.c:1255-1279 | each half of a split is again the cells of a BSP, and fewer candidates tell its cells apart: the recursion ends |
| `Cells.BspCellsDisjoint` | src/backend/aas_augment.c:1319-1355 | two cells of one BSP share no region |
| `Rebuild.ChooseSplitter` | src/backend/aas_augment.c:1236-1251 | of the candidates that cut a cell or leave cells on both sides, the first of those worth most, by the numbers of cells that the plane bounds, cuts and leaves on either side; -1 when there is none |
| `Rebuild.SplitterIsBest` | src/backend/aas_augment.c:1236-1251 | the choice by scores is the first of those worth most, counted by the regions of the cells |
| `Rebuild.ScoreIs` | src/backend/aas_augment.c:1237-1248 | the score is 20 (15 for a plane across no single axis) for each cell the plane or its opposite bounds, less 10 for each cell it cuts and 1 for each cell that one side has more than the other |
| `Rebuild.SplitCells` | src/backend/aas_augment.c:1255-1271 | the two halves list, in order, every cell's part on that side |
| `Rebuild.Build` | src/backend/aas_augment.c:1221-1293 | builds, from fresh records, the tree of the greedy choice of planes: it answers every region of every cell with that cell's leaf, is no deeper than the number of telling candidates, and flags each record by its plane's Z component; it fails only when the lump is full |
| `Rebuild.GreedySplit` | src/backend/aas_augment.c:1221-1293 | cells with two areas give a split at the plane of the highest score, with the greedy trees of the two halves under it |
| `Collect.LeafCellsFacts` | src/backend/aas_augment.c:1319-1355 | the leaf cells cover the slot's cell, carry what lookup answers there, and are the cells of a BSP over the planes collected |
| `Collect.LeafCellsKeepArea` | src/backend/aas_augment.c:1319-1355 | whatever answers the leaf cells answers every region of the slot's cell as the old subtree did |
| `Collect.CollectLeaves` | src/backend/aas_augment.c:1319-1355 | the recursion appends exactly those cells and planes, in the order of the descent |
| `Collect.FindWork` | src/backend/aas_augment.c:1422-1476 | the walk over the shipped records lists every handover to generated records once, in the order of the walk, with its cells and candidates |
| `Collect.WalkOrderIsAll` | src/backend/aas_augment.c:1422-1476 | the order of the walk lists exactly the handovers |
| `Collect.HandoverFacts` | src/backend/aas_augment.c:1422-1476 | the handovers are slots of shipped records that hold generated ones, with the cell of points that reach them |
| `RebuildScope.HandoverIff` | src/backend/aas_augment.c:1422-1476 | a rebuild takes in hand exactly the generated subtrees under shipped records that some region of the world comes to, each with the regions that pass its slot |
| `RebuildScope.GivesUpIff` | src/backend/aas_augment.c:1444-1448 | the walk gives up exactly on a generated subtree that no region comes through, in a record that some region comes to |
| `RebuildTree.RebuildKeepsLookup` | src/backend/aas_augment.c:1382-1521 | when every handover holds a subtree that answers its cell as before, every region of the world gets the area it had, whatever else the tree holds |
| `RebuildTree.Regrow` | src/backend/aas_augment.c:1442-1503 | with no generated record hidden in a branch without volume the rewritten records spell a proper tree |
| `RebuildTree.BuildAll` | src/backend/aas_augment.c:1488-1498 | one new subtree per handover, the greedy one, appended one behind the other over the shipped records; failure only when the lump is full |
| `RebuildTree.WriteSlots` | src/backend/aas_augment.c:1499-1503 | writes each value into its slot and nothing else |
| `RebuildTree.WrittenFacts` | src/backend/aas_augment.c:1499-1503 | a slot that is no handover's keeps its child value |
| `RebuildTree.LinkingCarries` | src/backend/aas_augment.c:1382-1503 | the state after linking is one in which every handover holds the subtree built for it |
| `RebuildTree.RebuildTree` | src/backend/aas_augment.c:1382-1521 | the whole pass: declined and failed runs leave the records as they were, the depth check rolls back to the spliced records with the slots rewritten, and an accepted run is linked and no deeper than measured; what is linked are the trees of the greedy choice of planes, in the order of the walk |
| `RebuildResults.RebuildKeepsPoints` | src/backend/aas_augment.c:1382-1521 | an accepted rebuild gives every point of the world that is on no plane the area it had |
| `RebuildResults.RebuildGivesTree` | src/backend/aas_augment.c:1382-1521 | an accepted rebuild with nothing hidden leaves a proper tree that answers all lookups as before |
| `RebuildResults.TreeAgainIff` | src/backend/aas_augment.c:1442-1503 | the rewritten records spell a tree again exactly when no generated record was hidden under a shipped branch without volume |
| `RebuildInstances.DepthCheckIff` | src/backend/aas_augment.c:1505-1518 | no accepted rebuild of a spliced tree of depth d is deeper than it, over all trees, geometries and lumps, exactly when d is within the measuring limit; for every larger d an accepted rebuild that is deeper is shown |
| `RebuildResults.DepthRollbackIff` | src/backend/aas_augment.c:1499-1518 | the rollback of the depth check restores the spliced records exactly when every slot with generated records already held the number that the pass gives it, which the spliced records decide; with one such slot: when it held the first generated record and its subtree has more than one area. The comment at lines 1508-1509 says it always does |
| `RebuildInstances.DepthRollbackLosesAreas` | src/backend/aas_augment.c:1499-1518 | a run on two shipped and three generated records over five planes: the planes that the rebuild scores best give a deeper tree, the pass rolls back, and every point off the planes has lost its area |
| `RebuildInstances.HiddenRecordDangles` | src/backend/aas_augment.c:1442-1503 | a spliced tree with a generated record behind a plane that cuts off nothing: the pass accepts it, and the records it leaves spell no tree, a slot naming a record past the end |
| `RebuildResults.DanglingIsShared` | src/backend/aas_augment.c:1442-1503 | a slot left dangling by the truncation shares a record with a new subtree, so it cannot be in the same proper tree |
| `EdgeWalk.Crossing` | src/backend/aas_augment.c:2020-2024 | an affine function with different signs at the ends is zero once between them |
| `EdgeWalk.EdgeWalker.Land` | src/backend/aas_augment.c:2010-2029 | at a leaf: the pieces cut at the step limits each stay on one side of both limits and cover the stretch up to thin ones; over a slow floor the stretch is one piece |
| `EdgeWalk.EdgeWalker.Walk` | src/backend/aas_augment.c:2001-2050 | every parameter strictly inside an emitted piece resolves through the same descent to the piece's area; within the budget the pieces cover what can be stood on, but for thin ones, and records that are all there and fit the budget are walked within it |
| `EdgeWalk.EdgePieces` | src/backend/aas_augment.c:2052-2072 | every piece emitted lies within the edge, is no thinner than 1e-9, is of one area with ground as lookup has it, and does not pass one step up or down unless its floor is slow; without a missing record nothing that can be stood on is left out but thin pieces; a tree of at most 131072 places, none deeper than 128, always fits when there is room for three pieces a place, and an edge whose walk ran out of budget emits none of its pieces |
| `EdgeWalk.RiseIsOver` | src/backend/aas_augment.c:2014-2017 | the rise is the height of the edge over the plane of the floor, or over the top of the area's box |
| `EdgeWalk.OverOnce` | src/backend/aas_augment.c:2014-2017 | no other height is |
| `EdgeWalk.OneSideBetween` | src/backend/aas_augment.c:2016-2029 | between neighbouring cuts the height over the floor does not cross a step limit |
| `EdgeWalk.SlowRiseIff` | src/backend/aas_augment.c:2016-2029 | over a floor whose height changes along the edge by at most the threshold, the piece stays on one side of a limit exactly when its ends do not lie strictly on different sides of it |
| `EdgeWalk.SlowRiseIsNear` | src/backend/aas_augment.c:2016-2029 | a piece over such a floor that passes a limit is everywhere within the threshold of it |
| `EdgeWalk.SlowLanding` | src/backend/aas_augment.c:2010-2029 | a concrete edge over a slow floor whose one piece lies below one step up at one end and above it at the other |
| `EdgeWalk.Cuts` | src/backend/aas_augment.c:2016-2029 | the cuts are sorted, include both ends and every crossing searched for |
| `Leaps.KeepNearestLeaps` | src/backend/aas_augment.c:3027-3087 | the leaps that go are exactly those that a nearer remaining leap of their group makes superfluous, by landing on the same area or by a shorter candidate leap of that demon from its landing to theirs, told in the routes' own fields; the other routes stay in order |
| `Leaps.NoneIsLeftOver` | src/backend/aas_augment.c:3060-3078 | of two leaps of one start and demon that stay, the nearer neither lands where the other does nor on an area with a shorter candidate leap to it |
| `Leaps.ThinnedMeans` | src/backend/aas_augment.c:3060-3078 | the rule for what goes, in the routes' fields |
| `Leaps.ThreeAreTwo` | src/backend/aas_augment.c:3060-3078 | of three leaps between three areas the one that the other two replace goes |
| `Leaps.LeapReplaced` | src/backend/aas_augment.c:3027-3087 | every candidate leap is replaced by a path of kept leaps of the same demon to its landing area, none longer than it |
| `Leaps.ReachKept` | src/backend/aas_augment.c:3027-3087 | whatever area a demon reaches by candidate leaps it reaches by kept ones |
| `Leaps.ThinnedUnique` | src/backend/aas_augment.c:3027-3087 | only one set of verdicts satisfies the rule |
| `Leaps.Shortest` | src/backend/aas_augment.c:3015-3026 | the binary search and the scan return the shortest candidate leap between two areas for a demon, or that there is none |
| `Leaps.Judge` | src/backend/aas_augment.c:3060-3078 | the pass over the sorted groups gives each leap the rule's verdict |
| `Leaps.Compact` | src/backend/aas_augment.c:3079-3083 | compaction in place keeps the remaining routes in order |
| `Leaps.OnlyLeapsGo` | src/backend/aas_augment.c:3027-3087 | routes that are no leaps stay |
| `Routes.Look` | src/backend/aas_augment.c:3211-3224 | linear probing ends at the bucket of the key's last earlier choice, or at a free one when there is none |
| `Routes.SomeFree` | src/backend/aas_augment.c:3148 | a table with fewer entries than buckets has a free one on every probe sequence, so probing ends |
| `Routes.EnterKey` | src/backend/aas_augment.c:3211-3225 | entering a choice keeps the table's invariant: each key in one bucket, findable, holding its last choice |
| `Routes.LastEarlier` | src/backend/aas_augment.c:3213-3220 | rank and representative read from the bucket are those counted over all earlier choices of the key |
| `RouteBudget.CountShipped` | src/backend/aas_augment.c:3173-3180 | the shipped routes out of every area are counted; it refuses exactly when a route names no area or an area is past the limit |
| `RouteBudget.Protect` | src/backend/aas_augment.c:3181-3193 | exactly the walks between pieces of a cut floor are protected and counted |
| `RouteGroups.Distinguish` | src/backend/aas_augment.c:3197-3233 | every choice gets the number of earlier choices of its key and their first one; the lists hold each area's representatives |
| `RouteGroups.Collect` | src/backend/aas_augment.c:3245-3250 | a list read back, oldest first, is the area's representatives in order |
| `RouteGroups.Slots` | src/backend/aas_augment.c:3148 | the table's size is a power of two at least twice the number of choices |
| `RouteShed.ShedLongest` | src/backend/aas_augment.c:3251-3279 | exactly the excess goes, and none that stays comes before one that went in the order longest first |
| `RouteShed.LongestWent` | src/backend/aas_augment.c:3251-3279 | no route that stays is longer than one that went |
| `RouteShed.ShedByBox` | src/backend/aas_augment.c:3280-3314 | exactly the excess goes; of one box the latest go, and no box gives up a route while another that contributed more, or as many and comes first, keeps one |
| `RouteShed.TakeKeeps` | src/backend/aas_augment.c:3288-3313 | draining one box keeps the fairness between every two boxes |
| `RouteFill.ShedAll` | src/backend/aas_augment.c:3241-3315 | every over-full area sheds its excess of representatives, every other area none |
| `RouteFill.KeepFirst` | src/backend/aas_augment.c:3316-3320 | each representative that was not shed is kept |
| `RouteFill.FirstKeptCount` | src/backend/aas_augment.c:3316-3320 | out of each area the first pass keeps all representatives but the excess |
| `RouteFill.Alternate` | src/backend/aas_augment.c:3321-3329 | alternates are taken round by round, only for keys whose representative was kept and only below the ceiling |
| `RouteCap.Decide` | src/backend/aas_augment.c:3173-3329 | the phases in order: which choices are kept |
| `RoutePass.BudgetTraversals` | src/backend/aas_augment.c:3123-3344 | the whole pass in terms of its arguments: the shipped prefix stands, the kept routes follow in order, and every area is left with the smaller of all its routes and the larger of the option's budget (256 without one) and what it shipped with and had protected; refusal means that a route names no area or more than 256 shipped ones share one |
| `RouteCap.ReachLump.Compact` | src/backend/aas_augment.c:3333-3340 | the kept basic records move down in order and the lump is cut behind them |
| `RouteCap.FirstPassFits` | src/backend/aas_augment.c:3316-3320 | after the first pass every area is within its ceiling |
| `RouteResults.WithinLimit` | src/backend/aas_augment.c:3194-3329 | on success no area has more routes out than the larger of the budget and its shipped and protected ones, and never more than 256 |
| `RouteResults.ShedsExcess` | src/backend/aas_augment.c:3241-3315 | an area sheds exactly as many distinct routes as it has too many |
| `RouteResults.SurvivesIff` | src/backend/aas_augment.c:3316-3329 | a distinct route keeps a representative exactly when it was not shed, and no alternate of a shed one survives |
| `RouteResults.LeftOutOnlyWhenFull` | src/backend/aas_augment.c:3321-3329 | a usable route that is not kept went with its whole distinct route, or its area is filled to its ceiling |
| `RouteResults.TotalIsDegree` | src/backend/aas_augment.c:3316-3341 | the totals in the lump and the collected routes are the degrees the pass counted |
| `RoutePass.TotalIs` | src/backend/aas_augment.c:3194-3329 | an area is left with all its routes or is filled to its ceiling |
| `RoutePass.ProtectedIff` | src/backend/aas_augment.c:3181-3193 | a walk between pieces of cut floors is protected exactly while its area's shipped routes and earlier such walks leave room under 256 |
| `RoutePass.LosesExcess` | src/backend/aas_augment.c:3241-3315 | an area loses exactly as many distinct routes as it has too many of |
| `RoutePass.WhichIsLost` | src/backend/aas_augment.c:3251-3311 | under a payload budget a lost route is no shorter than a kept one, and between equals the later; at the engine's limit it is the later one of its box, or its box contributes more, or as many and comes first |
| `RoutePass.UsableIsFilter` | src/backend/aas_augment.c:3162-3173 | the choices are the usable routes, in order |
| `PvsCodec.DecodeEncoded` | src/backend/aas_augment.c:697-738 | reading an encoded row back, wherever it lies, gives the bits that were written |
| `PvsResults.DecodeIff` | src/backend/aas_augment.c:697-712 | a row is read from bytes exactly when they stand for it: below 0x80 seven bits, the lowest first, below 0xC0 up to 64 zeros, else a run in two bytes |
| `PvsCodec.Encode` | src/backend/aas_augment.c:725-738 | the code of a row takes at most (n + 6) / 7 bytes |
| `PvsCodec.DecodeRow` | src/backend/aas_augment.c:697-712 | the byte loop stores exactly the decoded bits |
| `PvsCodec.EncodeRow` | src/backend/aas_augment.c:725-738 | the encoder writes the row's code and never runs over its (n + 6) / 7 + 2 buffer |
| `PvsRows.ResolveParents` | src/backend/aas_augment.c:679-695 | one pass finds every new area's shipped root, or fails exactly when some chain has none |
| `PvsRows.Areas.Root` | src/backend/aas_augment.c:679-695 | the shipped area at the end of the chain of carriers |
| `PvsResults.RootIff` | src/backend/aas_augment.c:679-695 | an area's root is the shipped area that the chain from it ends at, through the floor a piece was cut from and the carriers of first platforms |
| `PvsResults.RootedIff` | src/backend/aas_augment.c:679-695 | the pass over the new areas fails exactly on one that no chain leads from |
| `PvsRows.LiftedShows` | src/backend/aas_augment.c:713-724 | old bits stay, each new area shows as its root does, the own area shows, and both ends of a generated route show each other's root |
| `PvsRows.LiftRow` | src/backend/aas_augment.c:713-724 | the loops compute that row from the decoded bits |
| `PvsRows.ExtendRow` | src/backend/aas_augment.c:696-742 | one row is decoded, lifted, encoded and appended; the other rows stand |
| `PvsRows.CopyRows` | src/backend/aas_augment.c:743-753 | every new area gets a copy of its root's row |
| `PvsResults.RebuildPvs` | src/backend/aas_augment.c:665-764 | the whole pass: each area has the row of what it stands on and shows wherever that shows; a shipped area shows to another as before, to itself, and where a route leads between what stands on them; the bytes written are bytes, and failure leaves the old table a prefix under its old offsets |
| `PvsRows.RowsDecode` | src/backend/aas_augment.c:665-764 | decoding at an area's offset gives its lifted row |
| `Relink.Reachabilities.Relink` | src/backend/aas_augment.c:3656-3689 | each area's from and to lists hold exactly its records, once each, latest first, ending in -1, and no other field changes |
| `Relink.ListsAreFilters` | src/backend/aas_augment.c:3656-3689 | following an area's list visits the records a filter by owner selects, in descending order |
| `Relink.PushOntoList` | src/backend/aas_augment.c:3674-3687 | pushing one record on its list puts it in front and leaves the other lists alone |
| `TravPoints.GroupFacts` | src/backend/aas_augment.c:3471-3497 | grouping sorts by owner, keeps every record, and keeps each owner's records in their order |
| `TravPoints.PointLump.Regroup` | src/backend/aas_augment.c:3471-3497 | the insertion sort in place computes that grouping behind the dummy record |
| `TravPoints.PointLump.Ranges` | src/backend/aas_augment.c:3499-3524 | each area's two 16-bit fields are the first index and the count of its records, modulo 65536; an empty lump gives none |
| `TravPoints.RangeRightIff` | src/backend/aas_augment.c:3499-3524 | an area's range is right exactly when it has fewer than 65536 records and, having any, the first is below 65536 |
| `TravPoints.CrowdIsLost` | src/backend/aas_augment.c:3499-3524 | 65536 points of one area are counted as none |
| `TravPoints.OwnedIsRun` | src/backend/aas_augment.c:3471-3497 | the records of one owner are one run of the grouped list |
| `TravPoints.RegroupKeepsNames` | src/backend/aas_augment.c:3471-3497 | regrouping moves points and leaves alone what they name, existing records with the points' own areas |
| `TravPoints.PrefixKeepsNames` | src/backend/aas_augment.c:3330-3341 | appending records leaves every point naming an existing record with its own two areas |
| `FloorRoutes.Lumps.CutRoutes` | src/backend/aas_augment.c:3902-3944 | the records of the cut floors, which are the chosen ones that no point names, move to their pieces, the lost ones go unless a point names them, and if every point named an existing record with its own two areas, every point still does |
| `FloorRoutes.Lumps.Compact` | src/backend/aas_augment.c:3927-3935 | the records that stay close up in order, and the remap table gives each its new number |
| `FloorRoutes.Lumps.MoveAll` | src/backend/aas_augment.c:3904-3921 | every record's ends are on the pieces, and those with a lost end are marked |
| `FloorRoutes.Lumps.EmitOne` | src/backend/aas_augment.c:3442-3469 | one route and its point are appended so that the point names the route, and the points before it name what they did; it is refused only at a full lump, and none grows past its room |
| `FloorRoutes.CutKeepsNames` | src/backend/aas_augment.c:3902-3944 | cutting and renumbering keeps every point naming an existing record with its own two areas |
| `FloorRoutes.MovedMeans` | src/backend/aas_augment.c:3908-3921 | where the cut puts the two ends of a record, and when one is lost |
| `FloorRoutes.StayingCount` | src/backend/aas_augment.c:3927-3936 | as many records stay as are not dropped |
| `FloorRoutes.Blocked` | src/backend/aas_augment.c:3798-3819 | an area that a point names stays whole |
| `FloorRoutes.Lumps.Augment` | src/backend/aas_augment.c:3902-3944 | from the shipped points to the last ones, through the cut, the appended walks, the budget's compaction, the emission and the grouping: if every point named an existing record with its own two areas, every point does at the end; each route emitted is there with a point that names it, and the points are grouped by area |
| `AasPayload.WriteParseRoundTrip` | src/backend/aas_edit.c:185-326 | writing the model of an accepted payload gives the payload back byte for byte |
| `AasPayload.ParseWriteRoundTrip` | src/backend/aas_edit.c:185-326 | parsing a written model gives the model back, for every model whose counts agree and fit |
| `AasPayload.AcceptedIff` | src/backend/aas_edit.c:185-286 | a payload is accepted exactly when it is what such a model is written as |
| `AasPayload.AcceptableIff` | src/backend/aas_edit.c:199-262 | what a model has to be like, in lengths: whole records, at most 65534 areas and 65535 clusters, and as many bounds as areas |
| `AasPayload.WrittenIs` | src/backend/aas_edit.c:298-326 | the file byte by byte: header, settings, and for each lump its count, highest byte first, and its records behind the lumps before it |
| `AasPayload.RefusedFor` | src/backend/aas_edit.c:197-216 | what is complained of first: the size, then the magic, then the version |
| `AasPayload.ParsePayload` | src/backend/aas_edit.c:185-286 | the loop over the lumps computes the parser's result, error cases included |
| `AasPayload.WritePayload` | src/backend/aas_edit.c:298-326 | the loop over the lumps computes the written bytes, or nothing when they exceed the cap |
| `AasPayload.PutOfGet` | src/backend/aas_edit.c:106-146 | writing a word that was read gives the same four bytes |
| `AasLump.Lump.Reserve` | src/backend/aas_edit.c:357-377 | capacity doubles from 16 until it holds what is asked for, never past the limit, and what is in use stays; without memory nothing changes |
| `AasLump.Lump.Append` | src/backend/aas_edit.c:386-402 | existing records stay, the new ones are zero and the capacity grows as needed; it fails, and changes nothing, exactly past the limit or without memory |
| `AasLump.Lump.Truncate` | src/backend/aas_edit.c:379-384 | the first records stay, and no memory is given back |
| `AasLump.EditsKeep` | src/backend/aas_edit.c:357-402 | through any run of appends and truncations, some of them refused for the limit or for want of memory, the records never cut off keep their bytes and every other byte in use is zero |
| `AasLump.RefusedLeaveNoTrace` | src/backend/aas_edit.c:357-402 | after any such run a lump is as if the refused calls had never been made, has as many records as the others ask for, and its capacity never shrinks |
| `SyncMarshal.RequestSlot.Publish` | src/backend/apply_engine.c:1702-1716 | a batch is published exactly when the slot is empty, and a busy slot is left as it is |
| `SyncMarshal.RequestSlot.Look` | src/backend/apply_engine.c:1725-1744 | after the wait a finished request is collected, a pending one withdrawn with its batch, a running one left |
| `SyncMarshal.RequestSlot.LastLook` | src/backend/apply_engine.c:1747-1758 | after the grace period a finished request is collected, any other abandoned |
| `SyncMarshal.RequestSlot.Take` | src/backend/apply_engine.c:1609-1618 | the drain takes a published batch and empties the slot of it |
| `SyncMarshal.RequestSlot.Finish` | src/backend/apply_engine.c:1626-1635 | a running request becomes a finished one with this count, an abandoned slot is emptied, and the batch field is left alone |
| `SyncMarshal.FinishDelivers` | src/backend/apply_engine.c:1626-1758 | what the drain's last step is for, in every interleaving: a caller still waiting gets the count of its own batch by whichever look comes next, and when it has given up the slot takes the next batch |
| `SyncMarshal.PublishedGoesOn` | src/backend/apply_engine.c:1602-1758 | what a published batch can still come to: taken back unrun and freed, or run, and then reported, or given up on, by when its caller looks |
| `SyncMarshal.BusyDeclines` | src/backend/apply_engine.c:1697-1708 | a call that finds the slot in use frees its own batch and changes nothing else |
| `SyncMarshal.StepInv` | src/backend/apply_engine.c:1602-1759 | every step of any caller or of the drain keeps the invariant |
| `SyncMarshal.Invariant` | src/backend/apply_engine.c:1602-1759 | the invariant holds in every state of every interleaving |
| `SyncMarshal.OutcomeMeans` | src/backend/apply_engine.c:1689-1759 | whatever happens afterwards: NOT_RUN and UNAVAILABLE mean that the batch never ran and never will, DONE gives the count of that same batch's one run, and the batch is freed once |
| `SyncMarshal.AtMostOnce` | src/backend/apply_engine.c:1602-1759 | no batch runs twice or is freed twice |
| `SyncMarshal.WithdrawsOwn` | src/backend/apply_engine.c:1732-1740 | a withdrawing caller frees its own batch |
| `SyncMarshal.AbandonedIsReleased` | src/backend/apply_engine.c:1626-1635 | an abandoned slot is held by the drain alone, and the drain's last step empties it for the next caller |
| `MainCall.CallSlot.Leave` | src/backend/apply_engine.c:582-592 | a published call is withdrawn, a finished one collected |
| `MainCall.StepInv` | src/backend/apply_engine.c:538-593 | every step of a caller or of the main thread, a call made on the main thread while another runs included, keeps the invariant |
| `MainCall.ReturnMeans` | src/backend/apply_engine.c:557-593 | a call that returned 0 never ran and never will; one that returned 1 ran once, and its result is that run's |
| `MainCall.PublishedGoesOn` | src/backend/apply_engine.c:538-593 | what a published call can still come to: withdrawn, or run and its result collected, and the slot is empty again |
| `MainCall.OthersEnd` | src/backend/apply_engine.c:557-571 | a call that finds the slot in use is declined, and one made on the main thread runs at once |
| `MainCall.CtxOutlivesUse` | src/backend/apply_engine.c:544-593 | whenever the main thread uses a ctx, the caller that lent it has not returned |
| `MainCall.SlotIsFreed` | src/backend/apply_engine.c:572-593 | with no caller waiting the slot is empty |
| `Deferred.PendingSlot.Store` | src/backend/apply_engine.c:3045-3056 | a batch is stored exactly when none waits, under a new serial number |
| `Deferred.PendingSlot.Withdraw` | src/backend/apply_engine.c:3062-3067 | the slot is emptied exactly when it holds the given address with the given serial number |
| `Deferred.PendingSlot.Take` | src/backend/apply_engine.c:1645-1649 | the drain takes whatever waits |
| `Deferred.StepInv` | src/backend/apply_engine.c:1638-1665 | every step of any scheduler or of the drain keeps the invariant |
| `Deferred.OutcomeMeans` | src/backend/apply_engine.c:3016-3071 | an accepted batch waits, is being run or has run once, and is never discarded; a refused one never runs |
| `Deferred.StoredGoesOn` | src/backend/apply_engine.c:1638-1664 | a stored batch runs once when the drain comes round; with a batch waiting the next one is refused and freed |
| `Deferred.WithdrawDoes` | src/backend/apply_engine.c:3058-3071 | a batch that could not be enqueued is taken back and freed, unless the drain has had it already |
| `Deferred.WithdrawsOwnIff` | src/backend/apply_engine.c:3051-3071 | address and serial number match the slot exactly when the slot still holds the scheduler's own batch, even when addresses are used again |
| `Deferred.NothingLeaks` | src/backend/apply_engine.c:3016-3071 | a block in use is a copy not stored yet, the waiting batch or the one the drain has |
| `Deferred.AddressAloneMisleads` | src/backend/apply_engine.c:3051-3071 | a run in which the address alone would withdraw another scheduler's batch |
| `CommandSetup.StepInv` | src/backend/apply_engine.c:1669-1687 | every step of concurrent first callers keeps the invariant |
| `CommandSetup.ReadyMeans` | src/backend/apply_engine.c:1669-1687 | a caller told yes may rely on it for ever: AddCommand has returned, once |
| `CommandSetup.AskMeans` | src/backend/apply_engine.c:1669-1687 | yes once the command is registered, no while another caller registers it, and otherwise what comes of trying |
| `CommandSetup.OneAtATime` | src/backend/apply_engine.c:1669-1687 | AddCommand never runs for two callers at once nor again after success |
| `AasLump.GrownCap` | src/backend/aas_edit.c:357-372 | the capacity grows to no more than the limit and to at least what was asked for |
| `AasLump.GrownIs` | src/backend/aas_edit.c:357-372 | a capacity that is too small is doubled, from 16 at least, until it is enough and no further, and the limit cuts it |
| `Disks.Disk.Copy` | installer/install.go:438-454 | a copy may stop half way, and even one that reports success vouches for no bytes |
| `SelfReplace.Stage` | installer/selfupdate.go:138-152 | a staged copy is accepted only when it has the new executable's bytes; every state on the way differs from the first at the temporary name alone |
| `SelfReplace.TryName` | installer/selfupdate.go:156-175 | one free name takes the old image and the new one goes in, or the old one comes back; it takes a failure to leave the old image behind or to bring it back, and two to strand it |
| `SelfReplace.Replace` | installer/selfupdate.go:137-177 | in every state an interruption can leave, no other file has changed and the path holds the old or all the new bytes, or the old ones are at an aside name that was free; nil means the new bytes are at the path; without faults it succeeds |
| `SelfReplace.SwappingIsRecoverable` | installer/selfupdate.go:156-175 | each state the renames pass through is one in which the path or a free aside name still holds an image whole |
| `SelfReplace.SwappedLeaves` | installer/selfupdate.go:156-175 | what each way out of the loop leaves, seen from before staging |
| `Updates.Installer.Update` | installer/selfupdate.go:137-177 | whatever faults come between: in every state each watched executable is there or has a whole image at one of its names, provided that an executable is only watched while no other one's entry claims its bytes at its names; what is recorded is what was set aside, an image that cannot be removed is recorded with its bytes unless something else fails too, and one is stranded only when two operations fail |
| `Updates.Installer.RecordSetAside` | installer/state.go:223-240 | an entry replaces an earlier one for the same name, or the save fails and nothing changes |
| `Updates.Installer.Sweep` | installer/state.go:245-270 | every file taken has an entry with its bytes and an executable that is there, without faults exactly those go, and exactly the entries whose executable is missing are kept |
| `Updates.Installer.RetireLeftovers` | installer/state.go:404-444 | the images beside an executable go only while it is there; without faults all of them go and nothing else |
| `Updates.Installer.MoveAside` | installer/state.go:462-491 | an image in use moves to a free name of the cache or stays; without further faults it is the first free name, and it is recorded there with its bytes |
| `SetAside.SweptIff` | installer/state.go:255-266 | a sweep takes a file exactly when an entry has its bytes and names an executable that is there |
| `SetAside.StrandedSurvivesIff` | installer/state.go:255-266 | an image stranded by a failed rollback survives the next sweep exactly when no entry for another executable that is there claims the same bytes under the same name |
| `SetAside.SharedNameLoses` | installer/state.go:255-266 | two executables of one file name and the same bytes share the cache's names: after an update of one, the loss of its recorded image and a stranded update of the other, the sweep takes the only image left |
| `SetAside.ReplacingKeeps` | installer/selfupdate.go:137-177 | no state a replacement passes through leaves an executable without a whole image at its path or at one of its names |
| `SetAside.ReplacedGuards` | installer/selfupdate.go:137-177 | a replacement keeps the invariant unless it strands an image under a claimed name |
| `SetAside.OneExecutable` | installer/state.go:223-240 | with a single executable no entry of another one can claim a stranded image |
| `Updates.RemovingGuards` | installer/state.go:255-266 | removing a leftover whose executable is there, or that no other one relies on, keeps the invariant |
| `Updates.RecordingGuards` | installer/state.go:223-240 | recording an image under the name it was moved to keeps the invariant |
| `Migration.Trees.RemoveSource` | installer/userdata.go:286-289 | a source file is removed only when the destination has the same bytes; what the old tree ever held is still in one of the trees |
| `Migration.OutsideIff` | installer/userdata.go:23-52 | left where it is: what lies in one of six folders of the root, whatever the case of the folder's name |
| `Migration.Trees.CopyMissingFile` | installer/userdata.go:228-260 | an existing destination is left alone, a failed copy is taken away if it can be, and a copy without faults has the source's bytes |
| `Migration.Trees.RemoveFolder` | installer/userdata.go:294-298 | a folder goes only when no file and no folder is directly in it |
| `Migration.Trees.Arrive` | installer/userdata.go:262-263 | a file that another process adds is owed from then on like the others |
| `MigrationRun.CopyTreeMissing` | installer/userdata.go:162-196 | the pass only adds copies of migratable files that had none; without faults it adds exactly those |
| `MigrationRun.FullyMirrored` | installer/userdata.go:134-158 | true only when every migratable file has an identical copy; without faults exactly then |
| `MigrationRun.RemoveFiles` | installer/userdata.go:267-293 | only files with identical copies go, each checked again |
| `MigrationRun.RemoveFolders` | installer/userdata.go:294-298 | the folders go last first, so each is empty when its turn comes; only a root with something to keep may stay |
| `MigrationRun.RemoveMirroredTree` | installer/userdata.go:264-300 | on success only what is outside the migration is left of the old tree; without faults a mirrored tree is always retired |
| `MigrationRun.LastIsEmpty` | installer/userdata.go:294-298 | when only listed folders are left the last one is empty, or is the root and holds something outside the migration |
| `MigrationRun.MirroredIff` | installer/userdata.go:134-196 | copying what is missing mirrors the tree exactly when no destination had a different file of the same name |
| `MigrationRun.PartialCopyStays` | installer/userdata.go:134-196 | a half-written copy at the destination: copying what is missing changes nothing, and the tree is not mirrored |
| `MigrationRun.MigrateUserData` | installer/userdata.go:91-111 | with any faults and with files added between the passes: every file of the old tree is there or identically at the destination, no destination file changes, what is outside the migration stays; without faults the tree is retired exactly when nothing conflicts |
| `MigrationRun.RetireMetadata` | installer/userdata.go:113-129 | a named metadata file is removed only with an identical copy at the destination, and its folder only when empty |
| `DoomFolder.MoveFile` | installer/doomclean.go:337-354 | a move keeps the bytes whole at one of the two places in every state |
| `DoomFolder.KeepBackup` | installer/doomclean.go:311-334 | a kept file is at one of its fifty names in the store, one that was free, the first such without faults, or stays where it was |
| `DoomFolder.StoreNameIs` | installer/doomclean.go:311-327 | the first name in the store is the file's own path, the others end in a point and a number |
| `DoomClean.IsOurs` | installer/doomclean.go:93-103 | reports ours only by the record or by the bytes; only a fault hides it |
| `DoomFolder.OursIff` | installer/doomclean.go:38-97 | ours is what the record lists, what has the bundle's bytes, and what spells the product's name, in one byte or two to a letter |
| `DoomFolder.OldBackupIff` | installer/doomclean.go:35-36 | the names of old backups: a file's own with one of the two endings, in the two folders |
| `DoomClean.RemoveOurs` | installer/doomclean.go:163-179 | every file of ours among the candidates outside the pair goes, others stay and are listed, and the record loses exactly what went |
| `DoomClean.TidyBackup` | installer/doomclean.go:208-232 | an old backup of ours goes; any other moves to the store and its path is recorded, or stays when no name is free |
| `DoomClean.ForgetGone` | installer/doomclean.go:235-242 | the record keeps exactly the backups that are there |
| `DoomClean.CleanDoomFolder` | installer/doomclean.go:140-271 | no file that is not ours is destroyed, in any state; only files of ours in the scanned places outside the pair may go, and without faults none is left at the four paths any release used, in the folder of its own or in the record, by the record, the bundle's bytes or the product's name; whatever arrives in the store was such an old backup, and the record matches |
| `DoomClean.CleanAtEnd` | installer/doomclean.go:140-271 | what the three passes leave together has no file of ours in any scanned place outside the pair |
| `DoomInstall.PlacingConservesIff` | installer/install.go:104-128 | placing the pair without faults destroys no file that is not ours exactly when every such file whose path has a recorded backup has a copy in the store or gets one with another file of the pair |
| `DoomInstall.PlaceFile` | installer/install.go:108-128 | the file in the way, unless it is ours or its path has a backup already, is in the store and recorded before the new one is written; nothing else in the folder changes |
| `DoomInstall.PlaceFiles` | installer/install.go:108-136 | without faults every file of the pair is in place, each file it replaced is filed whole unless its path had a backup already, and all else is as it was |
| `DoomInstall.RestoreBackups` | installer/install.go:366-378 | no bytes are lost, and without faults every backup is back at its path and no bytes are new |
| `DoomInstall.RestoredStep` | installer/install.go:366-378 | restoring one more backup leaves the ones before it in place |
| `DoomRoundTrip.Install` | installer/install.go:88-139 | cleaning and placing together lose no file that is not ours, at any moment, but where a path written to has a backup recorded or named by an old backup; without faults none is lost exactly when every such file has another copy, which record and disk decide beforehand in a folder without old backups and with all recorded ones in the store |
| `DoomRoundTrip.Uninstall` | installer/install.go:362-378 | every file that is not ours by the record or the marker is still somewhere, at any moment; without faults the bytes left are exactly those of which some file is neither listed nor marked where the uninstall looks |
| `DoomRoundTrip.RoundTripStrips` | installer/install.go:88-378 | what an uninstall leaves is the folder as it was, without the files of ours in the scanned places |
| `DoomRoundTrip.RoundTrip` | installer/install.go:88-378 | installing where nothing was recorded and no old backups lay, then uninstalling, without faults: every file that is not ours is at its path with its bytes |
| `DoomRoundTrip.OthersStay` | installer/doomclean.go:163-271 | the uninstall's cleaning takes nothing but the placed pair |
| `DoomInstances.RerunLoses` | installer/install.go:364-390 | an install, and an uninstall stopped before it drops the record: the folder is as it was at the start, and of its one file nothing is left after the uninstall is run again |
| `DoomRoundTrip.RestoredSurvivesIff` | installer/install.go:364-390 | a restored file whose path is still recorded outlasts an uninstall that is run again exactly when another file with its bytes is spared |
| `DoomInstances.SecondFolderLoses` | installer/install.go:88-128 | the record of an install in one folder, carried over to another: the backup recorded for the proxy's path lets the other folder's file there be overwritten, and its bytes are nowhere |
| `Bc7Tables.Two` | src/backend/bcn.c:134-208 | in every two-subset partition the anchors lie in their own subsets |
| `Bc7Tables.Three` | src/backend/bcn.c:169-218 | in every three-subset partition the anchors lie in their own subsets |
| `Bc7Block.AnchorIff` | src/backend/bcn.c:306-317 | a pixel is stored with one bit less exactly when it is pixel 0 or one of its partition's anchors |
| `Bc7Block.AllAnchors` | src/backend/bcn.c:306-317 | each subset has one anchor |
| `Bc7Block.EveryBitCounts` | src/backend/bcn.c:224-229 | in every mode the fields add up to 128 bits |
| `Bc7Block.BlendStaysBetween` | src/backend/bcn.c:253 | a blend lies between its endpoints and reaches both, so clamping changes nothing |
| `Bc7Block.WeightsMirror` | src/backend/bcn.c:220-222 | the weights rise, and run the same from either end |
| `Bc7Block.UnquantisedFits` | src/backend/bcn.c:245-251 | widening gives eight bits and keeps zero and the full value |
| `Bc7Fields.WideRepeats` | src/backend/bcn.c:245-251 | a widened value has the stored value for its high bits and repeats its own high bits below them |
| `Bc7Fields.WeightIsNearest` | src/backend/bcn.c:220-222 | a weight is the 64th nearest to the index's share of the way |
| `Bc7Fields.BlendIsNearest` | src/backend/bcn.c:253 | a blend is the number nearest to the weighted mean |
| `Bc7Fields.LayoutIs` | src/backend/bcn.c:224-229 | the bit at which the sections of each mode begin |
| `Bc7Decode.Cursor.Get` | src/backend/bcn.c:231-243 | the cursor returns the bits from its position, lowest first, and moves on by as many |
| `Bc7Decode.ReadEndpoints` | src/backend/bcn.c:282-286 | the cursor meets every channel of every endpoint at its place in the layout |
| `Bc7Decode.ReadIndices` | src/backend/bcn.c:306-318 | the cursor meets every index at its place, and the block ends after 128 bits |
| `Bc7Decode.Expand` | src/backend/bcn.c:292-304 | each channel is widened with its parity bit lowest |
| `Bc7Decode.DecodeBlock` | src/backend/bcn.c:266-343 | the sixteen texels its layout defines, from exactly 128 bits if the block has a mode |
| `Bc7Decode.TexelIsLocal` | src/backend/bcn.c:262-343 | a block's texels depend on its 128 bits alone |
| `Bc7Fields.BlockOf` | src/backend/bcn.c:224-318 | any fields that fit their widths can be written one behind the other, in sixteen bytes that hold them |
| `Bc7Fields.EveryBlock` | src/backend/bcn.c:266-318 | every block with a mode is some fields written out |
| `Bc7Fields.SameFields` | src/backend/bcn.c:266-318 | blocks that hold the same fields have the same bits |
| `Bc7Fields.ShowsFields` | src/backend/bcn.c:292-339 | each channel shown is the blend of the written endpoints of the pixel's subset by the written index of its set, alpha and the rotation's colour exchanged |
| `Bc7Fields.EndsShow` | src/backend/bcn.c:320-339 | the lowest index shows the first endpoint, the highest the second |
| `Bc7Fields.RotationExchanges` | src/backend/bcn.c:336-339 | two blocks that differ in nothing but the rotation show alpha and that channel exchanged |
| `Bc7Decode.ClampIsIdle` | src/backend/bcn.c:333-334 | the clamp never changes a blended channel |
| `Bc7Image.Placed` | src/backend/bcn.c:341-342 | the four bytes of pixel k of a block are at one offset of the padded image, and no other pixel's are there |
| `Bc7Image.TurnInTime` | src/backend/bcn.c:260-345 | every byte of the buffer belongs to a pixel that is decoded |
| `Bc7Image.RestShowsBlock` | src/backend/bcn.c:262-264 | beyond the end of the source a block reads as zeros |
| `Bc7Image.DecodeBc7` | src/backend/bcn.c:255-347 | each byte of the padded buffer is written exactly once, with the channel of the texel of the block covering its pixel; sizes that cannot be represented change nothing |
| `Bc7Image.Dimensions` | src/backend/bcn.c:62-73 | the padded size is a multiple of four that holds the image |
| `Bc7Image.SizeIff` | src/backend/bcn.c:62-73 | a picture is decoded exactly when both sides can be padded to multiples of four and its bytes counted in 64 bits |
| `Bc7Image.ByteIs` | src/backend/bcn.c:320-343 | row by row, four bytes a pixel, red first: a pixel comes from its place in the block it lies in |
| `NotesPieces.SplitAll` | tools/changelog.py:31-37 | lines written out one after the other are split into their pieces, whatever follows; a line without breaks is one piece |
| `NotesText.TightText` | tools/draft_changelog.py:243 | cutting off trailing white space drops blank lines at the end and trims the last other one |
| `NotesParse.ParseBody` | tools/changelog.py:40-73 | the loop over a section's lines computes its fields |
| `NotesMeaning.WrappedReads` | tools/changelog.py:54-61 | a bullet that is broken at a blank and goes on in an indented line reads like the unbroken one |
| `NotesMeaning.PlainLine` | tools/changelog.py:46-72 | text at the margin that opens no markup belongs to the summary, and is dropped once a group is open |
| `NotesMeaning.BoldLine` | tools/changelog.py:62-65 | the first line in bold is the headline, another one is text |
| `NotesMeaning.TitleLine` | tools/changelog.py:50-53 | the three titles open groups, any other one is text |
| `NotesMeaning.SpacesAre` | tools/changelog.py:31-71 | white space and line ends, character by character, as Python and Go have them |
| `NotesMeaning.StripIs` | tools/changelog.py:46-71 | stripping takes white space off both ends and nothing else |
| `NotesParse.ParseText` | tools/changelog.py:76-91 | the loop over the headings computes the sections with well-formed headers |
| `NotesMeaning.TagIff` | tools/changelog.py:11 | a tag is v, three numbers with points between, and for a beta a hyphen and a label |
| `NotesMeaning.HeaderMeans` | tools/changelog.py:14-17 | nothing else is read as a header than a tag, a dash, a date and a channel in brackets, with blanks between |
| `NotesParse.Find` | tools/changelog.py:94-99 | the first section with exactly the given tag |
| `NotesPrint.RenderEntry` | tools/draft_changelog.py:225-243 | the printed text is the header, headline, summary, groups and count, white space cut off at the end |
| `NotesMeaning.CountSays` | tools/draft_changelog.py:236-241 | the line for what the groups leave out: one change, or how many |
| `NotesPrint.ReadBullets` | tools/changelog.py:54-57 | printed bullets are read back into the open group, in order |
| `NotesPrint.ReadPrintedIff` | tools/changelog.py:40-73 | the printed lines are read back as the draft's fields exactly when the summary passes neither for a group's title nor for the count |
| `NotesRoundTrip.HeaderReads` | tools/changelog.py:11-17 | a printed header is read back as its tag, date and channel |
| `NotesRoundTrip.FirstSection` | tools/changelog.py:31-37 | a section without headings in it ends where the next one begins, and the others are unaffected |
| `NotesRoundTrip.RoundTrip` | tools/changelog.py:76-91 | for every validated draft: the printed entry, ahead of any sections, is read back as that entry first, with its header, and its fields come back exactly when none has a line break inside it and the summary's line passes neither for a heading nor for a group's title nor for the count; unless it passes for a heading the other sections are unchanged |
| `NotesPieces.PieceIs` | tools/changelog.py:31-37 | a text whose only breaks are in the white space at its ends is split into blank lines and one line with all of the text |
| `NotesPieces.BrokenIsNotShown` | tools/changelog.py:40-73 | a draft with a line break inside a field is never read back, whatever the lines |
| `NotesInstances.HeadingIsForged` | tools/draft_changelog.py:179-243 | a validated draft whose summary is a section's header: the change log then holds a section with that header, which nobody drafted, behind an entry that is not read back |
| `NotesInstances.GroupIsTaken` | tools/changelog.py:46-53 | a validated draft whose summary is a group's title: it is taken for one |
| `NotesInstances.SeparatorSplits` | tools/draft_changelog.py:150-156 | a validated draft with a line separator in its summary: it is not read back |
| `NotesRoundTrip.ValidatedIsSane` | tools/draft_changelog.py:179-222 | a validated draft meets all that the round trip asks of its texts |
| `NotesMeaning.ValidatedIff` | tools/draft_changelog.py:179-214 | what validation asks of a draft, field by field |
| `NotesGo.ReadEntry` | installer/changelog_render.go:51-108 | the loop over the lines computes the entry |
| `NotesMeaning.GoContinued` | installer/changelog_render.go:85-89 | an indented line goes on with the last bullet of the last group |
| `NotesMeaning.GoBulletGoes` | installer/changelog_render.go:70-76 | a bullet belongs to the last group, or to none before the first |
| `NotesMeaning.GoPlainLine` | installer/changelog_render.go:91-92 | text at the margin is the summary's until the first bullet or group |
| `NotesMeaning.CodeIsShown` | installer/changelog_render.go:110-121 | code loses its backticks, and nothing inside it is touched |
| `NotesMeaning.BoldIsShown` | installer/changelog_render.go:110-121 | bold text loses its asterisks |
| `NotesGo.NothingToRemove` | installer/changelog_render.go:110-121 | text without markers is shown as it is |
| `NotesAgree.GoReadPrintedIff` | installer/changelog_render.go:56-94 | the installer reads every field of the printed lines, trimmed, exactly when the summary does not open as a group, a bullet or the count |
| `NotesInstances.BulletIsTaken` | installer/changelog_render.go:67-74 | a validated draft whose summary opens with a dash: the change log keeps it, the installer takes it for a bullet |
| `NotesAgree.GoReadsPublished` | installer/changelog_render.go:56-94 | the installer reads the published text like the draft's lines, whatever pieces and empty lines are around its fields |
| `NotesAgree.InstallerReadsDraftIff` | installer/changelog_render.go:51-108 | when no field has a line break inside it, the installer reads from the first section's published text what was drafted exactly when the summary's line is no heading and does not open as a group, a bullet or the count |
| `NotesAgree.EntryOf` | installer/changelog_render.go:96-107 | what is shown is what was read, without inline markers |

## Left out

- Floating-point rounding, and the tolerances that stand against it in `rb_corner`, `rb_clip_cell` and `rb_side`: geometry is over `real`, and a cell is its set of regions instead of its corners.
- Surface.CarveLeaves: the exact answer after a finished carve is for a search box whose lower corner is not above its upper one. It takes a tree that stays within a lookup's step limit with the chains added; past it a lookup answers 0 whatever the records say.
- Leaps.KeepNearestLeaps: a leap's reach is a length, and so is not negative.
- RoutePass.WhichIsLost: a route's span is a length, and so is not negative.
- The splice and the rebuild take node records that spell a tree: records that share a child or run in a circle are not covered.
- RebuildResults.RebuildKeepsPoints: speaks of points off every plane and inside the world cell of ±65536; on a plane, and outside, the rebuild chooses freely.
- Failing allocations of the geometry passes: modelled where they decide an outcome (a full lump, the leap pruning without memory, the lump's growth), not for every scratch buffer.
- `qsort` is modelled as an insertion sort by the same order; the sorted results are what is used.
- Routes.EnterKey: holds for any hash function; the multiplication and masking of the FNV hash are not computed.
- The interning and sorting of animation names in `aug_emit_traversals`, `aug_close_segment`'s fields, and the counters of the report.
- `sh_nav_geometry_*`, `sh_trav_select`, `sh_navmesh_validate_aas` and `sh_nav_bake_*` are not part of this model; what they return is arbitrary input.
- The race of command-buffer appends in the engine, the text of commands, toasts and logs, and a drain that is entered again from within an item.
- Deferred.OutcomeMeans: the serial number is unbounded; the source's has 64 bits.
- SHA-256 is taken to tell contents apart: equal sums stand for equal bytes.
- Links, irregular files, case folding and the spelling of paths: a path is a value, two spellings are two paths.
- Loading and saving install.json is one step that succeeds or fails; its text is not modelled.
- Other programs that change files in the middle of one pass: files may arrive between the passes of the migration, and nowhere else.
- Migration.Trees.CopyMissingFile: a copy is a file of the right bytes, a partial one or none; permissions and times are not kept track of.
- DoomClean.CleanDoomFolder: empty folders, the removal of older products and the listing of foreign files are left out, as is the size limit of the marker search.
- DoomRoundTrip.Uninstall: the log and crash folders, which it removes with all that is in them, and the installer's own entries in the data folder are not part of the model.
- DoomInstall.PlacingConservesIff: a run that fails half way is only covered by what holds at any moment.
- The walk of a folder lists parents before children in an arbitrary order; its order by name is not used.
- BC1 and BC3, whose blocks are short and whose proofs would repeat those of BC7.
- Bc7Decode.DecodeBlock: the union of disjoint bit fields is written as a sum.
- NotesAgree.InstallerReadsDraftIff: takes fields without a line break inside them, and without the four information separators, which Python counts as white space and Go does not.
- NotesRoundTrip.RoundTrip: what follows the printed entry holds nothing but empty lines ahead of its first section.
- RouteShed.ShedByBox: the table of carriers is a function of the area; an index past its end is not modelled.
- TravPoints.PointLump.Ranges: area numbers are unbounded, where a record has 16 or 32 bits for them.
- NotesPrint.RenderEntry: dates and digits are ASCII; white space beyond the ASCII set of the parsers' patterns is not modelled.
- The budgets for items and summaries, `render_skeleton`, the checks of `lint`, and the drafting call: easy members, or the network.
- The layout of the installer's screens, its networking, and the discovery of the game's folder.
- Boot pacing, the clipboard, hooks, raw engine offsets and the companion: patching and operating-system plumbing.
