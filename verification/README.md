# A verified model of the game server's core algorithms

The server is a C++ program. This project models fifteen of its algorithms in Dafny, as classes, methods and
loops where the source updates state, and proves what they promise. Each module is one part of the server:

- `Bits`, `NodeGrammar`, `FileLoaders`: the binary node files for maps and items. A printer, a parser that reads
  children by recursion and siblings by a loop, properties unescaped in place, and a three-slot block cache that
  stands in for direct file access.
- `WalkCache`: the window of walkable tiles each creature keeps around itself and shifts as it walks.
- `CombatArea`: spell areas, turned, mirrored and flipped about their centre.
- `Containers`, `Stacks`, `Iteration`, `Money`: items inside containers inside containers, with a cached weight at
  every level; stacks that split and merge on their way; the breadth-first iterator; paying with coins and getting
  change, on the same containers.
- `DecayWheel`: the four-bucket timer wheel on which items decay.
- `Market`: offers that hold money or wares in escrow.
- `Trade`: the handshake between two trading players.
- `DamageList`, `ConditionCodec`, `SpeedLedger`: damage over time, the bytes conditions are stored as, and the
  speed they add up to.
- `CloseProtocol`: how a network connection is closed while handlers run in any order.

Conventions. Objects the source shares by pointer are objects here. A ghost set `all` (or `players`, `items`)
names the objects a method works among. What the source asks of parts that are not modelled (the map, the
database, the clock, random numbers, a creature's or player's own checks) is a parameter. Snapshots of the heap
(`Parents`, `Lists`, `Weights`, `Sides`, `Looks`) are maps, so that most lemmas are about plain values.

Seven properties turned out to hold only under a condition, which is proved exactly:

- A printed tree is read back as it was if and only if every node kind is below 0xFD, or is 0xFD with properties
  whose first byte other than 0xFD exists and is no mark: `NodeGrammar.RoundTrip`, `FileLoaders.SaveAndLoad`. The
  printer escapes the kind, the parser does not unescape it. `NodeGrammar.BareEscapeIsLost` is an instance.
- Mirroring and flipping use rows for columns in the centre, so they are right if and only if the area is square or
  covers nothing: `CombatArea.MirrorExact`, `CombatArea.FlipExact`, with an instance in `CombatArea.MirroredRow`.
- A cached read comes back with the bytes asked for if and only if they lie inside the file, as all that nodes ask
  for do. Past the end it fails, never comes back or copies what lies behind a block:
  `FileLoaders.FileLoader.ReadBytes`.
- The walk cache shows the truth of a tile if and only if it is the same as when the tile was last looked up. When an
  item that blocks nothing is changed or removed, such as a magic field (data/items/items.xml:618-623), its tile is
  not looked up, so a creature may keep off a tile that can be walked: `WalkCache.Creature.OnRemoveTileItem`,
  `WalkCache.Run`, with an instance in `WalkCache.BurntOutField`.
- A decaying item is in one place of the wheel or waiting, once, as long as no item that is tracked is turned from
  outside into a type with a duration of its own, which takes its mark away: `DecayWheel.Wheel.Reform`, with an
  instance in `DecayWheel.RelitTorch`. A lit torch that is used does it (data/actions/scripts/other/decayto.lua:1-5).
- The damage list of a condition adds up to the damage asked for if and only if that is at least the triangle number
  of the start value; for the default start value this is an amount up to 760, or 780: `DamageList.GenerateDamageList`,
  `DamageList.DefaultStartExact`.
- The market keeps money, the fees aside, and wares in balance but for one case: the wares of a buy offer are sold
  to a buyer who is offline and cannot be loaded. Then the seller keeps the price, the wares are gone and the offer
  stands:
  `Market.Market.AcceptOffer` and, summed over a run, `Market.Market.Run`, with an instance in
  `Market.UnloadableBuyer`.

## Model

| member | source | states |
|---|---|---|
| Bits.BlockBaseBounds | fileloader.cpp:471-499 | masking a position with the complement of size minus one gives a block that holds the position, for every size, a power of two or not |
| Bits.AndNot32LowBits | fileloader.cpp:96-102 | masking with the complement of 0x1FFF rounds down to a multiple of 8192 |
| Bits.AndSplits | fileloader.cpp:471-499 | a number is the sum of its bits under a mask and its bits outside it |
| NodeGrammar.ParserAcceptsExactlyTheGrammar | fileloader.cpp:121-218 | the parser succeeds with a tree and an end position exactly when the bytes there are that tree written out with well-escaped properties and followed by an end mark or the end of the file |
| NodeGrammar.ParseComplete | fileloader.cpp:121-218 | every well-formed tree written at a position is parsed back from it, up to its last byte |
| NodeGrammar.ParseSound | fileloader.cpp:121-218 | whatever the parser accepts is well-formed and is exactly what stands in the file |
| NodeGrammar.EncodingUnique | fileloader.cpp:121-218 | no byte sequence is the encoding of two different trees |
| NodeGrammar.PrintIsEncode | fileloader.h:138-162 | what the printer writes is a well-formed encoding, whose unescaped properties are those given to the printer |
| NodeGrammar.UnescapeEscape | fileloader.cpp:220-262 | unescaping what was escaped gives the data back, whatever byte follows |
| NodeGrammar.UnescapeIgnoresAfter | fileloader.cpp:220-262 | on well-escaped bytes the unescaper never depends on the byte behind them |
| NodeGrammar.OnlySurvivorsReturn | fileloader.cpp:121-218 | a printed tree that is parsed to a tree with the same unescaped content has only kinds that survive |
| NodeGrammar.RoundTrip | fileloader.cpp:121-218 | parsing a printed tree and unescaping it gives the tree back if and only if all its kinds survive |
| NodeGrammar.BareEscapeIsLost | fileloader.cpp:121-218 | a node of kind 0xFD without properties is printed as four bytes that are no tree |
| NodeGrammar.EscapeBeforePlainReturns | fileloader.cpp:121-218 | a node of kind 0xFD whose properties are 0xFD and a plain byte is read back |
| FileLoaders.CacheSizes | fileloader.cpp:96-102 | the size masked out of a twentieth of the file, held between 8192 and 32768, is 8192, 16384, 24576 or 32768, each for the files it is meant for |
| FileLoaders.FileLoader.PickSlot | fileloader.cpp:493-518 | the slot is the first empty one; if none is, the first whose block is more than two block sizes away; if none is, the first |
| FileLoaders.FileLoader.LoadCacheBlock | fileloader.cpp:493-542 | the block goes into the slot the rule names and no other slot changes; the slot returned holds the block around the position, every loaded slot agrees with the file, and none is found exactly for a position past the end that does not begin a block |
| FileLoaders.FileLoader.GetCacheBlock | fileloader.cpp:471-491 | a block loaded before is found without touching file or cache; otherwise it is loaded; none is found exactly for a position past the end whose block is neither loaded nor begins there |
| FileLoaders.FileLoader.ReadByte | fileloader.cpp:328-362 | inside the file the byte at the position is returned and the position moves by one, and at its end there is none, whether reads go through the cache or to the file |
| FileLoaders.FileLoader.SafeSeek | fileloader.cpp:426-444 | the reader stands at any position within the file afterwards, cached or not; past the end a cached seek fails exactly if no block begins there and none around it is loaded |
| FileLoaders.FileLoader.SafeTell | fileloader.cpp:446-469 | the answer is one less than the position of the reader |
| FileLoaders.FileLoader.ReadBytes | fileloader.cpp:364-407 | inside the file the target holds the file's bytes and the rest of it is unchanged, cached or not; past the end a direct read fails, a cached one that starts inside never ends, and one that starts behind fails, never ends or overruns as its block is not loaded, begins there or is loaded, unless nothing is asked for |
| FileLoaders.FileLoader.CopyBlock | fileloader.cpp:371-391 | one turn copies nothing if and only if nothing remains or the end of the file is reached; otherwise a piece of the range at its place |
| FileLoaders.FileLoader.ServeAll | fileloader.cpp:328-469 | any sequence of byte reads, range reads, seeks and tells inside the file is answered, in either mode, as by a plain file with a position |
| FileLoaders.CachedAgrees | fileloader.cpp:328-542 | a caching and a direct reader at the same place of one file answer every sequence of calls alike and end at the same place |
| FileLoaders.FileLoader.ReadNode | fileloader.cpp:121-218 | one node is read exactly when the grammar has one there; its links, start, size and kind are those of that node |
| FileLoaders.FileLoader.ReadChildren | fileloader.cpp:141-176 | the first child is read with all its siblings, and the reader steps back to the end mark of the parent |
| FileLoaders.FileLoader.ParseNode | fileloader.cpp:121-218 | the linked nodes built are exactly the tree of the grammar, and it fails exactly when there is none |
| FileLoaders.FileLoader.OpenForReading | fileloader.cpp:55-119 | opening succeeds exactly for a file of at least four bytes that are the identifier or all zero, a start mark and a parsable tree; the root then is that tree, and a caching reader has the block size of the file |
| FileLoaders.FileLoader.OpenForWriting | fileloader.cpp:55-76 | a new file holds the four bytes of the version |
| FileLoaders.FileLoader.GetProps | fileloader.cpp:220-262 | it succeeds exactly when the properties lie inside the file and leaves them unescaped at the front of the buffer, which has been doubled until it is longer than they |
| FileLoaders.UnescapeInPlace | fileloader.cpp:237-258 | unescaping in place gives what unescaping into a new buffer would, and leaves the byte behind alone |
| FileLoaders.FileLoader.WriteData | fileloader.h:138-162 | the file grows by the data, escaped where asked for, and by nothing else |
| FileLoaders.FileLoader.StartNode | fileloader.cpp:286-291 | the file grows by the start mark and the escaped kind |
| FileLoaders.FileLoader.SetProps | fileloader.cpp:277-284 | the file grows by the escaped properties |
| FileLoaders.FileLoader.EndNode | fileloader.cpp:293-297 | the file grows by the end mark |
| FileLoaders.SaveForest | fileloader.cpp:277-297 | writing a tree node by node appends its printed form |
| FileLoaders.LoadForest | fileloader.cpp:264-326 | walking the parsed nodes by child and sibling and reading their properties gives the unescaped tree |
| FileLoaders.SaveAndLoad | fileloader.cpp:55-119 | a tree written to a file, opened again with or without the cache and walked comes back if and only if all its kinds survive |
| WalkCache.Creature.UpdateMapCache | creature.cpp:383-400 | a full recompute shows the world in every cell but the centre |
| WalkCache.Creature.UpdateTile | creature.cpp:413-440 | exactly the cell of the tile is set, if it lies in the window |
| WalkCache.Creature.FollowRows | creature.cpp:638-663 | after the row shift every row shows what the row it came from showed, and the row that came into view is looked up |
| WalkCache.Creature.FollowColumns | creature.cpp:665-712 | the same for columns, leaving out the rows a diagonal step has just looked up |
| WalkCache.Creature.Step | creature.cpp:627-714 | after a step in any of the eight directions every cell but the centre shows what it showed of its tile before, but for the tile left and those come into view, which are looked up |
| WalkCache.Creature.RightExactly | creature.cpp:442-485 | the window is what a full recompute would give exactly if every tile in view was seen as it is |
| WalkCache.Creature.OnOwnMove | creature.cpp:582-720 | a teleport or a move to another floor looks up everything, a step what it leaves and what comes into view; the window is up to date if only the two tiles changed |
| WalkCache.Creature.OnOtherMove | creature.cpp:721-732 | when another creature moves its two tiles are looked up, and the window stays up to date if only they changed |
| WalkCache.Creature.OnAppear | creature.cpp:519-537 | a creature that appears has an up-to-date window if it uses one |
| WalkCache.Creature.OnThink | creature.cpp:197-203 | a window that is used and not yet loaded is read |
| WalkCache.Creature.OnCondition | monster.cpp:573-587 | everything is looked up again when fire, energy or poison begins or ends, and nothing otherwise |
| WalkCache.Creature.OnTileChange | creature.cpp:430-440 | a changed tile is looked up, and the window stays up to date if only it changed |
| WalkCache.Creature.OnUpdateTileItem | creature.cpp:493-504 | the tile is looked up exactly if the old or the new type is solid or blocks the path; else the window is up to date afterwards exactly if the tile is out of view, the creature's own, or can be walked as before |
| WalkCache.Creature.OnRemoveTileItem | creature.cpp:506-517 | the same for an item removed that is solid, blocks the path or is the ground |
| WalkCache.BurntOutField | creature.cpp:506-517 | a creature that feared a field keeps off its tile after it burnt out |
| WalkCache.Creature.GetWalkCache | creature.cpp:442-485 | of a tile in the window the answer is its cell, which is what was seen when it was last looked up; the own tile can be walked, another floor cannot, and a tile outside is unknown |
| WalkCache.Run | creature.cpp:383-732 | over any run of moves, teleports, tile events and conditions, whatever changes in the world, the window shows of each tile what was so when it was last looked up; it is what a full recompute would give exactly if that is so in the end, and is so if every change in view was looked up |
| WalkCache.LookedUpIsRight | creature.cpp:383-732 | if at each event what changed in view was looked up, everything in view was seen as it is |
| CombatArea.MatrixArea.constructor | combat.h:115-131 | a new area covers nothing |
| CombatArea.Rotate | combat.cpp:1242-1294 | the offsets from the centre that the copy covers are exactly those of the input, turned; all writes are inside the output for every size and every centre inside |
| CombatArea.TurnedCovers | combat.cpp:1242-1294 | a copy covers a turned offset if and only if the input covers the offset |
| CombatArea.TurnIsRotation | combat.cpp:1252-1276 | the turns are rotations by the angle: scalar and cross product of an offset and the turned one are its squared length times the cosine and the sine, and the length stays |
| CombatArea.TurnBack | combat.cpp:1252-1276 | a quarter turn and the opposite one undo each other |
| CombatArea.Mirror | combat.cpp:1222-1231 | the copy is the input with columns reversed and the centre the source gives it |
| CombatArea.Flip | combat.cpp:1232-1241 | the copy is the input with rows reversed and the centre the source gives it |
| CombatArea.MirrorExact | combat.cpp:1222-1231 | the copy covers the mirrored offsets if and only if the input is square or covers nothing; otherwise it is off by the difference of columns and rows |
| CombatArea.MirroredRow | combat.cpp:1222-1231 | a row of two cells mirrored covers the cell beside the right one |
| CombatArea.FlipExact | combat.cpp:1232-1241 | the same for the flipped offsets |
| CombatArea.ColumnShiftRunsOut | combat.cpp:1222-1231 | an area that covers every offset a fixed number of columns beside each it covers, covers nothing |
| CombatArea.CreateArea | combat.cpp:1297-1323 | a cell is covered exactly where the list says so, and the centre is the cell last marked as one |
| CombatArea.AreaCombat.SetupArea | combat.cpp:1325-1348 | the four areas are the list and its three quarter turns; the diagonal ones stay |
| CombatArea.AreaCombat.SetupExtArea | combat.cpp:1417-1446 | the four diagonal areas are the list, its mirror, its flip and the mirror of that |
| CombatArea.SquareDiagonals | combat.cpp:1417-1446 | for a square area the four diagonal ones are the identity, mirror, flip and half turn of one another |
| CombatArea.AreaCombat.GetArea | combat.h:212-244 | the area taken is the one whose direction is one step of the sign of each difference; without diagonal areas columns go first, and the caster's own tile counts as south |
| CombatArea.AimTurns | combat.h:212-244 | a target straight ahead, turned about the caster by a quarter, a half or three quarters, lies east, south or west |
| CombatArea.AimBothWays | combat.cpp:1149-1348 | a spell set up from a list, aimed at a target north of the caster and at that target turned about him, hits the list's cells around the one and the same cells, turned as far, around the other |
| CombatArea.AreaCombat.GetList | combat.cpp:1149-1187 | the positions listed, row by row and each once, are exactly those on the map and in sight of the target that the area covers around it; the area is the one whose step points from caster to target, diagonally if there are diagonal areas and both coordinates differ, else along the row unless only the column leads there |
| Containers.UpdateItemWeight | container.cpp:130-135 | a weight difference reaches the container and every one around it, and no other |
| Containers.AddThing | container.cpp:470-512 | an item listed first adds its own weight, a stack as often as it counts, and what it holds to the container and every one around it, and to no other; links and lists stay in step; past the capacity nothing happens |
| Containers.UpdateThing | container.cpp:514-552 | a change of type and count changes the weight of the container and of every one around it by the difference, and of no other; an item that is not listed is left alone |
| Containers.RemoveThing | container.cpp:596-652 | taking part of a stack, or the item, takes exactly its weight off the container and every one around it, and says what is left |
| Containers.ReplaceThing | container.cpp:554-594 | the new item stands exactly where the old one stood, which comes loose, and the weights around change by the difference of the two |
| Containers.GetIndexOfThing | container.cpp:654-665 | the first index of the item, or -1 |
| Containers.NoContainerInItself | container.cpp:257-311 | no container is around itself at any depth |
| Containers.WeightChange | container.cpp:130-140 | when one item's weight changes, only the container that lists it is out of balance, by that much |
| Containers.SumUpdate | container.cpp:130-140 | changing one listed item's weight changes the load by the difference, once |
| Containers.CacheIsNestedWeight | container.cpp:130-140 | in a consistent tree the weight of every item with its cached part equals the weight of all that is nested in it at every depth |
| Stacks.QueryAdd | container.cpp:257-311 | adding is allowed exactly for an item that can be picked up, is not the container or around it, and finds a free slot where none is named; otherwise the code names the first of these that fails |
| Stacks.QueryMaxCount | container.cpp:313-371 | the count that fits is that of the free slots and, for what may be added, of the gaps in other stacks of the same type, or in the one stack at a named index; the answer says whether all fits |
| Stacks.QueryRemove | container.cpp:373-390 | removing is allowed exactly for a listed item, a positive count within the stack, and what can be moved unless that is to be ignored; otherwise the code names what fails |
| Stacks.FindStack | container.cpp:392-463 | the first stack of the type with room, or none if there is none |
| Stacks.InternalAddItem | game.cpp:1688-1768 | it succeeds exactly when the whole item fits, and else the code says why and nothing changes; an item that does not stack, or finds no open stack, is itself listed first; otherwise the open stacks are filled in their order, each to 100 before the next, and only what is left over is listed first as a new stack; sizes and stacks stay in bounds |
| Stacks.FillStack | game.cpp:1717-1760 | filling the first open stack and adding the rest fills the open stacks in order and lists what is left over |
| Stacks.FirstGapFirst | game.cpp:1717-1760 | where no stack before it is open, a stack takes all of the count that its room allows, and no stack shrinks |
| Stacks.LandedNext | game.cpp:1717-1760 | once the first open stack is filled, the rest lands on each later stack, and is left over, as all would have |
| Stacks.RoomWithoutGaps | container.cpp:313-371 | with no stack to fill only whole free slots count |
| Stacks.InternalRemoveItem | game.cpp:1770-1805 | it succeeds exactly when the item lies in a container and the count can be taken, and else the code says why; a part leaves the stack that much smaller, the whole takes the item from the list; no other container changes |
| Stacks.QueryDestination | container.cpp:392-463 | moving up leads to the container around; otherwise the first stack with room is joined unless the item is from this container; otherwise the index names an item, a container being entered, or a plain slot; an index beyond the capacity names nothing |
| Stacks.ResolveDestination | game.cpp:1379-1391 | following the destination ends after at most one hop, so the limit of 16 never matters, and the spot found is the one the rules name |
| Stacks.PlanMove | game.cpp:1373-1454 | whether and how much moves, and to which spot, is settled exactly as the queries say, with room for it there |
| Stacks.FreeSlotMovesAll | game.cpp:1432-1454 | with a free slot at the destination, whatever may leave and may arrive moves in full |
| Stacks.InternalMoveItem | game.cpp:1373-1519 | exactly the count the spot takes moves, and the return code is that of the first query that refuses or success; what arrives joins the stack found, filled up to 100, or is listed first, the item itself where all of it moves; the number of each type over all containers is conserved, stacks stay within 1 to 100, and the destination never goes above its capacity |
| Stacks.Deposit | game.cpp:1462-1487 | what was taken arrives: the stack found is filled up to 100 and the rest is a new stack, or the item itself is put first in the list; nothing else in the list changes |
| Stacks.Run | container.cpp:465-652 | over any run of adds, updates, replacements and removals the lists become step by step what the queries admit, every cached weight stays the weight of all that is nested inside at every depth, and no container is inside itself |
| Iteration.WalkStep | container.cpp:859-879 | one step of the iterator keeps queue, cursor and items left behind in step |
| Iteration.CurrentIsNew | container.cpp:848-852 | the current item is nested in the container, one level below the one it is listed in, and has not been met |
| Iteration.AllVisited | container.cpp:859-879 | when the queue is empty everything nested has been met |
| Iteration.ContainerIterator.constructor | container.cpp:773-789 | the iterator begins before the first item |
| Iteration.ContainerIterator.Advance | container.cpp:859-879 | the current item is left behind and the iterator stays in order |
| Iteration.WalkEnumerates | container.cpp:773-879 | a finished walk has met every nested item once, level by level |
| Iteration.Traverse | container.cpp:773-879 | the iterator terminates and hands out everything nested at every depth, each item once, none before one closer to the root |
| Iteration.GetItemHoldingCount | container.cpp:182-189 | the count is the number of items nested at every depth |
| Iteration.IsHoldingItem | container.cpp:191-199 | the answer is whether the container is one of those around the item |
| Money.Gather | game.cpp:2026-2053 | the walk over containers meets the container and every one nested in it once, and counts all their coins |
| Money.GetMoney | game.cpp:1960-2002 | the sum is the worth of all coins in the container at every depth |
| Money.WealthIsUnique | game.cpp:1960-2002 | the worth does not depend on the order in which containers are met |
| Money.Insert | game.cpp:2035-2052 | the multimap stays in ascending order of worth, a new entry behind its equals |
| Money.Reached | game.cpp:2039-2053 | a walk with an empty queue has met every container nested in the first |
| Money.CoverWithout | game.cpp:2060-2066 | taking out an item that is no container leaves the nested containers as they are |
| Money.TakeStack | game.cpp:2060-2066 | removing a stack lowers the worth of the container by that of the stack, and that of no container outside |
| Money.AddMoney | game.cpp:2079-2115 | the stacks built are crystal coins in hundreds and the rest of them, then the platinum and the gold coins that make up the amount; what does not fit in the container is dropped, and the two add up |
| Money.GiveChange | game.cpp:2067-2072 | change is built as the amount is paid out and raises the worth of the container and of what is dropped by exactly it |
| Money.RemoveMoney | game.cpp:2004-2077 | it pays exactly when the coins at every depth are worth the price; the stacks taken are those worth least, no more than are needed to cover it, and the change is what the last covers beyond; the worth of the container and of the change dropped falls by exactly the price; otherwise nothing changes; coins elsewhere are never touched |
| DecayWheel.DueWhenPlaced | game.cpp:5004-5021 | an item placed by cleanup is due at tick 4 * (D / 1000), one later if D % 1000 is at least 875, and at the next tick if D is below 1000 |
| DecayWheel.LifetimeBound | game.cpp:4860-4908 | an item placed with D >= 1000 leaves less than 875 ms early and never late |
| DecayWheel.RestDecides | game.cpp:4894-4900 | a rest below 875 ms stays in the bucket read, a longer one goes to the next bucket and no other |
| DecayWheel.TickDue | game.cpp:4860-4908 | reading one bucket brings an item in any bucket exactly one tick closer, unless it is in that bucket and can no longer decay |
| DecayWheel.Wheel.StartDecay | game.cpp:4825-4842 | exactly what can decay, is not decaying and comes to rest with time left waits for the wheel, referenced once; every item has become what its stages make of it, and what decays into nothing is removed |
| DecayWheel.Wheel.InternalDecayItem | game.cpp:4844-4858 | the item takes on stage after stage up to the first that has time left, which waits for the wheel, or cannot decay; with no stage left it is removed |
| DecayWheel.ComesToRest | game.cpp:4844-4858 | the first stage with time left, or that cannot decay, is what has become of the item: its type, its duration, and the mark exactly if it can decay and has time left; nothing else is touched and nothing removed |
| DecayWheel.Wheel.Visit | game.cpp:4866-4904 | an entry leaves below 1875 ms, moves on below 2000 ms and stays otherwise; one that leaves has become what its stages make of it or is removed; references only move from the wheel to the release list |
| DecayWheel.Wheel.Sweep | game.cpp:4865-4905 | a bucket is read entry by entry while entries leave it, each gets what it is due, whatever the others turn into, and the items have become what reading them in turn makes of them |
| DecayWheel.Wheel.CheckDecay | game.cpp:4860-4908 | every item on the wheel comes one tick closer but for those read that can no longer decay, only what is due leaves and becomes what its stages make of it or is removed, what waits is placed for its lifetime, each item stays in one bucket or pending, and each reference is given back once |
| DecayWheel.Wheel.Cleanup | game.cpp:5004-5021 | nothing waits and nothing is left to release; what waited is due at its lifetime and booked for it, and nothing else moved or was booked |
| DecayWheel.TurnKeeps | game.cpp:4860-4908 | if whatever was booked has left at its tick, was dropped as it could no longer decay, or is on its way, and nothing else, that stays so when a bucket is read |
| DecayWheel.CleanKeeps | game.cpp:5004-5021 | the same when what waits is placed and booked |
| DecayWheel.Wheel.Run | game.cpp:4825-5021 | over any run of starts, ticks, cleanups and changes from outside, items turning into themselves or into new ones, an item that is started, waits or is on the wheel and is not changed leaves at exactly the tick promised: its lifetime after it is placed; items leave as booked and not otherwise, unless they can no longer decay when read; and each reference is given back once, whatever is changed |
| DecayWheel.Wheel.StartAndRun | game.cpp:4825-5021 | an item that starts to decay with some time left, and is not changed from outside, leaves its lifetime after the next cleanup |
| DecayWheel.Wheel.Reform | item.cpp:318-322 | turned from outside into a type with a duration of its own an item loses its mark; each item stays tracked at most once and marked exactly if it was not tracked |
| DecayWheel.RelitTorch | item.cpp:318-322 | a torch that is relit while it burns is tracked twice |
| Market.TotalSet | game.cpp:5600-6118 | a sum over a table changes by the change of one entry |
| Market.Gather | game.cpp:5657-5699 | it finds enough exactly when the player has enough; the places are those of all fitting items up to where they suffice, and each was still needed when it was reached |
| Market.TakeWares | game.cpp:5657-5720 | exactly the amount is taken when there is enough, from the first fitting items on, and nothing otherwise; all other items stay as they lie |
| Market.WithoutCounts | game.cpp:5657-5720 | what is left without an amount of an item counts exactly so many less of it and as many of every other |
| Market.TakenAll | game.cpp:5704-5720 | once all places gathered are gone through, every item has given what is wanted of it when those before it have given all they can |
| Market.Deliver | game.cpp:5768-5799 | exactly the amount arrives behind what was there: in stacks of a hundred and a rest, or one by one |
| Market.Market.CreateOffer | game.cpp:5600-5737 | an offer is made exactly under the limits and with the means; exactly the escrow and a fee of 20 to 1000 leave the player's balance, or the fee and the first fitting wares |
| Market.Market.GetOfferIdByCounter | iomarket.cpp:206-221 | an offer of that time and counter, or 0 exactly when there is none |
| Market.Market.CancelOffer | game.cpp:5739-5806 | exactly the own offer is cancelled and what lies behind it comes back to the player, as money or as new stacks; money and wares are conserved |
| Market.Market.AcceptOffer | game.cpp:5808-6025 | for a sell offer the price goes from the buyer's balance to that of the player who made it, and the wares to the buyer; for a buy offer the price goes to the seller's balance and his first fitting wares leave him, to arrive with the player who made it if he can be loaded; nobody else is touched; money and wares are conserved except when the buyer cannot be loaded, when the price is minted and the wares lost |
| Market.Market.CheckExpired | game.cpp:6027-6118 | exactly the expired offers are settled, but for sell offers of players who cannot be loaded; every player gets back exactly the money and wares behind those he made; money and wares are conserved |
| Market.Market.Step | game.cpp:5600-6118 | one event comes to the deed it asks for, or to none only where it is refused, and brings every player exactly that deed's money and wares |
| Market.FeesPerOffer | game.cpp:5600-5737 | the fees of a run are 20 to 1000 for each offer made |
| Market.NoneLost | game.cpp:5906-5919 | where every buyer can be loaded nothing is minted and nothing lost |
| Market.Market.Run | game.cpp:5600-6118 | over any run every player's balance and wares are those he had and what he paid, got and gave by the offers made, taken back, accepted and settled, and the offers that stand are what these leave; money in banks and behind buy offers falls by the fees, and the wares of every item stay as many, but for the sales to buyers who could not be loaded, each of which adds its price and takes its wares away; no balance goes below zero |
| Market.UnloadableBuyer | game.cpp:5906-5919 | five items sold to a buyer who cannot be loaded leave five coins more and five items less |
| Trade.Relink | game.cpp:3013-3154 | two players linked to no third may become a pair or idle without disturbing anyone |
| Trade.Game.RequestTrade | game.cpp:2991-3011 | a trade starts exactly when the two differ, the one is idle or answers the other's offer, the other is idle or linked to him, the item and nothing around or inside it is traded, and it holds at most 100 items |
| Trade.Game.InternalStartTrade | game.cpp:3013-3049 | it starts exactly when both are free for each other; then they are a pair and the item is noted under the one who offers it |
| Trade.Game.AcceptTrade | game.cpp:3051-3154 | the first to accept waits; with the second the trade is over for both, what they offered is no longer traded and released once, and things change hands only if both have accepted, both have offered and nothing stands in the way |
| Trade.Game.InternalCloseTrade | game.cpp:3265-3316 | both sides go idle and what they offered is no longer traded; during a transfer nothing happens |
| Trade.BothDropped | game.cpp:3079-3093 | with both offers gone, what is traded is still exactly what is offered |
| Trade.Game.Run | game.cpp:2924-3316 | over any run links are mutual, a player is idle exactly when unlinked, the traded items are exactly those offered, each reference taken is given up once or still held, and sides and owners go from event to event as the events make them |
| Trade.OnlySwapsChangeOwners | game.cpp:3051-3154 | over any run an item changes its owner only by a trade in which both have accepted and both have offered something |
| DamageList.GenerateDamageList | condition.cpp:1421-1442 | the list never rises, holds every value from the start down to 1, each as often as brings the list within half of it of the share due by then or once if that is more, and adds up to the larger of the amount and the triangle number of the start |
| DamageList.CloserMeans | condition.cpp:1431-1438 | the comparison of two quotients is the comparison of twice what is missing with the value |
| DamageList.TargetLeavesRoom | condition.cpp:1421-1442 | while the amount is large enough the values left to push never exceed what is left to reach |
| DamageList.LargeAmountExact | condition.cpp:1421-1442 | an amount from the square of the start up is met exactly |
| DamageList.DefaultStartExact | condition.cpp:1190-1215 | with the default start value the list is exact if and only if the amount is at most 760 or is 780 |
| DamageList.ConditionDamage.AddDamage | condition.cpp:1161-1188 | the rounds are queued with their value and interval and the ticks grow by the time they take; or, for endless damage, only the period is set |
| DamageList.ConditionDamage.Init | condition.cpp:1190-1215 | damage that is not set yet becomes one round for each value of the list, from the start value the configuration gives down to 1, each value as often as its share asks for, and lasts as long as the rounds |
| ConditionCodec.Back32 | fileloader.h:218-227 | a 32-bit number is read back from its four bytes, whatever follows |
| ConditionCodec.BackInterval | condition.cpp:1103-1115 | an interval record is read back from its twelve bytes |
| ConditionCodec.BackOutfit | condition.cpp:1666-1678 | an outfit record is read back from its twelve bytes |
| ConditionCodec.CreatesFromHeader | condition.cpp:244-284 | the header of a condition creates one of its type with id, ticks, flag and subid as saved, and zero ticks for damage |
| ConditionCodec.ReadsFields | condition.cpp:73-82 | fields that can be taken one after another are read up to the end mark, and the reader stops behind it |
| ConditionCodec.BodyRestores | condition.cpp:412-1880 | what each kind of condition writes rebuilds it from a new one |
| ConditionCodec.RoundTrip | condition.cpp:73-284 | a condition written with its end mark and read back is restored and the reader stands right behind the mark |
| ConditionCodec.DamageTicks | condition.cpp:1103-1115 | a damage condition is loaded with the sum of its intervals as ticks, and its list unchanged |
| ConditionCodec.LoadsWhatWasSaved | iologindata.cpp:389-400 | all lasting conditions of a player, saved one after another, are loaded in their order, and the others are not |
| ConditionCodec.PropWriteStream.AddValue | fileloader.h:341-352 | the stream grows by the value, inside its buffer, which grows when it must |
| ConditionCodec.PropStream.GetValue | fileloader.h:218-227 | a value is read exactly when so many bytes are left, and else nothing moves |
| ConditionCodec.PropWriteStream.Save | condition.cpp:146-163 | a saved condition is its header, its fields and the end mark |
| ConditionCodec.CreateCondition | condition.cpp:182-241 | each known type gets the fields of its kind at their first values, damage starts without ticks, and an unknown type gives nothing |
| ConditionCodec.CreateConditionFrom | condition.cpp:244-284 | a condition is created exactly from a complete header of a known type |
| ConditionCodec.LiveCondition.UnserializeProp | condition.cpp:84-144 | a field is taken exactly when the kind knows it and it is complete, and changes exactly what it stands for; a skill or stat behind the last place is an overrun |
| ConditionCodec.LiveCondition.Unserialize | condition.cpp:73-82 | fields are taken up to the end mark or the end of the stream, and it fails at the first that cannot be |
| ConditionCodec.LoadConditions | iologindata.cpp:389-400 | the loader keeps what could be read and drops what could not, until no condition can be created |
| ConditionCodec.SaveAndLoad | iologindata.cpp:768-782 | saving a player's conditions and loading them gives, in order and restored, exactly those that have an end and the default or the combat id |
| SpeedLedger.SumSet | condition.cpp:1584-1613 | changing one listed condition changes the sum by as much, keys being unique |
| SpeedLedger.Creature.ChangeSpeed | game.cpp:4235-4240 | the speed change grows by the difference, by way of the whole speed and back |
| SpeedLedger.Creature.HasCondition | creature.cpp:1488-1518 | the answer is yes for combat exhaustion while the game's clock stands at 0, and else whether the type is not suppressed and a condition of the type and subid is listed that has no end, or one not yet over by its own end or the game's clock |
| SpeedLedger.Creature.StartAndList | condition.cpp:1558-1572 | a condition that starts is listed with the speed it adds, rolled if not set, and ends its ticks after now |
| SpeedLedger.Creature.Merge | condition.cpp:1584-1613 | a listed condition takes over the other's ticks, end and speed, unless it lasts for ever and the other does not, and the creature changes by the difference |
| SpeedLedger.Creature.EraseAndEnd | condition.cpp:1579-1582 | a condition that ends takes its speed with it |
| SpeedLedger.Creature.OnAddCondition | creature.cpp:1152-1158 | haste ends paralysis and paralysis ends haste |
| SpeedLedger.Creature.AddCondition | creature.cpp:1309-1341 | a condition is refused, taken in by the listed one of its key, or listed last, when exactly its counterparts end if there are any in force and the creature stands; only the one that takes it in changes its speed, ticks and end, and one that is listed ends its ticks after now |
| SpeedLedger.Creature.RemoveWhere | creature.cpp:1354-1412 | all conditions of a type, or of a type and id, end and the others stay in order; or, for a paralysed creature on its way, none |
| SpeedLedger.Creature.RemoveCondition | creature.cpp:1424-1445 | exactly that condition leaves the list, unless it must wait |
| SpeedLedger.Creature.ExecuteConditions | creature.cpp:1467-1486 | exactly the conditions whose time is up end, while the list is walked, and every speed condition's ticks fall by the time passed |
| SpeedLedger.Creature.Step | creature.cpp:1309-1486 | a speed condition that an event neither removes, counters nor merges into keeps its end and speed and leaves only by a turn taken behind its end |
| SpeedLedger.Creature.Run | creature.cpp:1309-1486 | over any run no two listed conditions share type, id and subid, the speed change is that of the listed ones beside equipment and mounts, and a speed condition that is left alone is listed exactly as long as no turn was taken behind its end |
| SpeedLedger.Creature.AddAndRun | creature.cpp:1309-1486 | a speed condition taken on with ticks left, and left alone afterwards, is listed after every turn up to its ticks from then and gone after the first later one; so is a listed one that took it in |
| CloseProtocol.Connection.CloseConnection | connection.cpp:94-109 | closing is requested by exactly one task unless it is under way or over |
| CloseProtocol.Connection.CloseConnectionTask | connection.cpp:111-147 | the protocol is released, and the connection closed unless a write is pending without error; once closed it is stopped, or tried again while someone refers to it |
| CloseProtocol.Connection.CloseSocket | connection.cpp:149-198 | the socket is closed and nothing is pending, if it was open |
| CloseProtocol.Connection.ReleaseConnection | connection.cpp:200-210 | the release is tried again later exactly if someone still refers to the connection, and else it is stopped |
| CloseProtocol.Connection.Send | connection.cpp:408-445 | a message is written at once only on an open connection with no write pending |
| CloseProtocol.Connection.OnWriteOperation | connection.cpp:485-510 | a write that ends well is no longer pending; any other end, or a connection being closed, closes the socket and requests closing |
| CloseProtocol.Connection.OnWriteTimeout | connection.cpp:555-564 | a write overdue closes the socket and requests closing; otherwise nothing changes |
| CloseProtocol.Connection.OnReadTimeout | connection.cpp:544-553 | a read overdue closes the socket and requests closing; otherwise nothing changes |
| CloseProtocol.Connection.AcceptConnection | connection.cpp:258-288 | a connection taken on, with or without a protocol, reads, and closing is requested exactly if starting to read fails |
| CloseProtocol.Connection.ParseHeader | connection.cpp:290-330 | after a good header the packet is being read; after an error or a senseless size closing is requested and the error noted |
| CloseProtocol.Connection.ParsePacket | connection.cpp:332-406 | a packet goes to the protocol, the first one making it where there is none, and the next is being read; after an error, or where none is made, closing is requested |
| CloseProtocol.Connection.Step | connection.cpp:94-564 | every handler, whenever it runs, keeps the invariant: at most one write pending, one close task exactly while closing is requested, one release exactly once closed; and the state turns as the event makes it |
| CloseProtocol.Connection.Run | connection.cpp:94-564 | from being taken on and under any order of handlers at most one write is pending, protocol and connection are each released at most once, closed is final, and the states go from event to event as the events make them |
| CloseProtocol.ClosingIsForGood | connection.cpp:94-147 | over any run a connection that was asked to close is not open again, and closing stays requested until a close task runs |
| CloseProtocol.Connection.Shutdown | connection.cpp:94-147 | from every state that can be reached, closing ends: the task, the end or timeout of a pending write and the task again close the connection |

## Left out

- FileLoaders.FileLoader.ReadByte: the error codes kept in `m_lastError` are not modelled; nor is what a cached reader returns byte by byte after a failed seek.
- FileLoaders.FileLoader.ReadBytes: which bytes an overrun copies is not modelled; a read that never ends is an answer of its own.
- FileLoaders.FileLoader.ParseNode: node kinds are read as they stand, so kinds of 0xFD and above follow the code, not the format's intent.
- WalkCache.Creature.OnOwnMove: whether a tile can be walked is a function of its position that every event may change; the tile's own query is not part of this model.
- CombatArea.AreaCombat.SetupArea: the forms for a length and spread and for a radius only build lists by formula and are not modelled; the sine and cosine of a quarter turn are taken as exact.
- CombatArea.AreaCombat.GetList: line of sight is a parameter, and tiles that do not exist are not created.
- Containers.UpdateItemWeight: weights are whole numbers where the source adds floating-point numbers.
- Containers.AddThing: `Container::clone` and `DepotLocker::removeInbox` change the list without the weight and lie outside the invariant; loading a container from a file is not modelled.
- Stacks.QueryAdd: the flags that skip the limit or ignore what cannot be picked up, the exchange of two items and the checks of players, tiles and depots are not modelled; a carrier always agrees.
- Stacks.InternalMoveItem: moves to and from other cylinders than containers, and fluid and charge subtypes, are not modelled.
- Money.AddMoney: the product of crystal coins is a signed 32-bit one in the source, undefined when it overflows, so the amount is limited to where it does not; change never comes near it. Coins that do not fit are listed as dropped; the tile that takes them is not part of this model.
- Money.RemoveMoney: the cylinder is a container; a player's slots and refusals to give up a coin are not modelled.
- DecayWheel.Wheel.InternalDecayItem: what an item turns into, and the object that stands for it, are parameters; durations are not negative. An object made by decay is a new one, in use nowhere else before.
- DecayWheel.Wheel.Run: items that are tracked are not turned into types with a duration of their own from outside; what that does is `DecayWheel.Wheel.Reform`.
- Market.Market.CreateOffer: the hundredth part of the turnover is a parameter because the source computes it in floating point; the checks that the player is online, at the market and premium are one parameter each way.
- Market.Deliver: merging new items into stacks that lie in the inbox is left to `Stacks`; the inbox takes any number. What a player can sell is one list, in which new items come last; the source puts them in front of the inbox, behind the depot.
- Market.Market.AcceptOffer: history entries, statistics, messages and failing database queries are not modelled.
- Trade.Game.RequestTrade: distance, reachability and walking up to the item come before the point where the model starts.
- Trade.Game.AcceptTrade: whether the items fit, can be removed and do move are parameters; as in the source nothing is done about a second move that fails.
- DamageList.GenerateDamageList: 32-bit overflow is not modelled, and the quotients are compared as real numbers rather than as floats.
- ConditionCodec.LiveCondition.UnserializeProp: where the source would write past its arrays of skills or stats, on input it never writes itself, the model reports an overrun; the bits of floating-point factors are kept as numbers; bytes are in little-endian order.
- SpeedLedger.Creature.ExecuteConditions: kinds that do not change speed end by rules given as a parameter; what their ends do to a player is not modelled.
- SpeedLedger.Creature.AddCondition: tasks put off while a creature walks are later calls with `force`.
- SpeedLedger.Creature.OnAddCondition: this is the rule of the base class; monsters replace it (monster.cpp:573-579) and end no counterparts.
- CloseProtocol.Connection.OnStopOperation: deleting the socket and the object itself, and closing all connections at shutdown, are not modelled; handlers queued before the stop operation run before it.
- Notifications to clients, scripts, chat, bans, configuration, beds, global events, the database layer and the sockets themselves are left out: they call on services outside these files or would only add easy members.
