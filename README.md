# rune-search word grid, in Dafny

rune-search is a word-search puzzle crossed with a small role-playing game.
Every entity is a word laid into a shared letter grid:
- the player is the word "Hero";
- monsters are "Goblin" and "Rat";
- there is a "Door" and a "Key";
- every cell starts with one random Ground letter.

The player moves a word by selecting a straight run of tiles to carry it.
A tile holds a stack of letters, of which only the top one shows, and the
list of entities that occupy it.

This project models the engine under the game:
- the `Tile` with its letter stack and occupant list;
- the `TileMap` with its constructor, the placement attempt of `insertEntity` and its lookups;
- the entity kinds and their collision behaviour;
- the movement engine of `Game`: `move`, `headshift`, `changeDir`,
  `rotateDir`, `checkPlayerCollision` and `newLevel`, plus the tile selection
  that a mouse press toggles.

The modules, in dependency order:
- `Wrappers`: `Option`, which stands for JavaScript's `undefined` and `null` results.
- `Stacks`: the JavaScript array operations a tile applies, as pure functions. These are `indexOf`, `splice` with its negative start, the top of a stack, and the forward scan of `removeEntity`.
- `Geometry`: coordinates, the straight `line`, `rotateDir` in exact arithmetic, and the endpoint rule of `move`.
- `Entities`: one `Entity` class, tagged with the subclass it was built as, plus the combat, pick-up and door behaviour and their specifications.
- `Tiles`: the `Tile` class.
- `Boards`: what the whole grid holds, as a value `map<Pos, TileState>`. Every change that placement and movement make is stated here as a function from board to board, and the source's promises are proved about those functions.
- `Grid`: the `TileMap` class. A ghost field `board` always equals what the tiles hold (`Valid()`), and each method states its new `board` through a `Boards` function.
- `Engine`: the `Game` class.

Notes on the code as written, which the model follows:
- **`removeTopLetter` does not pop.** It assigns the result of `splice(length - 1)` back to the stack, so a tile keeps only its top letter. Anything beneath that top letter is lost, including the Ground letter (`Stacks.KeepTopShape`, `Stacks.VacateThenRefill`). `move` reads the top letter into `oldLetter` first (src/controller/Game.ts:95) and never uses it.
- **`removeEntity` can leave an occupant behind.** It splices inside a forward loop, so an occupant that sits right after a removed one is never looked at. An occupant stays exactly when it was listed twice in a row (`Stacks.ScanSpliceLeavesIff`).
- **Placement never uses row 0 or column 0.** The walk of `insertEntity` requires `x > 0` and `y > 0`, which is stricter than "in bounds".
- **Old and new tiles are paired in scan order.** `move` pairs the i-th tile that lists the entity in column-by-column order with the i-th new tile. That old tile need not be the entity's i-th letter.
- **A Door asks for one new level per Key held, not one in total.**
- **`checkPlayerCollision` acts only with more than two occupants.** "Two occupants" means the player and a Ground.

## Model

| member | source | states |
|---|---|---|
| Tiles.Tile.constructor | build.js:3-6 | a new tile has no letters and no occupants |
| Tiles.Tile.AddLetter | build.js:13-15 | the letter goes on top of the stack; the letters beneath are unchanged |
| Tiles.Tile.RemoveLetter | build.js:16-19 | the stack becomes `splice(indexOf(c), 1)` of the old stack (see RemoveLetterPresent and RemoveLetterAbsent for what that is) |
| Tiles.Tile.RemoveTopLetter | build.js:20-22 | the stack becomes what `splice(length - 1)` returned: only its former top letter (see KeepTopShape) |
| Tiles.Tile.ChangeLetter | build.js:23-25 | the letter at `index` is replaced and every other letter stays |
| Tiles.Tile.TopLetter | build.js:26-28 | `getTopLetter`: nothing exactly when the stack is empty, otherwise its last letter |
| Tiles.Tile.AddEntity | build.js:35-37 | the entity is appended to the occupants, even when it is already listed |
| Tiles.Tile.ContainsEntity | build.js:38-40 | true exactly when the entity is among the occupants |
| Tiles.Tile.RemoveEntity | build.js:41-47 | the forward splicing loop leaves exactly the list `ScanSplice` describes; the loop invariant ties each turn to that list |
| Stacks.IndexOf | build.js:17 | -1 exactly when the element is absent; otherwise an index that holds it, with no earlier occurrence |
| Stacks.SpliceStart | build.js:18 | a start in range is kept; a negative start counts back from the end; the result always lies within the array |
| Stacks.TopAfterPush | build.js:13-28 | after `addLetter(c)`, `getTopLetter()` is `c` and the old stack lies beneath it |
| Stacks.KeepTopShape | build.js:20-22 | `removeTopLetter` turns a non-empty stack into the one-letter stack of its top, and leaves an empty stack empty |
| Stacks.KeepTopKeepsVisibleLetter | build.js:20-22 | `removeTopLetter` never changes the letter shown, applying it twice is applying it once, and at most one letter is left |
| Stacks.VacateThenRefill | src/controller/Game.ts:94-99 | a tile that is vacated and then refilled with the same letter holds exactly two copies of it; what lay beneath is gone |
| Stacks.RemoveLetterPresent | build.js:16-19 | with the letter present, `removeLetter` drops its first occurrence and nothing else (as a multiset, exactly one copy fewer) |
| Stacks.RemoveLetterAbsent | build.js:16-19 | with the letter absent, `indexOf` is -1 and `splice(-1, 1)` drops the last letter of a non-empty stack |
| Stacks.PushThenRemoveLetter | build.js:13-19 | pushing a letter the stack lacked and removing it by value gives the old stack back |
| Stacks.ScanSpliceAbsent | build.js:41-47 | removing an entity that is not listed changes nothing |
| Stacks.ScanSpliceKeepsOthers | build.js:41-47 | `removeEntity(x)` removes only occurrences of `x`, keeps the other occupants in order, and never lengthens the list |
| Stacks.ScanSpliceLeavesIff | build.js:41-47 | an occurrence of `x` survives `removeEntity(x)` if and only if two occurrences of `x` stand side by side |
| Stacks.ScanSpliceTwice | build.js:41-47 | `[x, x]` becomes `[x]` |
| Entities.Pick | build.js:258 | `Math.floor(r * n)` with `0 <= r < 1` is a valid index below `n` |
| Entities.Entity.Ground | build.js:257-261 | a Ground is a one-letter word drawn from the 26-letter alphabet, inactive, with no location, head or direction |
| Entities.Entity.Player | build.js:317-323 | a Player has the given name, 10 health and 1 attack damage, and is active |
| Entities.Entity.Goblin | build.js:331-335 | a Goblin is named "Goblin" and has 6 health and 2 attack damage |
| Entities.Entity.Rat | build.js:339-343 | a Rat is named "Rat" and has 1 health and 2 attack damage |
| Entities.Entity.Item | build.js:347-349 | an Item has the given name, no location and is inactive |
| Entities.Entity.Door | build.js:359-361 | a Door is named "Door" |
| Entities.Entity.Key | build.js:373-375 | a Key is an Item named "Key" |
| Entities.Entity.SetLocation | build.js:214-221 | the location is stored; with at least two entries, `head` becomes the first entry (the same array) and `dir` the difference of the first two; otherwise both stay as they were |
| Entities.Entity.LocationIncludes | build.js:222-229 | true exactly when `(x, y)` is one of the location's entries |
| Entities.Entity.Tail | build.js:236-238 | the cell one step past the last letter of the line from `head` along `dir`; for a non-zero step it is not on that line |
| Entities.Entity.ReverseDir | build.js:245-247 | the step that cancels `dir`; on a compass step it equals four 45-degree turns of `rotateDir` in either sense |
| Entities.Entity.Battle | build.js:283-292 | the two healths end as the round-by-round `Fight` says: exchanges continue while both are above 0 |
| Entities.Entity.PickUp | build.js:350-355 | the item is added to the player's inventory unless the player already holds it |
| Entities.Entity.KeyRequests | build.js:362-368 | a Door asks for one new level for every inventory item named "Key" |
| Entities.Entity.PlayerCollision | build.js:262-368 | dispatched on the kind: a Character fights, an Item or Key is picked up, a Door asks for one level per Key, and Ground and Player change nothing; each kind touches only what its branch names |
| Entities.FightOutcome | build.js:283-292 | a fight ends with one side at health 0 or below, and each side has lost the other's damage once per round |
| Entities.KillingBlowStillHitBack | build.js:283-292 | the enemy hits back in the same round in which it receives a killing blow |
| Entities.HeroAgainstGoblin | build.js:317-335 | the Hero (10 health, 1 damage) fighting a Goblin (6 health, 2 damage) lasts five rounds and ends with the Hero at 0 and the Goblin at 1 |
| Entities.WithItemOnce | build.js:350-355 | after a pick-up the item is held exactly once, and picking it up again changes nothing |
| Entities.CountKeysAppend | build.js:362-368 | the keys of two inventories joined are the keys of each, added |
| Entities.PickUpKeyAddsRequest | build.js:350-368 | picking up a new Key makes every Door ask for one more level; picking it up again asks for none |
| Geometry.Reverse | build.js:245-247 | `reverseDir` added to `dir` gives the zero step |
| Geometry.CompassIsTheEightSteps | build.js:82-87 | the steps with both components in {-1, 0, 1}, not both 0, are exactly the eight compass steps |
| Geometry.Rotate | build.js:90-101 | with the constant 0.70710678118 and rounding half up, `rotateDir` moves each of the eight compass steps to the next one clockwise, or counter-clockwise |
| Geometry.RotateTimesWalksTable | build.js:90-101 | `n` rotations of a compass step walk `n` places round the compass |
| Geometry.TurnTimesFourAndEight | build.js:90-101 | four turns reach the opposite compass step and eight come back |
| Geometry.RotateInverse | build.js:90-101 | on a compass step, a rotation gives a compass step, and rotating back the other way restores the step |
| Geometry.RotateCycle | build.js:90-101 | on a compass step, four rotations either way give `reverseDir` and eight give the step back |
| Geometry.RotateLongStep | build.js:90-101 | a step that is not a compass step, such as `[2, 0]`, does not come back from a rotation and its inverse |
| Geometry.LineWalks | build.js:107-117 | a line starts at `head` and each entry is one `dir` past the one before |
| Geometry.LineIsDistinct | build.js:107-117 | with a non-zero step, no coordinate of a line occurs twice |
| Geometry.LineDistinct | build.js:107-117 | with a non-zero step, any two entries of a line at different indices differ |
| Geometry.LineHeadAndStep | build.js:107-117 | a line of at least two entries has `head` first, and its second entry minus its first is `dir` |
| Geometry.TailIsPastTheLine | build.js:236-238 | `tail` is one step past the word's last letter, not on the word |
| Geometry.LineQualifiesIff | src/controller/Game.ts:85-89 | a compass line passes the endpoint rule of `move` if and only if it has 1 or 4 entries |
| Boards.Pushed | build.js:122-141 | the first `n` letters pushed along the line, as a function on boards: no cell is added or lost (what each cell gains: PushedOnPath, PushedElsewhere, PushedOnlyPushes) |
| Boards.Hosted | build.js:144-150 | the entity added along the path, as a function on boards: no cell is added or lost (what each cell gains: HostedOnPath, HostedElsewhere) |
| Boards.Step | src/controller/Game.ts:94-99 | one commit step, vacate then occupy, as a function on boards: no cell is added or lost |
| Boards.Commit | src/controller/Game.ts:93-100 | the commit loop as a function on boards: no cell is added or lost (what the cells end with: CommitLastCell, CommitElsewhere) |
| Boards.Reach | build.js:122-141 | how far the placement walk gets lies between its start and the length of the name |
| Boards.Walk | build.js:122-141 | the walk, with each letter pushed before the next is tested, keeps the board's shape, and every cell it pushed onto lies strictly inside the map |
| Boards.ReachMeans | build.js:122-141 | every letter before the stopping index was accepted, and unless the whole name fitted, the letter at that index was refused |
| Boards.ReachIff | build.js:122-141 | the walk stops exactly at `i` if and only if all letters before `i` are accepted and the letter at `i` is not |
| Boards.WalkIsReach | build.js:122-141 | along a line with no repeated cell, each cell is tested in its state from before the walk, so the walk stops where `Reach` says, with the letters before that point pushed |
| Boards.AttemptOutcome | build.js:118-157 | an attempt places the entity if and only if every letter is accepted. Then every cell is strictly inside the map, and the board has the whole name pushed and the entity added along the line. Otherwise the board keeps the letters pushed before the refusal |
| Boards.PushedElsewhere | build.js:122-141 | a cell off the walked line keeps its state |
| Boards.PushedOnPath | build.js:122-141 | along a line with no repeated cell, the cell at `line[k]` gains exactly `name[k]` on top |
| Boards.PushedOnlyPushes | build.js:122-141 | pushing letters never changes the occupants and keeps the old letters at the bottom of each stack |
| Boards.HostedElsewhere | build.js:144-150 | a cell off the path keeps its state when the entity is added along the path |
| Boards.HostedOnPath | build.js:144-150 | along a path with no repeated cell, each cell of the path gains the entity as its last occupant |
| Boards.FullFitCells | build.js:143-153 | after a successful placement, each cell of the path has its letter on top of its old stack and the entity after its old occupants, and every other cell is unchanged |
| Boards.WalkOnlyPushes | build.js:122-141 | the walk of one attempt adds no occupant to any cell and only pushes letters on top of the old stacks |
| Boards.EarlyStopCells | build.js:155-156 | a failed attempt adds no occupant to any cell, yet leaves the letters it pushed on top of the old stacks |
| Boards.CommitLastCell | src/controller/Game.ts:93-100 | after the commit loop, the last new tile shows the name's last letter and lists the entity, whatever the earlier steps did to it |
| Boards.CommitElsewhere | src/controller/Game.ts:93-100 | a tile that no step names, as old tile or as new tile, is left unchanged by the commit |
| Boards.Found | build.js:182-193 | lists only cells that hold the entity, each before the scan position reached |
| Boards.FoundIff | build.js:182-193 | a coordinate is listed if and only if it lies on the map, comes before the scan position and its cell lists the entity |
| Boards.FoundInOrder | build.js:182-193 | the listed coordinates are in strictly increasing column-by-column order, so none is listed twice |
| Boards.ScanCovers | build.js:56-66 | the column-by-column scan visits every coordinate of the map and nothing else |
| Boards.ScanLength | build.js:56-66 | the scan has `width * height` entries |
| Grid.TileMap.constructor | build.js:51-67 | the table is valid and has the given size. Every cell holds exactly one Ground, drawn with its own random value, together with that Ground's letter, and the Ground's location is that cell. The map's list holds the Grounds in column-by-column order |
| Grid.TileMap.BuildTable | build.js:53-66 | the nested loops build every column, with the tiles laid out, what they hold and the Grounds listed in scan order |
| Grid.TileMap.AddColumn | build.js:56-65 | one outer-loop pass extends the built table, its owners and its list by column `x` |
| Grid.TileMap.BuildColumn | build.js:58-64 | column `x` has a fresh tile per row holding a fresh Ground and its letter |
| Grid.TileMap.NewCell | build.js:59-63 | a fresh tile holds a fresh Ground, drawn from the alphabet, whose location is that cell, plus the Ground's letter |
| Grid.TileMap.GetTile | build.js:168-174 | `null` if and only if the coordinates are off the map; otherwise the tile at those coordinates |
| Grid.TileMap.GetTiles | build.js:175-181 | one lookup per point, in order: `null` exactly for points off the map |
| Grid.TileMap.Line | build.js:107-117 | the loop yields the `length` coordinates `head + i * dir` |
| Grid.TileMap.GetTileLocation | build.js:159-167 | the coordinates of the tile if it is on the map, which are where the map put it; `undefined` if and only if it is not on the map |
| Grid.TileMap.GetEntityTiles | build.js:182-193 | the tiles listing the entity, in column-by-column order, one for each coordinate `Found` lists |
| Grid.TileMap.RandomPosDir | build.js:80-89 | the start lies on the map, and the step is a compass step: never `[0, 0]` |
| Grid.TileMap.Offer | build.js:125-136 | the tile takes the letter if and only if it lies strictly inside the map and has one occupant or that letter on top; it then gains the letter, and nothing else changes |
| Grid.TileMap.WalkLetters | build.js:122-141 | the loop pushes letters exactly as the `Walk` specification does, and returns the coordinates it pushed onto |
| Grid.TileMap.HostAt | build.js:149 | the tile gains the entity as its last occupant, and no other cell changes |
| Grid.TileMap.HostPath | build.js:144-150 | every tile of the path gains the entity, as `Hosted` says, and the coordinate list built is the path |
| Grid.TileMap.Settle | build.js:143-156 | the entity joins the tiles of the path, takes the path as its location (which sets head and direction) and is appended to the map's list |
| Grid.TileMap.TryPlace | build.js:118-157 | one attempt does exactly what `Attempt` says. A placed entity is listed and located on the line, with head at the start and direction the step. A failed attempt leaves the list and the entity alone but keeps the letters it pushed |
| Grid.TileMap.VacateTile | src/controller/Game.ts:94-96 | the old tile loses the entity and keeps only its top letter; no other cell changes |
| Grid.TileMap.OccupyTile | src/controller/Game.ts:98-99 | the new tile gains the entity and the letter on top; no other cell changes |
| Grid.TileMap.CommitStep | src/controller/Game.ts:94-99 | one step of the commit vacates the old tile, then occupies the new one |
| Grid.TileMap.CommitMove | src/controller/Game.ts:93-100 | the commit loop takes the board to `Commit` of the old and new coordinates |
| Grid.TileMap.MoveTiles | src/controller/Game.ts:92-100 | the tiles listing the entity, in scan order, are paired index by index with the new tiles; the board becomes that commit; the coordinates read back are the new tiles' places |
| Grid.TileMap.Locations | src/controller/Game.ts:102-105 | `getTileLocation` of each new tile, in order, is where the map put it |
| Engine.LineAdmitsIff | src/controller/Game.ts:70-89 | along a compass line, a word passes the three checks of `move` if and only if it has 1 or 4 letters and a tile of the line lists it |
| Engine.Meet | build.js:262-368 | one collision keeps the set of Characters whose health the sweep tracks |
| Engine.MeetAll | src/controller/Game.ts:26-28 | the sweep over a tile's occupants keeps the set of tracked Characters |
| Engine.MeetAllCollects | src/controller/Game.ts:26-28 | the sweep only adds to the inventory, and every Item and Key on the tile ends up in it |
| Engine.MeetAllWithoutDoor | src/controller/Game.ts:26-28 | with no Door on the tile, the sweep asks for no new level |
| Engine.ToggleFlips | build.js:753-761 | a press flips whether its tile is selected, leaves every other tile's status alone, and never makes a tile occur twice |
| Engine.ToggleTwice | build.js:753-761 | pressing an unselected tile twice gives the selection back |
| Engine.MovedLastCell | src/controller/Game.ts:92-106 | after a move, the last new tile shows the last letter of the name and lists the entity |
| Engine.Game.constructor | src/controller/Game.ts:10-20 | the game holds the given 15 x 15 map and its hero; the selection and the colliding list are empty |
| Engine.Game.Colliding | src/controller/Game.ts:41-43 | empty before any collision; afterwards the live occupant list of the tile collided on, the same array, so later changes to that tile show through |
| Engine.Game.Admissible | src/controller/Game.ts:70-89 | for tiles from any map, true if and only if the length, the "lists the entity somewhere" check and the endpoint rule all pass; on this map's tiles that is `Admits` on the board |
| Engine.Game.OnMapAdmits | src/controller/Game.ts:70-89 | on this map's tiles, the checks of `move` decided on the tiles agree with `Admits` decided on the board |
| Engine.Game.Move | src/controller/Game.ts:68-109 | for tiles from any map, moves if and only if the checks pass (on this map's tiles, if and only if `Admits` holds on the old board). The board becomes the commit from the old tiles in scan order, the location becomes the new tiles' coordinates (setting head and direction), and the selection is emptied. A refused move changes nothing |
| Engine.Game.Carry | src/controller/Game.ts:92-107 | once the checks hold on this map's tiles, the board becomes the commit from the old tiles in scan order, the location the new tiles' coordinates, and the selection is emptied |
| Engine.Game.Relocate | src/controller/Game.ts:106-107 | the location is set through the setter and the selection is emptied; the tiles are untouched |
| Engine.Game.MoveAlong | src/controller/Game.ts:115-116 | moves if and only if the whole line lies on the map and passes the checks of `move`; a move leaves `head` and `dir` as given for words of two or more letters |
| Engine.Game.HeadShift | src/controller/Game.ts:111-122 | the head always moves `mul` steps, even when the shift is refused, and while the head is the location's first entry that entry moves too. The word moves onto the line from the new head if and only if the line lies on the map and passes the checks |
| Engine.Game.ShiftHeadInPlace | src/controller/Game.ts:112-114 | the head is shifted in place, and the location's first entry moves with it while the two are the same array |
| Engine.Game.ResetHead | src/controller/Game.ts:117 | `head` is the new head, no longer shared with the location; nothing else changes |
| Engine.Game.ChangeDir | src/controller/Game.ts:124-132 | moves onto the line from the head along `dir` if and only if it lies on the map and passes the checks; only then is `dir` the new direction; the head stays |
| Engine.Game.SetDir | src/controller/Game.ts:127 | the direction is set and nothing else changes |
| Engine.Game.RotateDir | src/controller/Game.ts:134-137 | a turn through `changeDir` to the 45-degree rotation of the direction, with the same outcome |
| Engine.Game.CheckPlayerCollision | src/controller/Game.ts:23-31 | acts if and only if the tile lists the player among more than two occupants. It then makes that tile's list `colliding` and runs every occupant's collision in list order, with the healths, inventory and level requests `MeetAll` gives. Otherwise nothing changes |
| Engine.Game.MeetOccupants | src/controller/Game.ts:26-28 | the loop over the occupants does exactly what the sweep `MeetAll` says |
| Engine.Game.Encounter | src/controller/Game.ts:27 | one occupant's collision is one step `Meet` of the sweep |
| Engine.Game.NewLevel | src/controller/Game.ts:49-54 | the game switches to the new 15 x 15 map, which holds the same player; `colliding` is emptied and the selection is kept |
| Engine.Game.ToggleSelected | build.js:747-762 | a press on the map toggles that tile in the selection; a press off the map changes nothing |

## Left out

- **Rendering and input.** The p5 sketch, the canvas drawing, the menus (`src/view/PlayerMenu.js`), the `console.log` calls and the mouse-drag handler are presentation, outside the engine. The mouse-press handler is modelled as `Engine.Game.ToggleSelected`. Its translation from screen coordinates to a tile is a parameter.
- **The compiled copy of `Game`** at build.js:390-502 repeats `src/controller/Game.ts`, which is the one modelled.
- **Randomness.** `Math.random()` results are parameters: reals in `[0, 1)`. There is one per Ground (`ground(x, y)`) and four per placement attempt (`Grid.Draw`).
- **`insertEntity`'s retries.** After a refused walk it calls itself again with new random values, and nothing guarantees that this ends. The model is one attempt (`Grid.TileMap.TryPlace`, together with `Grid.TileMap.RandomPosDir`), and what a single attempt does is proved. `insertEntities` is a loop of such calls and is not modelled.
- Engine.Game.constructor: takes as given the 15 x 15 map with the twelve entities already inserted. Building it needs the unbounded retries above.
- Engine.Game.NewLevel: takes the new map as given, for the same reason.
- Engine.Game.CheckPlayerCollision: each Door's `game.newLevel()` call is returned as a count for the caller to make after the sweep. The effect is the same: the loop runs over the old list either way, and no collision reads the map.
- **Globals.** `game.player` and `game.move` are the global game object. In the model they are `this.player` and `this.Move`, which is the same object in the running program.
- **Floating point in `rotateDir`.** The model uses exact decimal arithmetic with the source's constant and JavaScript's round-half-up. On the eight compass steps the products lie far from a rounding boundary, so the model assumes double-precision arithmetic rounds to the same integers; that assumption is not proved.
- **`undefined` fields.** Ground, Item, Door and Key have no health; it is modelled as 0, which every comparison in the source treats the same way. They have no inventory either, and it is modelled as an empty list that nothing reads.
- `Character.die()` does nothing and is not modelled.
- The property getters and setters are fields. The `name`, `active` and `attackDamage` setters are never called or are no-ops (build.js:311-313), so those three are constants.
- Grid.TileMap.constructor: does not state that its tiles and Grounds are newly allocated. `Grid.TileMap.BuildColumn` and `Grid.TileMap.NewCell` state it for each column and cell; the outer loop does not carry it.
- Tiles.Tile.ChangeLetter: an index at or past the end of the stack is not modelled. JavaScript would grow the array with holes.
- Engine.Game.Move: requires `OldTilesSuffice`: once the checks pass, at least as many tiles must list the entity as its name has letters. Otherwise `oldLocation[i]` is `undefined` in the source and the loop throws. The same precondition is carried by `Engine.Game.MoveAlong`, `Engine.Game.HeadShift`, `Engine.Game.ChangeDir`, `Engine.Game.RotateDir` and `Grid.TileMap.MoveTiles`. Two cases of tiles that are not on the map are also left out. When the first or last tile is not on the map, `getTileLocation` has no coordinate for it and the source throws at src/controller/Game.ts:85; `Engine.Game.Admissible` and `Engine.Game.Move` require those two tiles on the map once the length and "lists the entity" checks pass. When the checks pass but a tile between them is not on the map (a selection kept across `newLevel`), the source moves the entity onto that stale tile and stores `undefined` in the location; `Engine.Game.Move` requires every tile on the map in that case. Off-map tiles that fail a check are modelled: the move is refused and nothing changes.
- The `length` getter of an entity (build.js:208-210) is written `|entity.name|` wherever the source reads it, so it has no member of its own.
- Entities.Entity.Battle: requires that one side does damage; if neither does, the source loops forever.
- Grid.TileMap.RandomPosDir: requires a non-empty map, since a start on the map is what it promises.
- Grid.TileMap.TryPlace: requires a compass step, which is all `randomPosDir` produces.
- **Aliasing.** Arrays shared between objects are modelled where the source relies on them:
  - `head` is the location's first array, tracked by `headAliasesFront`;
  - `colliding` is the tile's own occupant list, modelled as `collidingTile`.

  Other coordinate arrays are values.
