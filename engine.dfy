/**
 * The movement engine of `Game` (src/controller/Game.ts): moving a word onto
 * a run of tiles, sliding it along its direction, turning it, the collision
 * sweep over one tile, the switch to a new level, and the tile selection the
 * sketch toggles with the mouse.
 */
module Engine {
  import opened Wrappers
  import opened Stacks
  import opened Geometry
  import opened Entities
  import opened Tiles
  import opened Boards
  import opened Grid

  // ------------------------------------------------------------ the checks of move

  /**
   * The three checks `Game.move` makes before it changes anything, on the
   * coordinates `to` of the new tiles: one tile per letter of an `n`-letter
   * name, at least one of them already listing `e`, and the first and the
   * last tile 0 or 3 apart on each axis. The tiles in between are not looked at.
   * (Every tile of the map has its cell, so the membership test only keeps
   * the predicate defined on any coordinates.)
   */
  predicate Admits(b: Board, e: Entity, n: nat, to: seq<Pos>)
  {
    n == |to| && (exists i :: 0 <= i < |to| && to[i] in b && e in Cell(b, to[i]).entities)
    && EndpointsQualify(to[0], to[|to| - 1])
  }

  /**
   * The first two checks of `move` (src/controller/Game.ts:70-82) on the new
   * tiles themselves, whichever map they belong to: one tile per letter of
   * the name, and one of them listing `e`.
   */
  ghost predicate ListedAlong(e: Entity, ts: seq<Tile>)
    reads set t | t in ts
  {
    |e.name| == |ts| && exists i :: 0 <= i < |ts| && e in ts[i].entities
  }

  /**
   * The first and the last of `ts` are tiles of the map whose tiles are
   * `cells`; otherwise `getTileLocation` gives `undefined` for one of them
   * and the endpoint check of `move` (src/controller/Game.ts:85) throws.
   */
  ghost predicate EndsOn(cells: set<Tile>, ts: seq<Tile>)
  {
    |ts| > 0 && ts[0] in cells && ts[|ts| - 1] in cells
  }

  /** Every tile of `ts` is one of `cells`. */
  ghost predicate AllOn(cells: set<Tile>, ts: seq<Tile>)
  {
    forall i :: 0 <= i < |ts| ==> ts[i] in cells
  }

  /**
   * Along a straight compass line, a word passes the checks exactly when it
   * has 1 or 4 letters and one of the line's tiles lists it: longer and
   * shorter words can never slide or turn.
   */
  lemma LineAdmitsIff(b: Board, e: Entity, head: Pos, dir: Pos, n: nat)
    requires IsCompass(dir) && forall i :: 0 <= i < n ==> LineOf(head, dir, n)[i] in b
    ensures Admits(b, e, n, LineOf(head, dir, n)) <==>
      (n == 1 || n == 4) && exists i :: 0 <= i < n && e in Cell(b, LineOf(head, dir, n)[i]).entities
  {
    if n >= 1 {
      LineQualifiesIff(head, dir, n);
    }
  }

  // ------------------------------------------------------------ the collision sweep

  /**
   * What the collision sweep has done so far: the player's health and
   * inventory, the health of each Character met, and how many new levels
   * the Doors asked for.
   */
  datatype Sweep = Sweep(playerHealth: int, inventory: seq<Entity>, healths: map<Entity, int>, requests: nat)

  /**
   * One `playerCollision()` of the sweep, by the kind of `e`: a Character
   * fights the player to the end, an Item or a Key joins the inventory once,
   * a Door asks for one level per Key held, Ground and Player do nothing.
   */
  function Meet(s: Sweep, e: Entity, damage: int): (r: Sweep)
    requires damage > 0 && (e.kind == CharacterKind ==> e in s.healths)
    ensures r.healths.Keys == s.healths.Keys
  {
    match e.kind
    case CharacterKind =>
      var b := Fight(s.playerHealth, s.healths[e], damage, e.attackDamage);
      s.(playerHealth := b.playerHealth, healths := s.healths[e := b.enemyHealth])
    case ItemKind => s.(inventory := WithItem(s.inventory, e))
    case KeyKind => s.(inventory := WithItem(s.inventory, e))
    case DoorKind => s.(requests := s.requests + CountKeys(s.inventory))
    case GroundKind => s
    case PlayerKind => s
  }

  /** The sweep over a whole list of occupants, first to last. */
  function MeetAll(s: Sweep, es: seq<Entity>, damage: int): (r: Sweep)
    requires damage > 0 && forall e :: e in es && e.kind == CharacterKind ==> e in s.healths
    ensures r.healths.Keys == s.healths.Keys
    decreases |es|
  {
    if es == [] then s else MeetAll(Meet(s, es[0], damage), es[1..], damage)
  }

  /**
   * The sweep only adds to the inventory, and every Item and Key on the tile
   * ends up in it.
   */
  lemma {:induction false} MeetAllCollects(s: Sweep, es: seq<Entity>, damage: int)
    requires damage > 0 && forall e :: e in es && e.kind == CharacterKind ==> e in s.healths
    ensures s.inventory <= MeetAll(s, es, damage).inventory
    ensures forall e :: e in es && (e.kind == ItemKind || e.kind == KeyKind) ==> e in MeetAll(s, es, damage).inventory
    decreases |es|
  {
    if es != [] {
      var s' := Meet(s, es[0], damage);
      MeetAllCollects(s', es[1..], damage);
      assert s.inventory <= s'.inventory;
      if es[0].kind == ItemKind || es[0].kind == KeyKind {
        WithItemOnce(s.inventory, es[0]);
      }
      forall e | e in es && (e.kind == ItemKind || e.kind == KeyKind)
        ensures e in MeetAll(s, es, damage).inventory
      {
        if e != es[0] {
          assert e in es[1..];
        } else {
          assert e in s'.inventory;
          var k :| 0 <= k < |s'.inventory| && s'.inventory[k] == e;
          assert MeetAll(s', es[1..], damage).inventory[k] == e;
        }
      }
    }
  }

  /** Without a Door on the tile, the sweep asks for no new level. */
  lemma {:induction false} MeetAllWithoutDoor(s: Sweep, es: seq<Entity>, damage: int)
    requires damage > 0 && forall e :: e in es && e.kind == CharacterKind ==> e in s.healths
    requires forall e :: e in es ==> e.kind != DoorKind
    ensures MeetAll(s, es, damage).requests == s.requests
    decreases |es|
  {
    if es != [] {
      assert es[0] in es;
      MeetAllWithoutDoor(Meet(s, es[0], damage), es[1..], damage);
    }
  }

  // ------------------------------------------------------------ the selection

  /**
   * The selection after a click on `t` (build.js:747-762): appended when
   * absent, otherwise removed with `splice(indexOf(t), 1)`.
   */
  function Toggled(sel: seq<Tile>, t: Tile): seq<Tile>
  {
    if t in sel then RemoveLetterFrom(sel, t) else sel + [t]
  }

  /** No tile occurs twice. */
  predicate NoRepeats(sel: seq<Tile>)
  {
    forall i, j :: 0 <= i < j < |sel| ==> sel[i] != sel[j]
  }

  /**
   * A click flips whether its tile is selected and leaves every other tile
   * as it was; a selection without repeats keeps none.
   */
  lemma ToggleFlips(sel: seq<Tile>, t: Tile)
    requires NoRepeats(sel)
    ensures NoRepeats(Toggled(sel, t))
    ensures t in Toggled(sel, t) <==> t !in sel
    ensures forall u :: u != t ==> (u in Toggled(sel, t) <==> u in sel)
  {
    if t in sel {
      RemoveLetterPresent(sel, t);
      var k := IndexOf(sel, t);
      var r := sel[..k] + sel[k + 1..];
      assert forall i :: 0 <= i < |r| ==> r[i] == sel[if i < k then i else i + 1];
      forall u | u in sel && u != t
        ensures u in r
      {
        var j :| 0 <= j < |sel| && sel[j] == u;
        assert r[if j < k then j else j - 1] == u;
      }
    } else {
      var r := sel + [t];
      assert forall i :: 0 <= i < |sel| ==> r[i] == sel[i];
    }
  }

  /** Clicking an unselected tile twice gives the selection back. */
  lemma ToggleTwice(sel: seq<Tile>, t: Tile)
    requires t !in sel
    ensures Toggled(Toggled(sel, t), t) == sel
  {
    assert t in sel + [t] by { assert (sel + [t])[|sel|] == t; }
    PushThenRemoveLetter(sel, t);
  }

  // ------------------------------------------------------------ the game

  /**
   * What `move` demands of its caller: once the checks pass on board `b` of
   * map `m`, the map lists `entity` on at least as many tiles as its name has
   * letters, or `oldLocation[i]` is undefined in the commit loop.
   */
  ghost predicate OldTilesSuffice(m: TileMap, b: Board, entity: Entity, to: seq<Pos>)
  {
    m.OnMap(to) && Admits(b, entity, |entity.name|, to) ==> |Found(b, entity, m.height, m.width, 0)| >= |entity.name|
  }

  /**
   * A move of `entity` onto the coordinates `to` took board `b0` of map `m`
   * to `b1` and left the entity at `location`: `b1` is the commit of that
   * move and `location` is `to`.
   */
  ghost predicate MovedTo(m: TileMap, b0: Board, b1: Board, entity: Entity, location: seq<Pos>, to: seq<Pos>)
  {
    var from := Found(b0, entity, m.height, m.width, 0);
    |to| == |entity.name| <= |from| && b1 == Commit(b0, from, to, entity, entity.name, 0) && location == to
  }

  /**
   * After a move the last new tile shows the last letter of the name and
   * lists the entity, whatever the earlier steps did to the same tile.
   */
  lemma MovedLastCell(m: TileMap, b0: Board, b1: Board, entity: Entity, location: seq<Pos>, to: seq<Pos>)
    requires MovedTo(m, b0, b1, entity, location, to) && |to| > 0 && to[|to| - 1] in b0
    ensures to[|to| - 1] in b1
    ensures var c := Cell(b1, to[|to| - 1]);
      Top(c.letters) == Some(entity.name[|entity.name| - 1]) && entity in c.entities
  {
    CommitLastCell(b0, Found(b0, entity, m.height, m.width, 0), to, entity, entity.name, 0);
  }

  class Game {
    var tileMap: TileMap
    const player: Entity
    var selected: seq<Tile>
    /**
     * `colliding` is the very occupant list of the tile the last collision
     * happened on, so it follows that tile; `null` stands for a fresh empty list.
     */
    var collidingTile: Tile?

    /** The map is valid and the player is the hero, who hits. */
    ghost predicate Valid()
      reads this, tileMap, tileMap.cells
    {
      tileMap.Valid() && player.kind == PlayerKind && player.attackDamage > 0
    }

    /**
     * The `colliding` getter: empty until a collision, then the very occupant
     * list of the tile collided on, so it shows that tile's later changes.
     */
    function Colliding(): (r: seq<Entity>)
      reads this, collidingTile
      ensures collidingTile == null ==> r == []
      ensures collidingTile != null ==> r == collidingTile.entities
    {
      if collidingTile == null then [] else collidingTile.entities
    }

    /**
     * `new Game()` (src/controller/Game.ts:10-20) once its world exists:
     * `level` is the 15 x 15 map with the hero and the other entities
     * already inserted, an outcome this model takes as given.
     */
    constructor (level: TileMap, hero: Entity)
      requires level.Valid() && level.width == 15 && level.height == 15 && hero in level.entities
      requires hero.kind == PlayerKind && hero.name == "Hero" && hero.attackDamage == 1
      ensures Valid() && tileMap == level && player == hero
      ensures selected == [] && Colliding() == []
    {
      selected := [];
      tileMap := level;
      player := hero;
      collidingTile := null;
    }

    /**
     * The three checks of `move` (src/controller/Game.ts:70-89), changing
     * nothing. The new tiles may come from an earlier map (the selection
     * outlives `newLevel`); only the endpoint check needs the first and the
     * last on this map.
     */
    method Admissible(entity: Entity, newLocation: seq<Tile>) returns (ok: bool)
      requires Valid() && (ListedAlong(entity, newLocation) ==> EndsOn(tileMap.TileSet(), newLocation))
      ensures ok <==> ListedAlong(entity, newLocation)
                      && EndpointsQualify(newLocation[0].at, newLocation[|newLocation| - 1].at)
      ensures AllOn(tileMap.TileSet(), newLocation) ==> ok == Admits(tileMap.board, entity, |entity.name|, Ats(newLocation))
    {
      if |entity.name| != |newLocation| {
        return false;
      }
      var i := |newLocation| - 1;
      while i >= 0
        invariant -1 <= i < |newLocation|
        invariant forall j :: i < j < |newLocation| ==> entity !in newLocation[j].entities
      {
        if entity in newLocation[i].entities {
          break;
        }
        i := i - 1;
      }
      if i == -1 {
        OnMapAdmits(entity, newLocation);
        return false;
      }
      var first := tileMap.GetTileLocation(newLocation[0]);
      var last := tileMap.GetTileLocation(newLocation[|newLocation| - 1]);
      var xdiff := Abs(first.value.0 - last.value.0);
      var ydiff := Abs(first.value.1 - last.value.1);
      OnMapAdmits(entity, newLocation);
      if (ydiff != 3 && ydiff != 0) || (xdiff != 3 && xdiff != 0) {
        return false;
      }
      return true;
    }

    /** On this map's tiles, the checks on the tiles are the checks on the board. */
    lemma OnMapAdmits(entity: Entity, newLocation: seq<Tile>)
      requires Valid()
      ensures AllOn(tileMap.TileSet(), newLocation) ==>
        (Admits(tileMap.board, entity, |entity.name|, Ats(newLocation)) <==>
         ListedAlong(entity, newLocation) && EndpointsQualify(newLocation[0].at, newLocation[|newLocation| - 1].at))
    {
      if AllOn(tileMap.TileSet(), newLocation) {
        ghost var to := Ats(newLocation);
        forall i | 0 <= i < |newLocation|
          ensures to[i] in tileMap.board && Cell(tileMap.board, to[i]).entities == newLocation[i].entities
        {
          tileMap.StateOf(newLocation[i]);
        }
      }
    }

    /**
     * `move(entity, newLocation)` (src/controller/Game.ts:68-109): when the
     * checks pass, step i takes the entity and the top letter off the i-th
     * tile listing it in scan order and puts the entity and the i-th letter
     * of its name on the i-th new tile; then the entity's location is the new
     * tiles' coordinates (through the setter, which also sets `head` and
     * `dir`) and the selection is emptied. Otherwise nothing changes.
     */
    method Move(entity: Entity, newLocation: seq<Tile>) returns (moved: bool)
      requires Valid() && (ListedAlong(entity, newLocation) ==> EndsOn(tileMap.TileSet(), newLocation))
      requires ListedAlong(entity, newLocation) && EndpointsQualify(newLocation[0].at, newLocation[|newLocation| - 1].at)
        ==> AllOn(tileMap.TileSet(), newLocation)
      requires OldTilesSuffice(tileMap, tileMap.board, entity, Ats(newLocation))
      modifies tileMap.TileSet()`letters, tileMap.TileSet()`entities, tileMap`board, this`selected
      modifies entity`location, entity`head, entity`dir, entity`headAliasesFront
      ensures Valid()
      ensures moved <==> old(ListedAlong(entity, newLocation))
                         && EndpointsQualify(newLocation[0].at, newLocation[|newLocation| - 1].at)
      ensures AllOn(tileMap.TileSet(), newLocation) ==> moved == Admits(old(tileMap.board), entity, |entity.name|, Ats(newLocation))
      ensures moved ==>
        MovedTo(tileMap, old(tileMap.board), tileMap.board, entity, entity.location, Ats(newLocation)) && selected == []
        && entity.FollowsLocation(Ats(newLocation), old(entity.head), old(entity.dir))
      ensures !moved ==> tileMap.board == old(tileMap.board) && selected == old(selected) && unchanged(entity)
    {
      moved := Admissible(entity, newLocation);
      if moved {
        Carry(entity, newLocation);
      }
    }

    /**
     * What `move` does once its checks have passed (src/controller/Game.ts:92-107):
     * the commit onto the new tiles, then the new location and the emptied selection.
     */
    method Carry(entity: Entity, newLocation: seq<Tile>)
      requires Valid() && AllOn(tileMap.TileSet(), newLocation)
      requires Admits(tileMap.board, entity, |entity.name|, Ats(newLocation))
      requires OldTilesSuffice(tileMap, tileMap.board, entity, Ats(newLocation))
      modifies tileMap.TileSet()`letters, tileMap.TileSet()`entities, tileMap`board, this`selected
      modifies entity`location, entity`head, entity`dir, entity`headAliasesFront
      ensures Valid()
      ensures MovedTo(tileMap, old(tileMap.board), tileMap.board, entity, entity.location, Ats(newLocation)) && selected == []
      ensures entity.FollowsLocation(Ats(newLocation), old(entity.head), old(entity.dir))
    {
      var curLocation := tileMap.MoveTiles(entity, newLocation);
      Relocate(entity, curLocation);
    }

    /**
     * The end of `move` (src/controller/Game.ts:106-107): the location is set
     * through its setter and the selection is emptied; the tiles are left alone.
     */
    method Relocate(entity: Entity, curLocation: seq<Pos>)
      requires Valid()
      modifies entity`location, entity`head, entity`dir, entity`headAliasesFront, this`selected
      ensures Valid() && selected == []
      ensures entity.location == curLocation && entity.FollowsLocation(curLocation, old(entity.head), old(entity.dir))
      ensures tileMap.board == old(tileMap.board)
    {
      entity.SetLocation(curLocation);
      selected := [];
    }

    /**
     * The lookup and the move that `headshift` and `changeDir` share
     * (src/controller/Game.ts:115-116, 125-126): the tiles of the line of the
     * entity's length from `head` along `dir`, and `move` onto them when none
     * of them is missing. A line at least two long has `head` as its first
     * entry and `dir` as its step, so a move leaves `head` and `dir` as given.
     */
    method MoveAlong(entity: Entity, head: Pos, dir: Pos) returns (moved: bool)
      requires Valid() && OldTilesSuffice(tileMap, tileMap.board, entity, LineOf(head, dir, |entity.name|))
      modifies tileMap.TileSet()`letters, tileMap.TileSet()`entities, tileMap`board, this`selected
      modifies entity`location, entity`head, entity`dir, entity`headAliasesFront
      ensures Valid()
      ensures moved == (tileMap.OnMap(LineOf(head, dir, |entity.name|))
                        && Admits(old(tileMap.board), entity, |entity.name|, LineOf(head, dir, |entity.name|)))
      ensures moved ==> MovedTo(tileMap, old(tileMap.board), tileMap.board, entity, entity.location, LineOf(head, dir, |entity.name|)) && selected == []
      ensures moved && |entity.name| >= 2 ==> entity.head == Some(head) && entity.dir == Some(dir) && entity.headAliasesFront
      ensures moved && |entity.name| < 2 ==>
        entity.head == old(entity.head) && entity.dir == old(entity.dir) && !entity.headAliasesFront
      ensures !moved ==> tileMap.board == old(tileMap.board) && selected == old(selected) && unchanged(entity)
    {
      var points := TileMap.Line(head, dir, |entity.name|);
      var line := tileMap.GetTiles(points);
      if IndexOf(line, null) != -1 {
        return false;
      }
      var tiles: seq<Tile> := line;
      tileMap.AtsOfLookups(tiles, points);
      if |entity.name| >= 2 {
        LineHeadAndStep(head, dir, |entity.name|);
      }
      assert AllOn(tileMap.TileSet(), tiles);
      moved := Move(entity, tiles);
    }

    /**
     * `headshift(entity, mul)` (src/controller/Game.ts:111-122): the head is
     * moved by `mul` steps in place before anything is checked (and with it
     * the first entry of the location, which is the same array while the
     * location setter put it there); the word then moves onto the line of
     * its length from the new head along its direction, if that line lies on
     * the map and passes the checks of `move`. A refused shift leaves the
     * head moved.
     */
    method HeadShift(entity: Entity, mul: int) returns (shifted: bool)
      requires Valid() && entity.head.Some? && entity.dir.Some?
      requires entity.headAliasesFront ==> |entity.location| > 0
      requires OldTilesSuffice(tileMap, tileMap.board, entity,
        LineOf(Add(entity.head.value, Scale(mul, entity.dir.value)), entity.dir.value, |entity.name|))
      modifies tileMap.TileSet()`letters, tileMap.TileSet()`entities, tileMap`board, this`selected
      modifies entity`location, entity`head, entity`dir, entity`headAliasesFront
      ensures Valid()
      ensures entity.head == Some(Add(old(entity.head.value), Scale(mul, old(entity.dir.value))))
      ensures entity.dir == old(entity.dir)
      ensures shifted == (tileMap.OnMap(LineOf(entity.head.value, entity.dir.value, |entity.name|))
                          && Admits(old(tileMap.board), entity, |entity.name|, LineOf(entity.head.value, entity.dir.value, |entity.name|)))
      ensures shifted ==>
        MovedTo(tileMap, old(tileMap.board), tileMap.board, entity, entity.location, LineOf(entity.head.value, entity.dir.value, |entity.name|)) && selected == []
        && !entity.headAliasesFront
      ensures !shifted ==>
        tileMap.board == old(tileMap.board) && selected == old(selected)
        && entity.headAliasesFront == old(entity.headAliasesFront)
        && entity.location == if old(entity.headAliasesFront) then old(entity.location)[0 := entity.head.value] else old(entity.location)
    {
      var dir := entity.dir.value;
      var newHead := Add(entity.head.value, Scale(mul, dir));
      ShiftHeadInPlace(entity, newHead);
      shifted := MoveAlong(entity, newHead, dir);
      if shifted {
        ResetHead(entity, newHead);
      }
    }

    /**
     * The first step of `headshift` (src/controller/Game.ts:112-114): the head
     * array is shifted in place, so while it is the location's first entry
     * that entry moves with it.
     */
    method ShiftHeadInPlace(entity: Entity, h: Pos)
      requires Valid() && (entity.headAliasesFront ==> |entity.location| > 0)
      modifies entity`head, entity`location
      ensures Valid() && entity.head == Some(h)
      ensures entity.location == if entity.headAliasesFront then old(entity.location)[0 := h] else old(entity.location)
      ensures tileMap.board == old(tileMap.board) && selected == old(selected)
      ensures entity.dir == old(entity.dir) && entity.headAliasesFront == old(entity.headAliasesFront)
    {
      entity.head := Some(h);
      if entity.headAliasesFront {
        entity.location := entity.location[0 := h];
      }
    }

    /**
     * `entity.head = newHead` after a successful shift (src/controller/Game.ts:117):
     * the head setter stores the array, which is no longer the location's first entry.
     */
    method ResetHead(entity: Entity, h: Pos)
      requires Valid()
      modifies entity`head, entity`headAliasesFront
      ensures Valid() && entity.head == Some(h) && !entity.headAliasesFront
      ensures tileMap.board == old(tileMap.board) && selected == old(selected)
      ensures entity.location == old(entity.location) && entity.dir == old(entity.dir)
    {
      entity.head := Some(h);
      entity.headAliasesFront := false;
    }

    /**
     * `changeDir(entity, dir)` (src/controller/Game.ts:124-132): the word
     * moves onto the line of its length from its head along `dir`, if that
     * line lies on the map and passes the checks of `move`; only then is
     * `dir` its new direction. The head stays where it was.
     */
    method ChangeDir(entity: Entity, dir: Pos) returns (changed: bool)
      requires Valid() && entity.head.Some?
      requires OldTilesSuffice(tileMap, tileMap.board, entity, LineOf(entity.head.value, dir, |entity.name|))
      modifies tileMap.TileSet()`letters, tileMap.TileSet()`entities, tileMap`board, this`selected
      modifies entity`location, entity`head, entity`dir, entity`headAliasesFront
      ensures Valid()
      ensures changed == (tileMap.OnMap(LineOf(old(entity.head.value), dir, |entity.name|))
                          && Admits(old(tileMap.board), entity, |entity.name|, LineOf(old(entity.head.value), dir, |entity.name|)))
      ensures changed ==>
        MovedTo(tileMap, old(tileMap.board), tileMap.board, entity, entity.location, LineOf(old(entity.head.value), dir, |entity.name|)) && selected == []
        && entity.dir == Some(dir) && entity.head == old(entity.head)
        && (entity.headAliasesFront <==> |entity.name| >= 2)
      ensures !changed ==> tileMap.board == old(tileMap.board) && selected == old(selected) && unchanged(entity)
    {
      changed := MoveAlong(entity, entity.head.value, dir);
      if changed {
        SetDir(entity, dir);
      }
    }

    /** `entity.dir = dir` after a successful turn (src/controller/Game.ts:127), through the setter. */
    method SetDir(entity: Entity, d: Pos)
      requires Valid()
      modifies entity`dir
      ensures Valid() && entity.dir == Some(d)
      ensures tileMap.board == old(tileMap.board) && selected == old(selected)
      ensures entity.location == old(entity.location) && entity.head == old(entity.head) && entity.headAliasesFront == old(entity.headAliasesFront)
    {
      entity.dir := Some(d);
    }

    /**
     * `rotateDir(entity, clockwise)` (src/controller/Game.ts:134-137): turn
     * the word to the direction 45 degrees on, through `changeDir`.
     */
    method RotateDir(entity: Entity, clockwise: bool) returns (changed: bool)
      requires Valid() && entity.head.Some? && entity.dir.Some?
      requires OldTilesSuffice(tileMap, tileMap.board, entity, LineOf(entity.head.value, Rotate(entity.dir.value, clockwise), |entity.name|))
      modifies tileMap.TileSet()`letters, tileMap.TileSet()`entities, tileMap`board, this`selected
      modifies entity`location, entity`head, entity`dir, entity`headAliasesFront
      ensures Valid()
      ensures changed == (tileMap.OnMap(LineOf(old(entity.head.value), Rotate(old(entity.dir.value), clockwise), |entity.name|))
                          && Admits(old(tileMap.board), entity, |entity.name|,
                                    LineOf(old(entity.head.value), Rotate(old(entity.dir.value), clockwise), |entity.name|)))
      ensures changed ==>
        MovedTo(tileMap, old(tileMap.board), tileMap.board, entity, entity.location, LineOf(old(entity.head.value), Rotate(old(entity.dir.value), clockwise), |entity.name|)) && selected == []
        && entity.dir == Some(Rotate(old(entity.dir.value), clockwise)) && entity.head == old(entity.head)
      ensures !changed ==> tileMap.board == old(tileMap.board) && selected == old(selected) && unchanged(entity)
    {
      var newdir := Rotate(entity.dir.value, clockwise);
      changed := ChangeDir(entity, newdir);
    }

    /** The health of each Character listed in `es`. */
    function Healths(es: seq<Entity>): map<Entity, int>
      reads set e | e in es
    {
      map e: Entity | e in es && e.kind == CharacterKind :: e.health
    }

    /**
     * `checkPlayerCollision(tile)` (src/controller/Game.ts:23-31): on a tile
     * listing the player among more than two occupants, `colliding` becomes
     * that tile's list and every occupant's `playerCollision()` runs in list
     * order. The Doors' `newLevel()` calls are returned as a count for the
     * caller to make after the sweep.
     */
    method CheckPlayerCollision(tile: Tile) returns (acted: bool, levelRequests: nat)
      requires Valid()
      modifies this`collidingTile, player`health, player`inventory, (set e | e in tile.entities)`health
      ensures Valid()
      ensures acted <==> player in tile.entities && |tile.entities| > 2
      ensures acted ==> collidingTile == tile && Colliding() == tile.entities
      ensures acted ==>
        var s := MeetAll(Sweep(old(player.health), old(player.inventory), old(Healths(tile.entities)), 0),
                         tile.entities, player.attackDamage);
        player.health == s.playerHealth && player.inventory == s.inventory && levelRequests == s.requests
        && Healths(tile.entities) == s.healths
      ensures !acted ==>
        collidingTile == old(collidingTile) && levelRequests == 0
        && player.health == old(player.health) && player.inventory == old(player.inventory)
        && Healths(tile.entities) == old(Healths(tile.entities))
    {
      var es := tile.entities;
      levelRequests := 0;
      acted := player in es && |es| > 2;
      if !acted {
        return;
      }
      collidingTile := tile;
      levelRequests := MeetOccupants(es);
    }

    /**
     * The loop of `checkPlayerCollision` (src/controller/Game.ts:26-28): every
     * occupant's `playerCollision()`, in list order, is one step of `MeetAll`.
     */
    method MeetOccupants(es: seq<Entity>) returns (levelRequests: nat)
      requires Valid()
      modifies player`health, player`inventory, (set e | e in es)`health
      ensures Valid() && collidingTile == old(collidingTile)
      ensures var s := MeetAll(Sweep(old(player.health), old(player.inventory), old(Healths(es)), 0), es, player.attackDamage);
        player.health == s.playerHealth && player.inventory == s.inventory && levelRequests == s.requests
        && Healths(es) == s.healths
    {
      ghost var s0 := Sweep(player.health, player.inventory, Healths(es), 0);
      levelRequests := 0;
      var damage := player.attackDamage;
      ghost var s := s0;
      var i := 0;
      while i < |es|
        invariant Valid() && i <= |es| && collidingTile == old(collidingTile) && s.healths.Keys == s0.healths.Keys
        invariant MeetAll(s, es[i..], damage) == MeetAll(s0, es, damage)
        invariant player.health == s.playerHealth && player.inventory == s.inventory && levelRequests == s.requests
        invariant forall e :: e in s.healths ==> e.health == s.healths[e]
      {
        var e := es[i];
        assert es[i..][1..] == es[i + 1..];
        var r := Encounter(e, s);
        levelRequests := levelRequests + r;
        s := Meet(s, e, damage);
        i := i + 1;
      }
      assert Healths(es) == s.healths;
    }

    /**
     * One pass of the loop of `checkPlayerCollision` (src/controller/Game.ts:27):
     * the occupant's `playerCollision()`, which is one step `Meet` of the sweep;
     * returns the new levels it asked for.
     */
    method Encounter(e: Entity, ghost s: Sweep) returns (r: nat)
      requires Valid() && (e.kind == CharacterKind ==> e in s.healths) && player !in s.healths
      requires player.health == s.playerHealth && player.inventory == s.inventory
      requires forall x :: x in s.healths ==> x.health == s.healths[x]
      modifies e`health, player`health, player`inventory
      ensures Valid() && collidingTile == old(collidingTile)
      ensures var t := Meet(s, e, player.attackDamage);
        player.health == t.playerHealth && player.inventory == t.inventory && s.requests + r == t.requests
        && forall x :: x in t.healths ==> x.health == t.healths[x]
    {
      r := e.PlayerCollision(player);
    }

    /**
     * `newLevel()` (src/controller/Game.ts:49-54): `level` is the fresh
     * 15 x 15 map with the same player and a new set of entities inserted, an
     * outcome this model takes as given; `colliding` is emptied and the
     * selection is left alone.
     */
    method NewLevel(level: TileMap)
      requires Valid() && level.Valid() && level.width == 15 && level.height == 15 && player in level.entities
      modifies this`tileMap, this`collidingTile
      ensures Valid() && tileMap == level && Colliding() == [] && selected == old(selected)
    {
      collidingTile := null;
      tileMap := level;
    }

    /**
     * A mouse press on `(x, y)` (build.js:747-762): on the map, the tile
     * there is selected if it was not and deselected if it was; off the
     * map nothing happens.
     */
    method ToggleSelected(x: int, y: int)
      requires Valid()
      modifies this`selected
      ensures Valid()
      ensures tileMap.InBounds((x, y)) ==> selected == Toggled(old(selected), tileMap.TileAt((x, y)))
      ensures !tileMap.InBounds((x, y)) ==> selected == old(selected)
    {
      if x >= 0 && x < tileMap.width && y >= 0 && y < tileMap.height {
        var tile := tileMap.tiles[x][y];
        if !(tile in selected) {
          selected := selected + [tile];
        } else {
          var index := IndexOf(selected, tile);
          selected := SpliceKept(selected, index, 1);
        }
      }
    }
  }
}
