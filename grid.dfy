/**
 * The letter grid (build.js:50-194): a fixed `width` x `height` table of
 * tiles, the list of every entity placed on it, the placement attempt of
 * `insertEntity`, and the queries the movement engine relies on. What the
 * tiles hold is read as a `Board` value, so that every change is stated as
 * a function on boards.
 */
module Grid {
  import opened Wrappers
  import opened Stacks
  import opened Geometry
  import opened Entities
  import opened Tiles
  import opened Boards

  /** `g` is the Ground the constructor draws for `(x, y)` from the random value `ground(x, y)`. */
  predicate GroundFor(g: Entity, x: nat, y: nat, ground: (nat, nat) -> real)
  {
    0.0 <= ground(x, y) < 1.0 && g.kind == GroundKind && g.name == [Alphabet[Pick(ground(x, y), 26)]]
  }

  /** The four `Math.random()` values one call of `randomPosDir` draws, in call order. */
  datatype Draw = Draw(x: real, y: real, xStep: real, yStep: real)

  predicate ValidDraw(d: Draw)
  {
    0.0 <= d.x < 1.0 && 0.0 <= d.y < 1.0 && 0.0 <= d.xStep < 1.0 && 0.0 <= d.yStep < 1.0
  }

  /** `[x, y, xStep, yStep]`: where a placement attempt starts and the step it walks by. */
  datatype Placement = Placement(x: int, y: int, dx: int, dy: int)

  /** The coordinates an attempt to place a word of `n` letters from `p` walks through. */
  function PathOf(p: Placement, n: nat): seq<Pos>
  {
    LineOf((p.x, p.y), (p.dx, p.dy), n)
  }

  /** Where the map put each of `ts`. */
  ghost function Ats(ts: seq<Tile>): (qs: seq<Pos>)
    ensures |qs| == |ts| && forall i :: 0 <= i < |ts| ==> qs[i] == ts[i].at
  {
    seq(|ts|, i requires 0 <= i < |ts| => ts[i].at)
  }

  class TileMap {
    const width: nat
    const height: nat
    const tiles: seq<seq<Tile>>
    var entities: seq<Entity>
    /** The tiles of the map, as a set. */
    ghost const cells: set<Tile>
    /** What the tiles hold, as a value. */
    ghost var board: Board

    /**
     * `tiles[x][y]` exists exactly for `0 <= x < width`, `0 <= y < height`
     * and knows its place, and `cells` holds exactly those tiles.
     */
    static ghost predicate Laid(width: nat, height: nat, tiles: seq<seq<Tile>>, cells: set<Tile>)
    {
      |tiles| == width && (forall x :: 0 <= x < width ==> |tiles[x]| == height)
      && (forall x, y :: 0 <= x < width && 0 <= y < height ==>
            tiles[x][y] in cells && tiles[x][y].at == (x, y))
      && (forall t :: t in cells ==> 0 <= t.at.0 < width && 0 <= t.at.1 < height && tiles[t.at.0][t.at.1] == t)
    }

    /** The tiles are laid out and `board` is what they hold. */
    static ghost predicate Table(width: nat, height: nat, tiles: seq<seq<Tile>>, cells: set<Tile>, board: Board)
      reads cells
    {
      Laid(width, height, tiles, cells) && Shaped(board, width, height)
      && forall x, y {:trigger tiles[x][y].State()} :: 0 <= x < width && 0 <= y < height ==> board[(x, y)] == tiles[x][y].State()
    }

    /** This map's tiles are laid out. */
    ghost predicate Wf()
    {
      Laid(width, height, tiles, cells)
    }

    /** The table is well formed and `board` is what its tiles hold. */
    ghost predicate Valid()
      reads this, cells
    {
      Table(width, height, tiles, cells, board)
    }

    predicate InBounds(p: Pos)
    {
      0 <= p.0 < width && 0 <= p.1 < height
    }

    function TileAt(p: Pos): (t: Tile)
      requires Wf() && InBounds(p)
      ensures t in TileSet() && t.at == p
    {
      tiles[p.0][p.1]
    }

    ghost function TileSet(): set<Tile>
    {
      cells
    }

    /**
     * `new TileMap(width, height)` (build.js:51-67): column by column, one
     * fresh tile per cell holding one fresh Ground and its letter; the map's
     * list has the Grounds in the same order. `ground(x, y)` is the random
     * value the Ground at `(x, y)` draws.
     */
    constructor (width: nat, height: nat, ground: (nat, nat) -> real)
      requires forall x: nat, y: nat :: 0.0 <= ground(x, y) < 1.0
      ensures Valid() && this.width == width && this.height == height
      ensures |entities| == |Scan(width, height)|
      ensures forall k :: 0 <= k < |entities| ==>
        var q := Scan(width, height)[k];
        GroundFor(entities[k], q.0, q.1, ground) && entities[k].location == [q]
        && Cell(board, q) == TileState(entities[k].name, [entities[k]])
    {
      var cols, ents, made, b, owner, keys := BuildTable(width, height, ground);
      this.width, this.height, tiles, entities := width, height, cols, ents;
      cells, board := made, b;
      FromBuilt(width, height, ground, cols, ents, made, b, owner, keys);
    }

    /** The constructor's loops: the tiles column by column, their set, what they hold and the Grounds in scan order. */
    static method BuildTable(width: nat, height: nat, ground: (nat, nat) -> real)
      returns (cols: seq<seq<Tile>>, ents: seq<Entity>, ghost made: set<Tile>, ghost b: Board,
               ghost owner: map<Pos, Entity>, ghost keys: seq<Pos>)
      requires forall x: nat, y: nat :: 0.0 <= ground(x, y) < 1.0
      ensures Built(width, height, cols, made, b)
      ensures Owned(width, height, ground, b, owner) && Listed(width, height, ents, owner, keys)
    {
      cols, ents, made, b, owner, keys := [], [], {}, map[], map[], [];
      var x := 0;
      while x < width
        invariant x <= width && Built(x, height, cols, made, b)
        invariant Owned(x, height, ground, b, owner) && Listed(x, height, ents, owner, keys)
      {
        cols, ents, made, b, owner, keys, x := AddColumn(x, height, ground, cols, ents, made, b, owner, keys);
      }
    }

    /**
     * One pass of the constructor's outer loop (build.js:56-65): column `x`
     * is built and appended; `next` is the index of the column after it.
     */
    static method AddColumn(x: nat, height: nat, ground: (nat, nat) -> real, cols: seq<seq<Tile>>, ents: seq<Entity>,
                            ghost made: set<Tile>, ghost b: Board, ghost owner: map<Pos, Entity>, ghost keys: seq<Pos>)
      returns (cols': seq<seq<Tile>>, ents': seq<Entity>, ghost made': set<Tile>, ghost b': Board,
               ghost owner': map<Pos, Entity>, ghost keys': seq<Pos>, next: nat)
      requires forall x: nat, y: nat :: 0.0 <= ground(x, y) < 1.0
      requires Built(x, height, cols, made, b)
      requires Owned(x, height, ground, b, owner) && Listed(x, height, ents, owner, keys)
      ensures next == x + 1 && Built(next, height, cols', made', b')
      ensures Owned(next, height, ground, b', owner') && Listed(next, height, ents', owner', keys')
    {
      var col, grounds, states, owners := BuildColumn(x, height, ground);
      ColumnAppended(x, height, ground, cols, ents, made, b, owner, keys, col, grounds, states, owners);
      cols', made', b', owner' := cols + [col], made + (set t | t in col), b + states, owner + owners;
      ents', keys' := ents + grounds, keys + Column(x, height);
      next := x + 1;
    }

    /** Appending a column built by `BuildColumn` takes all three facts from `x` columns to `x + 1`. */
    static lemma ColumnAppended(x: nat, height: nat, ground: (nat, nat) -> real, cols: seq<seq<Tile>>, ents: seq<Entity>,
                                made: set<Tile>, b: Board, owner: map<Pos, Entity>, keys: seq<Pos>,
                                col: seq<Tile>, grounds: seq<Entity>, states: Board, owners: map<Pos, Entity>)
      requires Built(x, height, cols, made, b)
      requires Owned(x, height, ground, b, owner) && Listed(x, height, ents, owner, keys)
      requires |col| == |grounds| == height
      requires forall q :: q in states <==> q.0 == x && 0 <= q.1 < height
      requires forall q :: q in owners <==> q.0 == x && 0 <= q.1 < height
      requires forall j :: 0 <= j < height ==>
        col[j].at == (x, j) && owners[(x, j)] == grounds[j]
        && GroundFor(grounds[j], x, j, ground) && grounds[j].location == [(x, j)]
        && states[(x, j)] == col[j].State() == TileState(grounds[j].name, [grounds[j]])
      ensures Built(x + 1, height, cols + [col], made + (set t | t in col), b + states)
      ensures Owned(x + 1, height, ground, b + states, owner + owners)
      ensures Listed(x + 1, height, ents + grounds, owner + owners, keys + Column(x, height))
    {
      ListedGrows(x, height, ents, owner, keys, grounds, owners);
      BuiltGrows(x, height, cols, made, b, col, states);
      OwnedGrows(x, height, ground, b, owner, grounds, states, owners);
    }

    /** A finished construction is a valid table whose list holds the Grounds in scan order. */
    static lemma FromBuilt(width: nat, height: nat, ground: (nat, nat) -> real, cols: seq<seq<Tile>>,
                           ents: seq<Entity>, made: set<Tile>, b: Board, owner: map<Pos, Entity>, keys: seq<Pos>)
      requires Built(width, height, cols, made, b)
      requires Owned(width, height, ground, b, owner) && Listed(width, height, ents, owner, keys)
      ensures Table(width, height, cols, made, b)
      ensures |ents| == |Scan(width, height)|
      ensures forall k :: 0 <= k < |ents| ==>
        var q := Scan(width, height)[k];
        q in owner && ents[k] == owner[q] && GroundFor(ents[k], q.0, q.1, ground)
        && ents[k].location == [q] && Cell(b, q) == TileState(ents[k].name, [ents[k]])
    {
      forall k | 0 <= k < |ents|
        ensures 0 <= Scan(width, height)[k].0 < width && 0 <= Scan(width, height)[k].1 < height
      {
      }
    }

    /**
     * After the first `x` columns: `cols` holds their tiles, each knowing its
     * place, `made` holds exactly those tiles and `b` what they hold.
     */
    static ghost predicate Built(x: nat, height: nat, cols: seq<seq<Tile>>, made: set<Tile>, b: Board)
      reads made
    {
      |cols| == x && (forall i :: 0 <= i < x ==> |cols[i]| == height)
      && Shaped(b, x, height)
      && (forall i, j :: 0 <= i < x && 0 <= j < height ==>
            cols[i][j].at == (i, j) && cols[i][j] in made && b[(i, j)] == cols[i][j].State())
      && (forall t :: t in made ==> 0 <= t.at.0 < x && 0 <= t.at.1 < height && cols[t.at.0][t.at.1] == t)
    }

    /** `owner` gives the Ground drawn on each tile of the first `x` columns, which is all the tile holds. */
    static ghost predicate Owned(x: nat, height: nat, ground: (nat, nat) -> real, b: Board, owner: map<Pos, Entity>)
      reads owner.Values
    {
      (forall q :: q in owner <==> 0 <= q.0 < x && 0 <= q.1 < height)
      && forall i, j :: 0 <= i < x && 0 <= j < height ==>
           (i, j) in b && GroundFor(owner[(i, j)], i, j, ground) && owner[(i, j)].location == [(i, j)]
           && b[(i, j)] == TileState(owner[(i, j)].name, [owner[(i, j)]])
    }

    /** `ents` lists the Grounds of the first `x` columns in scan order. */
    static ghost predicate Listed(x: nat, height: nat, ents: seq<Entity>, owner: map<Pos, Entity>, keys: seq<Pos>)
    {
      |ents| == |keys| && keys == Scan(x, height)
      && forall k :: 0 <= k < |ents| ==> keys[k] in owner && ents[k] == owner[keys[k]]
    }

    /** Appending column `x` in row order keeps the list in scan order. */
    static lemma ListedGrows(x: nat, height: nat, ents: seq<Entity>, owner: map<Pos, Entity>, keys: seq<Pos>,
                             grounds: seq<Entity>, owners: map<Pos, Entity>)
      requires Listed(x, height, ents, owner, keys)
      requires forall q :: q in owner ==> q.0 < x
      requires |grounds| == height && forall q :: q in owners <==> q.0 == x && 0 <= q.1 < height
      requires forall j :: 0 <= j < height ==> owners[(x, j)] == grounds[j]
      ensures Listed(x + 1, height, ents + grounds, owner + owners, keys + Column(x, height))
    {
      ScanGrows(x, height);
      var ents', owner', keys' := ents + grounds, owner + owners, keys + Column(x, height);
      forall k | 0 <= k < |ents'|
        ensures keys'[k] in owner' && ents'[k] == owner'[keys'[k]]
      {
        if k < |ents| {
          assert keys'[k] == keys[k] && keys[k] in owner && keys[k] !in owners;
        } else {
          assert keys'[k] == (x, k - |ents|);
        }
      }
    }

    /** Appending column `x` keeps the tiles, their set and the board in step. */
    static lemma BuiltGrows(x: nat, height: nat, cols: seq<seq<Tile>>, made: set<Tile>, b: Board,
                            col: seq<Tile>, states: Board)
      requires Built(x, height, cols, made, b)
      requires |col| == height && forall q :: q in states <==> q.0 == x && 0 <= q.1 < height
      requires forall j :: 0 <= j < height ==> col[j].at == (x, j) && states[(x, j)] == col[j].State()
      ensures Built(x + 1, height, cols + [col], made + (set t | t in col), b + states)
    {
      var cols', made', b' := cols + [col], made + (set t | t in col), b + states;
      forall t | t in made'
        ensures 0 <= t.at.0 < x + 1 && 0 <= t.at.1 < height && cols'[t.at.0][t.at.1] == t
      {
        if t !in made {
          var j :| 0 <= j < |col| && col[j] == t;
          assert cols'[x] == col;
        }
      }
    }

    /** Appending column `x` with its Grounds keeps `owner` in step with the board. */
    static lemma OwnedGrows(x: nat, height: nat, ground: (nat, nat) -> real, b: Board, owner: map<Pos, Entity>,
                            grounds: seq<Entity>, states: Board, owners: map<Pos, Entity>)
      requires Owned(x, height, ground, b, owner)
      requires |grounds| == height
      requires forall q :: q in states <==> q.0 == x && 0 <= q.1 < height
      requires forall q :: q in owners <==> q.0 == x && 0 <= q.1 < height
      requires forall j :: 0 <= j < height ==>
        owners[(x, j)] == grounds[j] && GroundFor(grounds[j], x, j, ground) && grounds[j].location == [(x, j)]
        && states[(x, j)] == TileState(grounds[j].name, [grounds[j]])
      ensures Owned(x + 1, height, ground, b + states, owner + owners)
    {
      var b', owner' := b + states, owner + owners;
      forall i, j | 0 <= i < x + 1 && 0 <= j < height
        ensures (i, j) in b' && GroundFor(owner'[(i, j)], i, j, ground) && owner'[(i, j)].location == [(i, j)]
          && b'[(i, j)] == TileState(owner'[(i, j)].name, [owner'[(i, j)]])
      {
        if i < x {
          assert (i, j) !in states && (i, j) !in owners;
        } else {
          assert owner'[(i, j)] == grounds[j];
        }
      }
    }

    /**
     * The inner loop of the constructor: column `x`, one fresh tile and one
     * fresh Ground per row; `states` is what the tiles hold.
     */
    static method BuildColumn(x: nat, height: nat, ground: (nat, nat) -> real)
      returns (col: seq<Tile>, grounds: seq<Entity>, ghost states: Board, ghost owners: map<Pos, Entity>)
      requires forall x: nat, y: nat :: 0.0 <= ground(x, y) < 1.0
      ensures |col| == |grounds| == height
      ensures forall q :: q in states <==> q.0 == x && 0 <= q.1 < height
      ensures forall q :: q in owners <==> q.0 == x && 0 <= q.1 < height
      ensures forall j :: 0 <= j < height ==>
        fresh(col[j]) && fresh(grounds[j]) && col[j].at == (x, j) && owners[(x, j)] == grounds[j]
        && GroundFor(grounds[j], x, j, ground) && grounds[j].location == [(x, j)]
        && states[(x, j)] == col[j].State() == TileState(grounds[j].name, [grounds[j]])
    {
      col, grounds, states, owners := [], [], map[], map[];
      var y := 0;
      while y < height
        invariant y <= height && |col| == |grounds| == y
        invariant forall q :: q in states <==> q.0 == x && 0 <= q.1 < y
        invariant forall q :: q in owners <==> q.0 == x && 0 <= q.1 < y
        invariant forall j :: 0 <= j < y ==>
          fresh(col[j]) && fresh(grounds[j]) && col[j].at == (x, j) && owners[(x, j)] == grounds[j]
          && GroundFor(grounds[j], x, j, ground) && grounds[j].location == [(x, j)]
          && states[(x, j)] == col[j].State() == TileState(grounds[j].name, [grounds[j]])
      {
        var t, g := NewCell(x, y, ground);
        col, grounds := col + [t], grounds + [g];
        states, owners := states[(x, y) := t.State()], owners[(x, y) := g];
        y := y + 1;
      }
    }

    /** One cell of the constructor: a fresh Ground at `(x, y)` on a fresh tile that holds it and its letter. */
    static method NewCell(x: nat, y: nat, ground: (nat, nat) -> real) returns (t: Tile, g: Entity)
      requires 0.0 <= ground(x, y) < 1.0
      ensures fresh(t) && fresh(g) && t.at == (x, y)
      ensures GroundFor(g, x, y, ground) && g.location == [(x, y)]
      ensures t.State() == TileState(g.name, [g])
    {
      g := new Entity.Ground(ground(x, y));
      g.location := g.location + [(x, y)];
      t := new Tile((x, y));
      t.AddLetter(g.name[0]);
      t.AddEntity(g);
    }

    /** `getTile(x, y)` (build.js:168-174): `null` exactly off the map. The console message is not modelled. */
    function GetTile(x: int, y: int): (t: Tile?)
      requires Wf()
      ensures t == null <==> !InBounds((x, y))
      ensures t != null ==> t == TileAt((x, y)) && t in TileSet()
    {
      if x < 0 || x >= width || y < 0 || y >= height then null else tiles[x][y]
    }

    /** `getTiles(points)` (build.js:175-181): one lookup per point, in order. */
    method GetTiles(points: seq<Pos>) returns (result: seq<Tile?>)
      requires Valid()
      ensures |result| == |points|
      ensures forall i :: 0 <= i < |points| ==>
        (result[i] == null <==> !InBounds(points[i])) &&
        (result[i] != null ==> result[i] == TileAt(points[i]))
    {
      result := [];
      var i := 0;
      while i < |points|
        invariant i <= |points| && |result| == i
        invariant forall j :: 0 <= j < i ==> result[j] == GetTile(points[j].0, points[j].1)
      {
        result := result + [GetTile(points[i].0, points[i].1)];
        i := i + 1;
      }
    }

    /** `line(head, dir, length)` (build.js:107-117): `length` coordinates from `head`, one `dir` apart. */
    static method Line(head: Pos, dir: Pos, length: nat) returns (locations: seq<Pos>)
      ensures locations == LineOf(head, dir, length)
    {
      locations := [];
      var x, y := head.0, head.1;
      var i := 0;
      while i < length
        invariant i <= length && locations == LineOf(head, dir, i)
        invariant (x, y) == Add(head, Scale(i, dir))
      {
        locations := locations + [(x, y)];
        x, y := x + dir.0, y + dir.1;
        i := i + 1;
      }
    }

    /**
     * `getTileLocation(tile)` (build.js:159-167): the coordinates of `tile`,
     * or `None` (the source's `undefined`) for a tile that is not on the map.
     */
    method GetTileLocation(tile: Tile) returns (r: Option<Pos>)
      requires Valid()
      ensures r.Some? <==> exists x, y :: 0 <= x < width && 0 <= y < height && tiles[x][y] == tile
      ensures r.Some? ==> InBounds(r.value) && TileAt(r.value) == tile
      ensures tile in TileSet() ==> r == Some(tile.at)
    {
      var x := 0;
      while x < width
        invariant x <= width
        invariant forall i, j :: 0 <= i < x && 0 <= j < height ==> tiles[i][j] != tile
      {
        var y := 0;
        while y < height
          invariant y <= height
          invariant forall j :: 0 <= j < y ==> tiles[x][j] != tile
        {
          if tiles[x][y] == tile {
            return Some((x, y));
          }
          y := y + 1;
        }
        x := x + 1;
      }
      return None;
    }

    /**
     * `getEntityTiles(entity)` (build.js:182-193): the tiles listing `entity`,
     * column by column.
     */
    method GetEntityTiles(entity: Entity) returns (entityTiles: seq<Tile>)
      requires Valid()
      ensures var found := Found(board, entity, height, width, 0);
        |entityTiles| == |found| && forall k :: 0 <= k < |found| ==> InBounds(found[k]) && entityTiles[k] == TileAt(found[k])
    {
      entityTiles := [];
      ghost var found: seq<Pos> := [];
      var x := 0;
      while x < width
        invariant x <= width && found == Found(board, entity, height, x, 0)
        invariant |entityTiles| == |found|
        invariant forall k :: 0 <= k < |found| ==> InBounds(found[k]) && entityTiles[k] == TileAt(found[k])
      {
        var y := 0;
        while y < height
          invariant y <= height && found == Found(board, entity, height, x, y)
          invariant |entityTiles| == |found|
          invariant forall k :: 0 <= k < |found| ==> InBounds(found[k]) && entityTiles[k] == TileAt(found[k])
        {
          var curr := GetTile(x, y);
          StateOf(curr);
          if curr.ContainsEntity(entity) {
            entityTiles, found := entityTiles + [curr], found + [(x, y)];
          }
          y := y + 1;
        }
        x := x + 1;
      }
    }

    /**
     * `randomPosDir()` (build.js:80-89): a start anywhere on the map and a
     * compass step, from the four `Math.random()` values of `draw`.
     */
    function RandomPosDir(draw: Draw): (p: Placement)
      requires ValidDraw(draw) && width > 0 && height > 0
      ensures InBounds((p.x, p.y)) && IsCompass((p.dx, p.dy))
    {
      var x := Pick(draw.x, width);
      var y := Pick(draw.y, height);
      var xStep := [-1, 0, 1][Pick(draw.xStep, 3)];
      var yStep := if xStep == 0 then [-1, 1][Pick(draw.yStep, 2)] else [-1, 0, 1][Pick(draw.yStep, 3)];
      Placement(x, y, xStep, yStep)
    }

    // ------------------------------------------------------------ insertEntity

    /**
     * One turn of the walk of `insertEntity` (build.js:125-130): whether the
     * tile at `q` takes letter `c`, and if so the push of `c` onto it.
     */
    method Offer(q: Pos, c: char) returns (ok: bool)
      requires Valid()
      modifies TileSet()`letters, this`board
      ensures Valid()
      ensures ok == Accepts(old(board), width, height, q, c)
      ensures board == if ok then Put(old(board), q, PushLetter(Cell(old(board), q), c)) else old(board)
    {
      ok := false;
      if q.0 < width && q.0 > 0 && q.1 < height && q.1 > 0 {
        var tile := tiles[q.0][q.1];
        StateOf(tile);
        if |tile.entities| == 1 || tile.TopLetter() == Some(c) {
          tile.AddLetter(c);
          board := Put(board, q, tile.State());
          Refresh(q);
          ok := true;
        }
      }
    }

    /**
     * The first loop of `insertEntity` (build.js:122-141): pushes the letters
     * of the name one by one along the walk and stops at the first tile that
     * refuses one. The letters pushed stay, whatever happens next.
     */
    method WalkLetters(entity: Entity, p: Placement, ghost line: seq<Pos>) returns (i: nat, path: seq<Pos>)
      requires Valid() && |line| == |entity.name| && Walks(line, (p.x, p.y), (p.dx, p.dy))
      modifies TileSet()`letters, this`board
      ensures Valid()
      ensures (i, board) == Walk(old(board), width, height, line, entity.name, 0)
      ensures path == line[..i]
    {
      var name := entity.name;
      var at := (p.x, p.y);
      path := [];
      i := 0;
      while i < |name|
        invariant Valid()
        invariant i <= |name| && path == line[..i]
        invariant i < |name| ==> at == line[i]
        invariant Walk(board, width, height, line, name, i) == Walk(old(board), width, height, line, name, 0)
      {
        var ok := Offer(at, name[i]);
        if !ok {
          break;
        }
        if i + 1 < |name| {
          WalksNext(line, (p.x, p.y), (p.dx, p.dy), i);
        }
        PrefixNext(line, i);
        path := path + [at];
        at := Add(at, (p.dx, p.dy));
        i := i + 1;
      }
    }

    /** `addEntity` on the tile at `q`: one turn of the second loop of `insertEntity` (build.js:149). */
    method HostAt(q: Pos, entity: Entity)
      requires Valid() && InBounds(q)
      modifies TileSet()`entities, this`board
      ensures Valid()
      ensures board == Put(old(board), q, Host(Cell(old(board), q), entity))
    {
      var tile := tiles[q.0][q.1];
      StateOf(tile);
      tile.AddEntity(entity);
      board := Put(board, q, tile.State());
      Refresh(q);
    }

    /**
     * The second loop of `insertEntity` (build.js:144-150): the entity joins
     * every tile of `path`, and the list of coordinates it builds is `path`.
     */
    method HostPath(entity: Entity, path: seq<Pos>) returns (currLocation: seq<Pos>)
      requires Valid() && forall k :: 0 <= k < |path| ==> InBounds(path[k])
      modifies TileSet()`entities, this`board
      ensures Valid()
      ensures currLocation == path
      ensures board == Hosted(old(board), path, entity, |path|)
    {
      currLocation := [];
      var k := 0;
      while k < |path|
        invariant Valid()
        invariant k <= |path| && currLocation == path[..k]
        invariant board == Hosted(old(board), path, entity, k)
      {
        PrefixNext(path, k);
        currLocation := currLocation + [path[k]];
        HostAt(path[k], entity);
        k := k + 1;
      }
    }

    /**
     * The end of a successful attempt (build.js:143-156): the entity joins
     * every tile of `path`, takes `path` as its location and is appended to
     * the map's list.
     */
    method Settle(entity: Entity, path: seq<Pos>)
      requires Valid() && forall k :: 0 <= k < |path| ==> InBounds(path[k])
      modifies TileSet()`entities, this`entities, this`board
      modifies entity`location, entity`head, entity`dir, entity`headAliasesFront
      ensures Valid()
      ensures board == Hosted(old(board), path, entity, |path|)
      ensures entities == old(entities) + [entity] && entity.location == path
      ensures |path| >= 2 ==>
        entity.head == Some(path[0]) && entity.dir == Some(Sub(path[1], path[0])) && entity.headAliasesFront
      ensures |path| < 2 ==> entity.head == old(entity.head) && entity.dir == old(entity.dir)
    {
      var currLocation := HostPath(entity, path);
      entity.SetLocation(currLocation);
      entities := entities + [entity];
    }

    /**
     * One attempt of `insertEntity` (build.js:118-157) from the start and step
     * `p`: the walk, then, if every letter found a tile, the entity joins the
     * tiles of the path, takes the path as its location and is appended to the
     * map's list. A failed attempt keeps the letters it pushed.
     */
    method TryPlace(entity: Entity, p: Placement) returns (placed: bool)
      requires Valid() && IsCompass((p.dx, p.dy))
      modifies TileSet()`letters, TileSet()`entities, this`entities, this`board
      modifies entity`location, entity`head, entity`dir, entity`headAliasesFront
      ensures Valid()
      ensures (placed, board) == Attempt(old(board), width, height, PathOf(p, |entity.name|), entity.name, entity)
      ensures placed ==> entities == old(entities) + [entity] && entity.location == PathOf(p, |entity.name|)
      ensures !placed ==> entities == old(entities) && entity.location == old(entity.location)
      ensures placed && |entity.name| >= 2 ==>
        entity.head == Some((p.x, p.y)) && entity.dir == Some((p.dx, p.dy)) && entity.headAliasesFront
      ensures !(placed && |entity.name| >= 2) ==>
        entity.head == old(entity.head) && entity.dir == old(entity.dir)
    {
      ghost var line := PathOf(p, |entity.name|);
      LineWalks((p.x, p.y), (p.dx, p.dy), |entity.name|);
      var i, path := WalkLetters(entity, p, line);
      if i == |entity.name| {
        PrefixAll(line);
        Settle(entity, path);
        if |entity.name| >= 2 {
          LineHeadAndStep((p.x, p.y), (p.dx, p.dy), |entity.name|);
        }
        placed := true;
      } else {
        placed := false;
      }
    }

    // ------------------------------------------------------------ the commit of Game.move

    /** The old tile of one step of `Game.move` (src/controller/Game.ts:94-96): it loses the entity and keeps only its top letter. */
    method VacateTile(t: Tile, entity: Entity)
      requires Valid() && t in TileSet()
      modifies TileSet()`letters, TileSet()`entities, this`board
      ensures Valid() && t.at in old(board)
      ensures board == Put(old(board), t.at, Vacate(Cell(old(board), t.at), entity))
    {
      ghost var q := t.at;
      assert InBounds(q) && TileAt(q) == t && Cell(board, q) == t.State();
      t.RemoveEntity(entity);
      t.RemoveTopLetter();
      board := Put(board, q, t.State());
      Refresh(q);
    }

    /** The new tile of one step of `Game.move` (src/controller/Game.ts:98-99): it gains the entity and the letter `c`. */
    method OccupyTile(t: Tile, entity: Entity, c: char)
      requires Valid() && t in TileSet()
      modifies TileSet()`letters, TileSet()`entities, this`board
      ensures Valid() && t.at in old(board)
      ensures board == Put(old(board), t.at, Occupy(Cell(old(board), t.at), entity, c))
    {
      ghost var q := t.at;
      assert InBounds(q) && TileAt(q) == t && Cell(board, q) == t.State();
      t.AddEntity(entity);
      t.AddLetter(c);
      board := Put(board, q, t.State());
      Refresh(q);
    }

    /** One step of the commit loop of `Game.move`: vacate `oldTile`, then occupy `newTile` with `c`. */
    method CommitStep(entity: Entity, oldTile: Tile, newTile: Tile, c: char)
      requires Valid() && oldTile in TileSet() && newTile in TileSet()
      modifies TileSet()`letters, TileSet()`entities, this`board
      ensures Valid() && oldTile.at in old(board) && newTile.at in old(board)
      ensures board == Step(old(board), oldTile.at, newTile.at, entity, c)
    {
      VacateTile(oldTile, entity);
      OccupyTile(newTile, entity, c);
    }

    /**
     * The commit loop of `Game.move` (src/controller/Game.ts:93-100): step `i`
     * empties the old tile `i` of the entity and fills the new tile `i`, in
     * that order, so a tile that is both sees both.
     */
    method CommitMove(entity: Entity, oldLocation: seq<Tile>, newLocation: seq<Tile>)
      requires Valid() && |newLocation| == |entity.name| <= |oldLocation|
      requires forall i :: 0 <= i < |oldLocation| ==> oldLocation[i] in TileSet()
      requires forall i :: 0 <= i < |newLocation| ==> newLocation[i] in TileSet()
      modifies TileSet()`letters, TileSet()`entities, this`board
      ensures Valid()
      ensures board == Commit(old(board), Ats(oldLocation), Ats(newLocation), entity, entity.name, 0)
    {
      ghost var from, to := Ats(oldLocation), Ats(newLocation);
      var name := entity.name;
      var i := 0;
      while i < |newLocation|
        invariant Valid() && i <= |newLocation|
        invariant Commit(board, from, to, entity, name, i) == Commit(old(board), from, to, entity, name, 0)
      {
        ghost var before := board;
        CommitStep(entity, oldLocation[i], newLocation[i], name[i]);
        assert board == Step(before, from[i], to[i], entity, name[i]);
        i := i + 1;
      }
    }

    /** Every coordinate of `ps` lies on the map. */
    predicate OnMap(ps: seq<Pos>)
    {
      forall i :: 0 <= i < |ps| ==> InBounds(ps[i])
    }

    /**
     * The commit of `Game.move` (src/controller/Game.ts:92-105): the tiles
     * listing `entity`, in scan order, are paired index by index with the new
     * tiles; then the new tiles' coordinates are read back.
     */
    method MoveTiles(entity: Entity, newLocation: seq<Tile>) returns (curLocation: seq<Pos>)
      requires Valid() && forall i :: 0 <= i < |newLocation| ==> newLocation[i] in TileSet()
      requires 0 < |newLocation| == |entity.name| <= |Found(board, entity, height, width, 0)|
      modifies TileSet()`letters, TileSet()`entities, this`board
      ensures Valid() && curLocation == Ats(newLocation)
      ensures board == Commit(old(board), Found(old(board), entity, height, width, 0), curLocation, entity, entity.name, 0)
    {
      ghost var found := Found(board, entity, height, width, 0);
      var oldLocation := GetEntityTiles(entity);
      AtsOfLookups(oldLocation, found);
      CommitMove(entity, oldLocation, newLocation);
      curLocation := Locations(newLocation);
    }

    /** The second loop of `Game.move` (src/controller/Game.ts:102-105): `getTileLocation` of each tile, in order. */
    method Locations(ts: seq<Tile>) returns (locs: seq<Pos>)
      requires Valid() && forall i :: 0 <= i < |ts| ==> ts[i] in TileSet()
      ensures locs == Ats(ts)
    {
      locs := [];
      var i := 0;
      while i < |ts|
        invariant i <= |ts| && |locs| == i
        invariant forall j :: 0 <= j < i ==> locs[j] == ts[j].at
      {
        var r := GetTileLocation(ts[i]);
        locs := locs + [r.value];
        i := i + 1;
      }
    }

    // ------------------------------------------------------------ lemmas on the table

    /** A tile of the map holds what `board` records at its place. */
    lemma StateOf(t: Tile)
      requires Valid() && t in TileSet()
      ensures t.at in board && Cell(board, t.at) == t.State()
    {
    }

    /** Tiles looked up one per place are the tiles at those places. */
    lemma AtsOfLookups(ts: seq<Tile>, ps: seq<Pos>)
      requires Wf() && |ts| == |ps|
      requires forall i :: 0 <= i < |ps| ==> InBounds(ps[i]) && ts[i] == TileAt(ps[i])
      ensures Ats(ts) == ps
    {
    }

    /**
     * A change confined to the tile at `q`, recorded in `board` as that one
     * cell taking the tile's new state, keeps the table valid.
     */
    twostate lemma Refresh(q: Pos)
      requires old(Valid()) && InBounds(q)
      requires forall t :: t in TileSet() && t != TileAt(q) ==> t.letters == old(t.letters) && t.entities == old(t.entities)
      requires board == Put(old(board), q, TileAt(q).State())
      ensures Valid()
    {
      forall x, y | 0 <= x < width && 0 <= y < height
        ensures board[(x, y)] == tiles[x][y].State()
      {
        if (x, y) != q {
          assert tiles[x][y] in TileSet() && tiles[x][y].at != TileAt(q).at;
          assert old(board)[(x, y)] == old(tiles[x][y].State());
        }
      }
    }
  }
}
