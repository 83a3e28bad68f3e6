/**
 * The contents of the whole letter grid as a value: `b[(x, y)]` is the
 * state of the tile at `(x, y)`. Every change the placement walk and the movement
 * engine make to the tiles is stated here as a function from board to board,
 * and what the source promises about those changes is proved on the values.
 */
module Boards {
  import opened Wrappers
  import opened Stacks
  import opened Geometry
  import opened Entities
  import opened Tiles

  type Board = map<Pos, TileState>

  /** A cell for each `(x, y)` with `0 <= x < width` and `0 <= y < height`, and no other. */
  ghost predicate Shaped(b: Board, width: nat, height: nat)
  {
    forall q :: q in b <==> 0 <= q.0 < width && 0 <= q.1 < height
  }

  function Cell(b: Board, q: Pos): TileState
    requires q in b
  {
    b[q]
  }

  /** The board with the cell at `q` replaced by `s`. */
  function Put(b: Board, q: Pos, s: TileState): (r: Board)
    requires q in b
    ensures (forall p :: p in r <==> p in b) && Cell(r, q) == s
  {
    b[q := s]
  }

  // ------------------------------------------------------------ one tile

  /** `addLetter(c)` on a tile. */
  function PushLetter(s: TileState, c: char): TileState
  {
    TileState(s.letters + [c], s.entities)
  }

  /** `addEntity(e)` on a tile. */
  function Host(s: TileState, e: Entity): TileState
  {
    TileState(s.letters, s.entities + [e])
  }

  /** The old tile of one step of `Game.move`: `removeEntity(e)`, then `removeTopLetter()`. */
  function Vacate(s: TileState, e: Entity): TileState
  {
    TileState(KeepTop(s.letters), ScanSplice(s.entities, e))
  }

  /** The new tile of one step of `Game.move`: `addEntity(e)`, then `addLetter(c)`. */
  function Occupy(s: TileState, e: Entity, c: char): TileState
  {
    TileState(s.letters + [c], s.entities + [e])
  }

  /** The tile test of `insertEntity`: exactly one occupant, or `c` already on top. */
  predicate Takes(s: TileState, c: char)
  {
    |s.entities| == 1 || Top(s.letters) == Some(c)
  }

  // ------------------------------------------------------------ a placement attempt

  /** Strictly inside a `width` x `height` map: row 0 and column 0 are never used (build.js:125). */
  predicate Inner(width: nat, height: nat, q: Pos)
  {
    0 < q.0 < width && 0 < q.1 < height
  }

  /** Whether `insertEntity` lets letter `c` onto the cell at `q`. */
  predicate Accepts(b: Board, width: nat, height: nat, q: Pos, c: char)
    requires Shaped(b, width, height)
  {
    Inner(width, height, q) && Takes(Cell(b, q), c)
  }

  /**
   * How far the walk gets from index `j` on: the index of the first letter
   * at or after `j` that the cell on `line` refuses, or `|name|`.
   */
  function Reach(b: Board, width: nat, height: nat, line: seq<Pos>, name: seq<char>, j: nat): (r: nat)
    requires Shaped(b, width, height) && |line| == |name| && j <= |name|
    ensures j <= r <= |name|
    decreases |name| - j
  {
    if j == |name| || !Accepts(b, width, height, line[j], name[j]) then j
    else Reach(b, width, height, line, name, j + 1)
  }

  /**
   * The walk of `insertEntity` from index `i` on, as it runs: while the cell
   * at `line[i]` of the board as it now is accepts `name[i]`, the letter is
   * pushed there and the walk goes on. The result is how far the walk got
   * and the board it left.
   */
  function Walk(b: Board, width: nat, height: nat, line: seq<Pos>, name: seq<char>, i: nat): (r: (nat, Board))
    requires Shaped(b, width, height) && |line| == |name| && i <= |name|
    ensures i <= r.0 <= |name| && Shaped(r.1, width, height)
    ensures forall k :: i <= k < r.0 ==> Inner(width, height, line[k])
    decreases |name| - i
  {
    if i == |name| || !Accepts(b, width, height, line[i], name[i]) then (i, b)
    else Walk(Put(b, line[i], PushLetter(Cell(b, line[i]), name[i])), width, height, line, name, i + 1)
  }

  /**
   * One placement attempt of `insertEntity` along `line`: the walk, and, if
   * every letter found a cell, `e` added to the cells of the whole line.
   * The result says whether the entity was placed, and the board left.
   */
  function Attempt(b: Board, width: nat, height: nat, line: seq<Pos>, name: seq<char>, e: Entity): (r: (bool, Board))
    requires Shaped(b, width, height) && |line| == |name|
  {
    var (i, pushed) := Walk(b, width, height, line, name, 0);
    if i == |name| then (true, Hosted(pushed, line, e, |line|)) else (false, pushed)
  }

  /**
   * The first `n` letters of `name` pushed, `name[k]` onto the cell at
   * `line[k]`, in order (an entry off the board, which no caller passes,
   * changes nothing).
   */
  function Pushed(b: Board, line: seq<Pos>, name: seq<char>, n: nat): (r: Board)
    requires |line| == |name| && n <= |line|
    ensures forall q :: q in r <==> q in b
  {
    if n == 0 then b
    else
      var r := Pushed(b, line, name, n - 1);
      if line[n - 1] in r then Put(r, line[n - 1], PushLetter(Cell(r, line[n - 1]), name[n - 1])) else r
  }

  /** `e` added to the occupants of the cells at the first `n` entries of `path`, in order. */
  function Hosted(b: Board, path: seq<Pos>, e: Entity, n: nat): (r: Board)
    requires n <= |path|
    ensures forall q :: q in r <==> q in b
  {
    if n == 0 then b
    else
      var r := Hosted(b, path, e, n - 1);
      if path[n - 1] in r then Put(r, path[n - 1], Host(Cell(r, path[n - 1]), e)) else r
  }

  // ------------------------------------------------------------ the commit of Game.move

  /**
   * One step of the commit loop of `Game.move` (src/controller/Game.ts:94-99):
   * the cell at `p` loses `e` and keeps only its top letter, then the cell at
   * `q` gains `e` and `c`. A coordinate off the board is left alone.
   */
  function Step(b: Board, p: Pos, q: Pos, e: Entity, c: char): (r: Board)
    ensures forall x :: x in r <==> x in b
  {
    var v := if p in b then Put(b, p, Vacate(Cell(b, p), e)) else b;
    if q in v then Put(v, q, Occupy(Cell(v, q), e, c)) else v
  }

  /**
   * The commit loop of `Game.move` (src/controller/Game.ts:93-100) from step
   * `i` on: step `k` pairs `from[k]` with `to[k]`, and the same cell may be
   * visited by several steps.
   */
  function Commit(b: Board, from: seq<Pos>, to: seq<Pos>, e: Entity, name: seq<char>, i: nat): (r: Board)
    requires |to| == |name| <= |from| && i <= |to|
    ensures forall q :: q in r <==> q in b
    decreases |to| - i
  {
    if i == |to| then b else Commit(Step(b, from[i], to[i], e, name[i]), from, to, e, name, i + 1)
  }

  // ------------------------------------------------------------ scan order

  /** The coordinates of column `x` of a map of `height` rows, top to bottom. */
  function Column(x: nat, height: nat): (qs: seq<Pos>)
    ensures |qs| == height && forall y :: 0 <= y < height ==> qs[y] == (x, y)
  {
    seq(height, y => (x, y))
  }

  /**
   * Every coordinate of the first `width` columns, column by column: the
   * order in which the constructor, `getTileLocation` and `getEntityTiles`
   * visit the tiles.
   */
  function Scan(width: nat, height: nat): (qs: seq<Pos>)
    ensures forall k :: 0 <= k < |qs| ==> 0 <= qs[k].0 < width && 0 <= qs[k].1 < height
  {
    if width == 0 then [] else Scan(width - 1, height) + Column(width - 1, height)
  }

  /** The scan one column wider is the scan followed by that column. */
  lemma ScanGrows(x: nat, height: nat)
    ensures Scan(x + 1, height) == Scan(x, height) + Column(x, height)
  {
  }

  /** `(x, y)` comes before `(x', y')` in the scan. */
  predicate ScanBefore(a: Pos, b: Pos)
  {
    a.0 < b.0 || (a.0 == b.0 && a.1 < b.1)
  }

  /**
   * The coordinates whose cell lists `e`, in scan order, among the columns
   * before `x` and the first `y` rows of column `x`. (On a board of the
   * map's shape every such coordinate has its cell; the membership test only
   * keeps the function defined on any board.)
   */
  function Found(b: Board, e: Entity, height: nat, x: nat, y: nat): (r: seq<Pos>)
    requires y <= height
    ensures forall k :: 0 <= k < |r| ==> r[k] in b && e in Cell(b, r[k]).entities && ScanBefore(r[k], (x, y))
    decreases x, y
  {
    if y == 0 then (if x == 0 then [] else Found(b, e, height, x - 1, height))
    else Found(b, e, height, x, y - 1) + (if (x, y - 1) in b && e in Cell(b, (x, y - 1)).entities then [(x, y - 1)] else [])
  }

  // ------------------------------------------------------------ lemmas

  /**
   * `Reach` is the first refusal: every letter before it was accepted and,
   * unless the whole name fitted, the letter at it was refused.
   */
  lemma {:induction false} ReachMeans(b: Board, width: nat, height: nat, line: seq<Pos>, name: seq<char>, j: nat)
    requires Shaped(b, width, height) && |line| == |name| && j <= |name|
    ensures var r := Reach(b, width, height, line, name, j);
      j <= r <= |name|
      && (forall k :: j <= k < r ==> Accepts(b, width, height, line[k], name[k]))
      && (r < |name| ==> !Accepts(b, width, height, line[r], name[r]))
    decreases |name| - j
  {
    if j < |name| && Accepts(b, width, height, line[j], name[j]) {
      ReachMeans(b, width, height, line, name, j + 1);
    }
  }

  /** The walk gets exactly to `i` if and only if the letters before `i` are accepted and the one at `i` is not. */
  lemma ReachIff(b: Board, width: nat, height: nat, line: seq<Pos>, name: seq<char>, i: nat)
    requires Shaped(b, width, height) && |line| == |name| && i <= |name|
    ensures Reach(b, width, height, line, name, 0) == i <==>
      (forall k :: 0 <= k < i ==> Accepts(b, width, height, line[k], name[k]))
      && (i < |name| ==> !Accepts(b, width, height, line[i], name[i]))
  {
    ReachMeans(b, width, height, line, name, 0);
  }

  /**
   * Along a line without repeats, every cell the walk looks at is still as
   * it was at the start, so the walk gets exactly as far as `Reach` says and
   * leaves the first `Reach` letters pushed.
   */
  lemma {:induction false} WalkIsReach(b: Board, width: nat, height: nat, line: seq<Pos>, name: seq<char>, j: nat)
    requires Shaped(b, width, height) && |line| == |name| && j <= |name| && Distinct(line)
    requires Reach(b, width, height, line, name, 0) >= j
    ensures Shaped(Pushed(b, line, name, j), width, height)
    ensures var r := Reach(b, width, height, line, name, 0);
      Walk(Pushed(b, line, name, j), width, height, line, name, j) == (r, Pushed(b, line, name, r))
    decreases |name| - j
  {
    var bj := Pushed(b, line, name, j);
    ReachMeans(b, width, height, line, name, 0);
    if j < |name| && Inner(width, height, line[j]) {
      PushedAhead(b, line, name, j);
    }
    if j < |name| && Accepts(b, width, height, line[j], name[j]) {
      WalkIsReach(b, width, height, line, name, j + 1);
    }
  }

  /**
   * The outcome of an attempt along a line without repeats: it places the
   * entity exactly when every letter is accepted by the cell as it was at
   * the start; then every cell of the line is strictly inside the map and
   * the board is the whole name pushed and the entity hosted along the
   * line; otherwise the board keeps the letters pushed before the first
   * refusal and nothing else.
   */
  lemma AttemptOutcome(b: Board, width: nat, height: nat, line: seq<Pos>, name: seq<char>, e: Entity)
    requires Shaped(b, width, height) && |line| == |name| && Distinct(line)
    ensures var r := Attempt(b, width, height, line, name, e);
      var i := Reach(b, width, height, line, name, 0);
      (r.0 <==> i == |name|)
      && (r.0 ==> (forall k :: 0 <= k < |line| ==> Inner(width, height, line[k]))
                  && r.1 == Hosted(Pushed(b, line, name, |name|), line, e, |line|))
      && (!r.0 ==> r.1 == Pushed(b, line, name, i))
  {
    WalkIsReach(b, width, height, line, name, 0);
  }

  /** A cell that none of the first `n` entries of `line` names keeps its state under `Pushed`. */
  lemma {:induction false} PushedElsewhere(b: Board, line: seq<Pos>, name: seq<char>, n: nat, q: Pos)
    requires |line| == |name| && n <= |line| && q in b
    requires forall k :: 0 <= k < n ==> line[k] != q
    ensures Cell(Pushed(b, line, name, n), q) == Cell(b, q)
  {
    if n > 0 {
      PushedElsewhere(b, line, name, n - 1, q);
    }
  }

  /** Along a line without repeats, the cell the walk reaches next is still as it was. */
  lemma PushedAhead(b: Board, line: seq<Pos>, name: seq<char>, n: nat)
    requires |line| == |name| && n < |line| && Distinct(line) && line[n] in b
    ensures Cell(Pushed(b, line, name, n), line[n]) == Cell(b, line[n])
  {
    PushedElsewhere(b, line, name, n, line[n]);
  }

  /** Along a line without repeats, the cell at `line[k]` gains exactly `name[k]` on top. */
  lemma {:induction false} PushedOnPath(b: Board, line: seq<Pos>, name: seq<char>, n: nat, k: nat)
    requires |line| == |name| && n <= |line| && Distinct(line)
    requires k < n && line[k] in b
    ensures Cell(Pushed(b, line, name, n), line[k]) == PushLetter(Cell(b, line[k]), name[k])
  {
    if k == n - 1 {
      PushedAhead(b, line, name, k);
    } else {
      PushedOnPath(b, line, name, n - 1, k);
    }
  }

  /**
   * `Pushed` never takes anything away: every cell keeps its occupants, and
   * its old letters stay, at the bottom of its stack.
   */
  lemma {:induction false} PushedOnlyPushes(b: Board, line: seq<Pos>, name: seq<char>, n: nat, q: Pos)
    requires |line| == |name| && n <= |line| && q in b
    ensures Cell(Pushed(b, line, name, n), q).entities == Cell(b, q).entities
    ensures Cell(b, q).letters <= Cell(Pushed(b, line, name, n), q).letters
  {
    if n > 0 {
      PushedOnlyPushes(b, line, name, n - 1, q);
    }
  }

  /** A cell that none of the first `n` entries of `path` names keeps its state under `Hosted`. */
  lemma {:induction false} HostedElsewhere(b: Board, path: seq<Pos>, e: Entity, n: nat, q: Pos)
    requires n <= |path| && q in b
    requires forall k :: 0 <= k < n ==> path[k] != q
    ensures Cell(Hosted(b, path, e, n), q) == Cell(b, q)
  {
    if n > 0 {
      HostedElsewhere(b, path, e, n - 1, q);
    }
  }

  /** Along a path without repeats, the cell at `path[k]` gains exactly `e` as its last occupant. */
  lemma {:induction false} HostedOnPath(b: Board, path: seq<Pos>, e: Entity, n: nat, k: nat)
    requires n <= |path| && Distinct(path)
    requires k < n && path[k] in b
    ensures Cell(Hosted(b, path, e, n), path[k]) == Host(Cell(b, path[k]), e)
  {
    if k == n - 1 {
      HostedElsewhere(b, path, e, k, path[k]);
    } else {
      HostedOnPath(b, path, e, n - 1, k);
    }
  }

  /**
   * What a placement attempt that fits leaves (build.js:129, 143-153): every
   * cell of the path has its letter on top and lists the entity last, on top
   * of what it held before; every other cell is as it was.
   */
  lemma FullFitCells(b: Board, path: seq<Pos>, name: seq<char>, e: Entity, q: Pos)
    requires |path| == |name| && forall k :: 0 <= k < |path| ==> path[k] in b
    requires Distinct(path) && q in b
    ensures var after := Hosted(Pushed(b, path, name, |path|), path, e, |path|);
      (forall k :: 0 <= k < |path| ==>
        Cell(after, path[k]) == TileState(Cell(b, path[k]).letters + [name[k]], Cell(b, path[k]).entities + [e])
        && Top(Cell(after, path[k]).letters) == Some(name[k]))
      && (q !in path ==> Cell(after, q) == Cell(b, q))
  {
    var pushed := Pushed(b, path, name, |path|);
    forall k | 0 <= k < |path|
      ensures Cell(Hosted(pushed, path, e, |path|), path[k])
        == TileState(Cell(b, path[k]).letters + [name[k]], Cell(b, path[k]).entities + [e])
    {
      PushedOnPath(b, path, name, |path|, k);
      HostedOnPath(pushed, path, e, |path|, k);
    }
    if q !in path {
      PushedElsewhere(b, path, name, |path|, q);
      HostedElsewhere(pushed, path, e, |path|, q);
    }
  }

  /**
   * The walk only pushes letters: every cell keeps its occupants, and its old
   * letters stay at the bottom of its stack.
   */
  lemma {:induction false} WalkOnlyPushes(b: Board, width: nat, height: nat, line: seq<Pos>, name: seq<char>, i: nat, q: Pos)
    requires Shaped(b, width, height) && |line| == |name| && i <= |name| && q in b
    ensures var w := Walk(b, width, height, line, name, i).1;
      q in w && Cell(w, q).entities == Cell(b, q).entities && Cell(b, q).letters <= Cell(w, q).letters
    decreases |name| - i
  {
    if i < |name| && Accepts(b, width, height, line[i], name[i]) {
      var b' := Put(b, line[i], PushLetter(Cell(b, line[i]), name[i]));
      WalkOnlyPushes(b', width, height, line, name, i + 1, q);
    }
  }

  /**
   * A failed attempt (build.js:155-156) adds no occupant to any cell, so no
   * cell lists the entity it was placing unless it did before; the letters
   * it pushed stay on top of the old ones.
   */
  lemma EarlyStopCells(b: Board, width: nat, height: nat, line: seq<Pos>, name: seq<char>, e: Entity, q: Pos)
    requires Shaped(b, width, height) && |line| == |name| && q in b
    requires !Attempt(b, width, height, line, name, e).0
    ensures var r := Attempt(b, width, height, line, name, e).1;
      q in r && Cell(r, q).entities == Cell(b, q).entities && Cell(b, q).letters <= Cell(r, q).letters
  {
    WalkOnlyPushes(b, width, height, line, name, 0, q);
  }

  /**
   * The last step of `Game.move`'s commit occupies the last new cell, so that
   * cell always ends listing the entity with the name's last letter on top,
   * whatever the steps before it did.
   */
  lemma {:induction false} CommitLastCell(b: Board, from: seq<Pos>, to: seq<Pos>, e: Entity, name: seq<char>, i: nat)
    requires |to| == |name| <= |from| && i < |to|
    requires to[|to| - 1] in b
    ensures var c := Cell(Commit(b, from, to, e, name, i), to[|to| - 1]);
      Top(c.letters) == Some(name[|name| - 1]) && e in c.entities
    decreases |to| - i
  {
    if i + 1 < |to| {
      CommitLastCell(Step(b, from[i], to[i], e, name[i]), from, to, e, name, i + 1);
    }
  }

  /** A cell that no step from `i` on names, as old or as new cell, is left as it was. */
  lemma {:induction false} CommitElsewhere(b: Board, from: seq<Pos>, to: seq<Pos>, e: Entity, name: seq<char>, i: nat, q: Pos)
    requires |to| == |name| <= |from| && i <= |to| && q in b
    requires forall k :: i <= k < |to| ==> from[k] != q && to[k] != q
    ensures Cell(Commit(b, from, to, e, name, i), q) == Cell(b, q)
    decreases |to| - i
  {
    if i < |to| {
      CommitElsewhere(Step(b, from[i], to[i], e, name[i]), from, to, e, name, i + 1, q);
    }
  }

  /**
   * Exactly the coordinates of the map before `(x, y)` in scan order whose
   * cell lists `e` are in `Found`.
   */
  lemma {:induction false} FoundIff(b: Board, e: Entity, height: nat, x: nat, y: nat, q: Pos)
    requires y <= height
    requires forall p: Pos :: 0 <= p.0 && 0 <= p.1 < height && (p.0 < x || (p.0 == x && p.1 < y)) ==> p in b
    ensures q in Found(b, e, height, x, y) <==>
      0 <= q.0 && 0 <= q.1 < height && ScanBefore(q, (x, y)) && e in Cell(b, q).entities
    decreases x, y
  {
    if y == 0 {
      if x > 0 {
        FoundIff(b, e, height, x - 1, height, q);
      }
    } else {
      FoundIff(b, e, height, x, y - 1, q);
    }
  }

  /** `Found` lists its coordinates in strictly increasing scan order, so never one twice. */
  lemma {:induction false} FoundInOrder(b: Board, e: Entity, height: nat, x: nat, y: nat)
    requires y <= height
    ensures forall i, j :: 0 <= i < j < |Found(b, e, height, x, y)| ==>
      ScanBefore(Found(b, e, height, x, y)[i], Found(b, e, height, x, y)[j])
    decreases x, y
  {
    if y == 0 {
      if x > 0 {
        FoundInOrder(b, e, height, x - 1, height);
        assert Found(b, e, height, x, y) == Found(b, e, height, x - 1, height);
      }
    } else {
      FoundInOrder(b, e, height, x, y - 1);
      var r0 := Found(b, e, height, x, y - 1);
      var r := Found(b, e, height, x, y);
      forall i, j | 0 <= i < j < |r|
        ensures ScanBefore(r[i], r[j])
      {
        if j < |r0| {
          assert r[i] == r0[i] && r[j] == r0[j];
          assert ScanBefore(r0[i], r0[j]);
        } else {
          assert r[i] == r0[i] && r[j] == (x, y - 1);
          assert ScanBefore(r0[i], (x, y - 1));
        }
      }
    }
  }

  /** The scan visits every coordinate of the map, and nothing else. */
  lemma {:induction false} ScanCovers(width: nat, height: nat, q: Pos)
    ensures q in Scan(width, height) <==> 0 <= q.0 < width && 0 <= q.1 < height
  {
    if width > 0 && q.0 == width - 1 && 0 <= q.1 < height {
      assert Column(width - 1, height)[q.1] == q;
    } else if width > 0 {
      ScanCovers(width - 1, height, q);
    }
  }

  /** The scan has `width * height` entries. */
  lemma {:induction false} ScanLength(width: nat, height: nat)
    ensures |Scan(width, height)| == width * height
  {
    if width > 0 {
      ScanLength(width - 1, height);
      assert (width - 1) * height + height == width * height;
    }
  }
}
