/**
 * Grid coordinates and steps (the source's two-element arrays `[x, y]`), the
 * straight lines that `TileMap.line` produces, the 45-degree turn of
 * `TileMap.rotateDir`, and the endpoint rule that `Game.move` applies.
 */
module Geometry {

  /** A coordinate `[x, y]` or a step `[dx, dy]`. */
  type Pos = (int, int)

  function Add(a: Pos, b: Pos): Pos { (a.0 + b.0, a.1 + b.1) }

  function Sub(a: Pos, b: Pos): Pos { (a.0 - b.0, a.1 - b.1) }

  function Scale(k: int, d: Pos): Pos { (k * d.0, k * d.1) }

  function Abs(k: int): nat { if k < 0 then -k else k }

  /** The 8 compass steps, in the order the clockwise branch of `rotateDir` visits them. */
  const Compass: seq<Pos> := [(1, 0), (1, -1), (0, -1), (-1, -1), (-1, 0), (-1, 1), (0, 1), (1, 1)]

  /** Both components in {-1, 0, 1}, and not both 0. */
  predicate IsCompass(d: Pos)
  {
    -1 <= d.0 <= 1 && -1 <= d.1 <= 1 && d != (0, 0)
  }

  /** The `n` coordinates `head + i * dir`, `0 <= i < n`. */
  function LineOf(head: Pos, dir: Pos, n: nat): seq<Pos>
  {
    seq(n, i => (head.0 + i * dir.0, head.1 + i * dir.1))
  }

  /** No coordinate occurs twice. */
  predicate Distinct(qs: seq<Pos>)
  {
    forall i, j :: 0 <= i < j < |qs| ==> qs[i] != qs[j]
  }

  /** `line` starts at `head`, and each entry is one `dir` past the one before. */
  ghost predicate Walks(line: seq<Pos>, head: Pos, dir: Pos)
  {
    (|line| > 0 ==> line[0] == head)
    && forall j, k :: 0 <= j < k < |line| && k == j + 1 ==> line[k] == Add(line[j], dir)
  }

  /** The entry after `line[i]` is one `dir` further on. */
  lemma WalksNext(line: seq<Pos>, head: Pos, dir: Pos, i: nat)
    requires Walks(line, head, dir) && i + 1 < |line|
    ensures line[i + 1] == Add(line[i], dir)
  {
  }

  /** `reverseDir`: each component multiplied by -1 (build.js:245-247). */
  function Reverse(d: Pos): (r: Pos)
    ensures Add(d, r) == (0, 0)
  {
    (d.0 * -1, d.1 * -1)
  }

  /** `tail`: `head + length * dir` (build.js:236-238). */
  function TailOf(head: Pos, dir: Pos, length: nat): Pos
  {
    Add(head, Scale(length, dir))
  }

  /**
   * `Math.round(k * 0.70710678118)` in exact arithmetic: JavaScript rounds
   * half-way values up, which is `floor(k * 0.70710678118 + 1/2)`, and the
   * constant is `70710678118 / 10^11`.
   */
  function RoundCos45(k: int): int
  {
    (k * 70710678118 + 50000000000) / 100000000000
  }

  /**
   * `rotateDir(dir, clockwise)` (build.js:90-100). `cos45` and `sin45` are the
   * same constant, so `x * cos45 + y * sin45` is `(x + y) * cos45`, and so on.
   * On the integers this gives a table: the clockwise branch moves each
   * compass step to the next entry of `Compass`, the other branch to the
   * previous one.
   */
  function Rotate(d: Pos, clockwise: bool): (r: Pos)
    ensures forall i :: 0 <= i < 8 && d == Compass[i] ==> r == Compass[Turn(i, clockwise)]
  {
    if clockwise then (RoundCos45(d.0 + d.1), RoundCos45(d.1 - d.0))
    else (RoundCos45(d.0 - d.1), RoundCos45(d.0 + d.1))
  }

  /** `rotateDir` applied `n` times in the same sense. */
  function RotateTimes(d: Pos, clockwise: bool, n: nat): Pos
    decreases n
  {
    if n == 0 then d else Rotate(RotateTimes(d, clockwise, n - 1), clockwise)
  }

  /** The check of `Game.move` on the first and last tile: each coordinate differs by exactly 0 or 3. */
  predicate EndpointsQualify(first: Pos, last: Pos)
  {
    var dx := Abs(first.0 - last.0);
    var dy := Abs(first.1 - last.1);
    (dy == 3 || dy == 0) && (dx == 3 || dx == 0)
  }

  // ---------------------------------------------------------------- lemmas

  lemma CompassIsTheEightSteps(d: Pos)
    ensures IsCompass(d) <==> d in Compass
  {
  }

  /** The index of the next entry of `Compass` in the given sense of rotation. */
  function Turn(i: nat, clockwise: bool): (j: nat)
    requires i < 8
    ensures j < 8
  {
    if clockwise then (if i == 7 then 0 else i + 1) else (if i == 0 then 7 else i - 1)
  }

  /** `Turn` applied `n` times. */
  function TurnTimes(i: nat, clockwise: bool, n: nat): (j: nat)
    requires i < 8
    ensures j < 8
    decreases n
  {
    if n == 0 then i else Turn(TurnTimes(i, clockwise, n - 1), clockwise)
  }

  lemma {:induction false} RotateTimesWalksTable(i: nat, clockwise: bool, n: nat)
    requires i < 8
    ensures RotateTimes(Compass[i], clockwise, n) == Compass[TurnTimes(i, clockwise, n)]
    decreases n
  {
    if n > 0 {
      RotateTimesWalksTable(i, clockwise, n - 1);
    }
  }

  /** Four turns either way reach the opposite entry of the table. */
  lemma TurnTimesFour(i: nat, clockwise: bool)
    requires i < 8
    ensures TurnTimes(i, clockwise, 4) == if i < 4 then i + 4 else i - 4
  {
    var t1 := Turn(i, clockwise);
    var t2 := Turn(t1, clockwise);
    var t3 := Turn(t2, clockwise);
    assert TurnTimes(i, clockwise, 4) == Turn(t3, clockwise);
  }

  /** Turning `m + n` times is turning `m` times and then `n` times. */
  lemma {:induction false} TurnTimesAdd(i: nat, clockwise: bool, m: nat, n: nat)
    requires i < 8
    ensures TurnTimes(i, clockwise, m + n) == TurnTimes(TurnTimes(i, clockwise, m), clockwise, n)
    decreases n
  {
    if n > 0 {
      TurnTimesAdd(i, clockwise, m, n - 1);
    }
  }

  /** Entries four apart in `Compass` are opposite steps. */
  lemma CompassOpposite(i: nat)
    requires i < 8
    ensures Compass[if i < 4 then i + 4 else i - 4] == Reverse(Compass[i])
  {
    if i == 0 {
    } else if i == 1 {
    } else if i == 2 {
    } else if i == 3 {
    } else if i == 4 {
    } else if i == 5 {
    } else if i == 6 {
    } else {
    }
  }

  /** Four turns either way reach the opposite entry of the table, eight come back. */
  lemma TurnTimesFourAndEight(i: nat, clockwise: bool)
    requires i < 8
    ensures TurnTimes(i, clockwise, 8) == i
    ensures Compass[TurnTimes(i, clockwise, 4)] == Reverse(Compass[i])
  {
    var j := TurnTimes(i, clockwise, 4);
    TurnTimesFour(i, clockwise);
    TurnTimesFour(j, clockwise);
    TurnTimesAdd(i, clockwise, 4, 4);
    CompassOpposite(i);
  }

  /** On the 8 compass steps, a turn one way followed by a turn the other way changes nothing. */
  lemma RotateInverse(d: Pos, clockwise: bool)
    requires IsCompass(d)
    ensures IsCompass(Rotate(d, clockwise))
    ensures Rotate(Rotate(d, clockwise), !clockwise) == d
  {
    CompassIsTheEightSteps(d);
    var i :| 0 <= i < 8 && Compass[i] == d;
    var j := Turn(i, clockwise);
    assert Rotate(d, clockwise) == Compass[j];
    CompassIsTheEightSteps(Compass[j]);
    assert Rotate(Compass[j], !clockwise) == Compass[Turn(j, !clockwise)];
  }

  /** On the 8 compass steps, four turns in either sense give `reverseDir`, and eight give the step back. */
  lemma RotateCycle(d: Pos, clockwise: bool)
    requires IsCompass(d)
    ensures RotateTimes(d, clockwise, 4) == Reverse(d)
    ensures RotateTimes(d, clockwise, 8) == d
  {
    CompassIsTheEightSteps(d);
    var i :| 0 <= i < 8 && Compass[i] == d;
    RotateTimesWalksTable(i, clockwise, 4);
    RotateTimesWalksTable(i, clockwise, 8);
    TurnTimesFourAndEight(i, clockwise);
  }

  /**
   * A step that is not one of the 8 compass steps does not come back: `[2, 0]`
   * turns to `[1, -1]`, which turns back to `[1, 0]`.
   */
  lemma RotateLongStep()
    ensures Rotate((2, 0), true) == (1, -1)
    ensures Rotate(Rotate((2, 0), true), false) == (1, 0)
  {
  }

  /** Consecutive entries of a line are one step apart. */
  lemma LineNext(head: Pos, dir: Pos, n: nat, i: nat)
    requires i + 1 < n
    ensures LineOf(head, dir, n)[i + 1] == Add(LineOf(head, dir, n)[i], dir)
  {
    assert Scale(i + 1, dir) == Add(Scale(i, dir), dir);
  }

  /** A line is the walk from its head by its step. */
  lemma LineWalks(head: Pos, dir: Pos, n: nat)
    ensures Walks(LineOf(head, dir, n), head, dir)
  {
    forall j, k | 0 <= j < k < n && k == j + 1
      ensures LineOf(head, dir, n)[k] == Add(LineOf(head, dir, n)[j], dir)
    {
      LineNext(head, dir, n, j);
    }
  }

  /** With a non-zero step, a line never comes back to a coordinate it has visited. */
  lemma LineIsDistinct(head: Pos, dir: Pos, n: nat)
    requires dir != (0, 0)
    ensures Distinct(LineOf(head, dir, n))
  {
    forall i, j | 0 <= i < j < n
      ensures LineOf(head, dir, n)[i] != LineOf(head, dir, n)[j]
    {
      LineDistinct(head, dir, n, i, j);
    }
  }

  /** With `n >= 2` entries, a line's first entry is its head and its second minus its first is its step. */
  lemma LineHeadAndStep(head: Pos, dir: Pos, n: nat)
    requires n >= 2
    ensures |LineOf(head, dir, n)| == n
    ensures LineOf(head, dir, n)[0] == head
    ensures Sub(LineOf(head, dir, n)[1], LineOf(head, dir, n)[0]) == dir
  {
  }

  /** The entries of a line with a non-zero step are pairwise distinct. */
  lemma LineDistinct(head: Pos, dir: Pos, n: nat, i: nat, j: nat)
    requires dir != (0, 0)
    requires i < n && j < n && i != j
    ensures LineOf(head, dir, n)[i] != LineOf(head, dir, n)[j]
  {
    if dir.0 != 0 {
      assert (i - j) * dir.0 != 0;
      assert i * dir.0 != j * dir.0;
    } else {
      assert (i - j) * dir.1 != 0;
      assert i * dir.1 != j * dir.1;
    }
  }

  /**
   * `tail` is the coordinate one step PAST the last entry of the line of
   * `length` entries from `head`, and is not itself on that line.
   */
  lemma TailIsPastTheLine(head: Pos, dir: Pos, length: nat)
    requires dir != (0, 0)
    ensures TailOf(head, dir, length) == LineOf(head, dir, length + 1)[length]
    ensures TailOf(head, dir, length) !in LineOf(head, dir, length)
  {
    var l := LineOf(head, dir, length + 1);
    if TailOf(head, dir, length) in LineOf(head, dir, length) {
      var i :| 0 <= i < length && LineOf(head, dir, length)[i] == TailOf(head, dir, length);
      assert l[i] == l[length];
      LineDistinct(head, dir, length + 1, i, length);
    }
  }

  /**
   * A straight line along a compass step passes the endpoint rule of
   * `Game.move` exactly when it has 1 or 4 entries: only four-letter words
   * can slide or turn along a line.
   */
  lemma LineQualifiesIff(head: Pos, dir: Pos, n: nat)
    requires IsCompass(dir) && n >= 1
    ensures EndpointsQualify(LineOf(head, dir, n)[0], LineOf(head, dir, n)[n - 1]) <==> n == 1 || n == 4
  {
    var l := LineOf(head, dir, n);
    assert l[0] == head;
    assert l[n - 1] == Add(head, Scale(n - 1, dir));
    if dir.0 != 0 {
      assert Abs(l[0].0 - l[n - 1].0) == n - 1;
    } else {
      assert Abs(l[0].1 - l[n - 1].1) == n - 1;
    }
  }
}
