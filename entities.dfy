/**
 * Entities: named words laid into the grid (build.js:196-376). The source's
 * class hierarchy (Ground, Character with Player, Goblin and Rat, Item with
 * Key, Door) differs only in the collision hook, so here it is one class
 * tagged with its `Kind`, and `PlayerCollision` dispatches on the tag.
 */
module Entities {
  import opened Wrappers
  import opened Geometry

  /** The subclass an entity was built as. Goblin and Rat are plain Characters. */
  datatype Kind = GroundKind | CharacterKind | PlayerKind | ItemKind | DoorKind | KeyKind

  /** `Ground.alphabet` (build.js:268). */
  const Alphabet: string := "abcdefghijklmnopqrstuvwxyz"

  /** `Math.floor(r * n)` for a value `r` drawn by `Math.random()`. */
  function Pick(r: real, n: nat): (k: nat)
    requires 0.0 <= r < 1.0 && n > 0
    ensures k < n
  {
    assert 0.0 <= r * n as real < n as real by {
      assert r * n as real <= 1.0 * n as real;
      assert r * n as real != n as real;
    }
    (r * n as real).Floor
  }

  class Entity {
    const kind: Kind
    /** `name`; its setter is never called, so it is fixed at construction. */
    const name: string
    /** `active`; its setter is never called either. */
    const active: bool
    /** `attackDamage`; its setter discards its argument (build.js:311-313), so it never changes. */
    const attackDamage: int
    var location: seq<Pos>
    /** `head` and `dir` are `undefined` until the location setter sees two entries. */
    var head: Option<Pos>
    var dir: Option<Pos>
    /**
     * Whether `head` is the very array stored as `location[0]`: the location
     * setter stores it so, and `headshift` then moves both by moving one.
     */
    var headAliasesFront: bool
    /** `health` of a Character; other kinds leave it `undefined`, which compares like 0. */
    var health: int
    var inventory: seq<Entity>

    /** `new Ground()`: a one-letter word drawn from the alphabet with the random value `r` (build.js:257-261). */
    constructor Ground(r: real)
      requires 0.0 <= r < 1.0
      ensures kind == GroundKind && name == [Alphabet[Pick(r, 26)]] && !active
      ensures location == [] && head == None && dir == None && !headAliasesFront
      ensures health == 0 && inventory == []
    {
      kind, name, active, attackDamage := GroundKind, [Alphabet[Pick(r, 26)]], false, 0;
      location, head, dir, headAliasesFront := [], None, None, false;
      health, inventory := 0, [];
    }

    /** `new Player(name)`: 10 health, 1 damage, active (build.js:317-323). */
    constructor Player(name: string)
      ensures kind == PlayerKind && this.name == name && active
      ensures health == 10 && attackDamage == 1 && inventory == []
      ensures location == [] && head == None && dir == None && !headAliasesFront
    {
      this.kind, this.name, active, attackDamage := PlayerKind, name, true, 1;
      location, head, dir, headAliasesFront := [], None, None, false;
      health, inventory := 10, [];
    }

    /** `new Goblin()`: 6 health, 2 damage (build.js:331-335). */
    constructor Goblin()
      ensures kind == CharacterKind && name == "Goblin" && !active
      ensures health == 6 && attackDamage == 2 && inventory == []
      ensures location == [] && head == None && dir == None && !headAliasesFront
    {
      kind, name, active, attackDamage := CharacterKind, "Goblin", false, 2;
      location, head, dir, headAliasesFront := [], None, None, false;
      health, inventory := 6, [];
    }

    /** `new Rat()`: 1 health, 2 damage (build.js:339-343). */
    constructor Rat()
      ensures kind == CharacterKind && name == "Rat" && !active
      ensures health == 1 && attackDamage == 2 && inventory == []
      ensures location == [] && head == None && dir == None && !headAliasesFront
    {
      kind, name, active, attackDamage := CharacterKind, "Rat", false, 2;
      location, head, dir, headAliasesFront := [], None, None, false;
      health, inventory := 1, [];
    }

    /** `new Item(name)` (build.js:347-349). */
    constructor Item(name: string)
      ensures kind == ItemKind && this.name == name && !active
      ensures location == [] && head == None && dir == None && !headAliasesFront
      ensures health == 0 && inventory == []
    {
      this.kind, this.name, active, attackDamage := ItemKind, name, false, 0;
      location, head, dir, headAliasesFront := [], None, None, false;
      health, inventory := 0, [];
    }

    /** `new Door()` (build.js:359-361). */
    constructor Door()
      ensures kind == DoorKind && name == "Door" && !active
      ensures location == [] && head == None && dir == None && !headAliasesFront
      ensures health == 0 && inventory == []
    {
      kind, name, active, attackDamage := DoorKind, "Door", false, 0;
      location, head, dir, headAliasesFront := [], None, None, false;
      health, inventory := 0, [];
    }

    /** `new Key()`: an Item named "Key" (build.js:373-375). */
    constructor Key()
      ensures kind == KeyKind && name == "Key" && !active
      ensures location == [] && head == None && dir == None && !headAliasesFront
      ensures health == 0 && inventory == []
    {
      kind, name, active, attackDamage := KeyKind, "Key", false, 0;
      location, head, dir, headAliasesFront := [], None, None, false;
      health, inventory := 0, [];
    }

    /**
     * `head`, `dir` and the alias flag as the `location` setter leaves them
     * after storing `loc`, when they were `head0` and `dir0` before: with at
     * least two entries, `head` is the first entry itself and `dir` the
     * difference of the first two; otherwise they are left alone.
     */
    ghost predicate FollowsLocation(loc: seq<Pos>, head0: Option<Pos>, dir0: Option<Pos>)
      reads this`head, this`dir, this`headAliasesFront
    {
      if |loc| >= 2 then head == Some(loc[0]) && dir == Some(Sub(loc[1], loc[0])) && headAliasesFront
      else head == head0 && dir == dir0 && !headAliasesFront
    }

    /**
     * The `location` setter (build.js:214-221): stores the list, and with at
     * least two entries makes `head` the first entry and `dir` the difference
     * of the first two.
     */
    method SetLocation(loc: seq<Pos>)
      modifies this`location, this`head, this`dir, this`headAliasesFront
      ensures location == loc && FollowsLocation(loc, old(head), old(dir))
    {
      location := loc;
      if |loc| < 2 {
        headAliasesFront := false;
        return;
      }
      head := Some(loc[0]);
      dir := Some(Sub(loc[1], loc[0]));
      headAliasesFront := true;
    }

    /** `locationIncludes(x, y)` (build.js:222-229). */
    method LocationIncludes(x: int, y: int) returns (b: bool)
      ensures b <==> (x, y) in location
    {
      var i := 0;
      while i < |location|
        invariant 0 <= i <= |location|
        invariant (x, y) !in location[..i]
      {
        if location[i].0 == x && location[i].1 == y {
          return true;
        }
        assert location[..i + 1] == location[..i] + [location[i]];
        i := i + 1;
      }
      assert location[..i] == location;
      return false;
    }

    /**
     * `tail` (build.js:236-238): the coordinate one step past the last letter
     * of the word laid from `head` along `dir`, which is not on the word.
     */
    function Tail(): (t: Pos)
      reads this`head, this`dir
      requires head.Some? && dir.Some?
      ensures t == LineOf(head.value, dir.value, |name| + 1)[|name|]
      ensures dir.value != (0, 0) ==> t !in LineOf(head.value, dir.value, |name|)
    {
      if dir.value != (0, 0) then
        TailIsPastTheLine(head.value, dir.value, |name|);
        TailOf(head.value, dir.value, |name|)
      else
        TailOf(head.value, dir.value, |name|)
    }

    /**
     * `reverseDir` (build.js:245-247): the opposite step, which on a compass
     * step is four 45-degree turns of `rotateDir` either way.
     */
    function ReverseDir(): (r: Pos)
      reads this`dir
      requires dir.Some?
      ensures Add(dir.value, r) == (0, 0)
      ensures IsCompass(dir.value) ==> r == RotateTimes(dir.value, true, 4) == RotateTimes(dir.value, false, 4)
    {
      if IsCompass(dir.value) then
        RotateCycle(dir.value, true);
        RotateCycle(dir.value, false);
        Reverse(dir.value)
      else
        Reverse(dir.value)
    }

    /**
     * `Character.playerCollision` (build.js:283-292): while both are alive the
     * player hits this character and this character hits back. `die()` does
     * nothing.
     */
    method Battle(player: Entity)
      requires this != player
      requires player.attackDamage > 0 || attackDamage > 0
      modifies this`health, player`health
      ensures var b := Fight(old(player.health), old(health), player.attackDamage, attackDamage);
        player.health == b.playerHealth && health == b.enemyHealth
    {
      while health > 0 && player.health > 0
        invariant var b := Fight(player.health, health, player.attackDamage, attackDamage);
          var b0 := Fight(old(player.health), old(health), player.attackDamage, attackDamage);
          b.playerHealth == b0.playerHealth && b.enemyHealth == b0.enemyHealth
        decreases if player.attackDamage > 0 then health else player.health
      {
        health := health - player.attackDamage;
        player.health := player.health - attackDamage;
      }
    }

    /** `Item.playerCollision` (build.js:350-355): the player takes the item unless it already holds it. */
    method PickUp(player: Entity)
      modifies player`inventory
      ensures player.inventory == WithItem(old(player.inventory), this)
    {
      if this !in player.inventory {
        player.inventory := player.inventory + [this];
      }
    }

    /**
     * `Door.playerCollision` (build.js:362-368): one `game.newLevel()` for
     * every inventory item named "Key"; the count of such requests is returned.
     */
    method KeyRequests(player: Entity) returns (requests: nat)
      ensures requests == CountKeys(player.inventory)
    {
      requests := 0;
      var i := 0;
      while i < |player.inventory|
        invariant 0 <= i <= |player.inventory|
        invariant requests + CountKeys(player.inventory[i..]) == CountKeys(player.inventory)
      {
        assert player.inventory[i..] == [player.inventory[i]] + player.inventory[i + 1..];
        if player.inventory[i].name == "Key" {
          requests := requests + 1;
        }
        i := i + 1;
      }
    }

    /**
     * `playerCollision()` dispatched on the kind: Ground and Player do nothing,
     * a Character fights, an Item or a Key is picked up, a Door asks for one
     * new level per key. Returns the number of new levels asked for.
     */
    method PlayerCollision(player: Entity) returns (levelRequests: nat)
      requires player.kind == PlayerKind && player.attackDamage > 0
      modifies this`health, player`health, player`inventory
      ensures kind == CharacterKind ==>
        var b := Fight(old(player.health), old(health), player.attackDamage, attackDamage);
        player.health == b.playerHealth && health == b.enemyHealth
      ensures kind != CharacterKind ==> player.health == old(player.health) && health == old(health)
      ensures kind == ItemKind || kind == KeyKind ==> player.inventory == WithItem(old(player.inventory), this)
      ensures !(kind == ItemKind || kind == KeyKind) ==> player.inventory == old(player.inventory)
      ensures levelRequests == if kind == DoorKind then CountKeys(player.inventory) else 0
    {
      levelRequests := 0;
      match kind
      case GroundKind =>
      case PlayerKind =>
      case CharacterKind => Battle(player);
      case ItemKind => PickUp(player);
      case KeyKind => PickUp(player);
      case DoorKind => levelRequests := KeyRequests(player);
    }
  }

  /** The result of a fight: both healths at the end, and how many rounds were fought. */
  datatype Bout = Bout(playerHealth: int, enemyHealth: int, rounds: nat)

  /** What the `while` loop of `Character.playerCollision` computes, round by round. */
  function Fight(playerHealth: int, enemyHealth: int, playerDamage: int, enemyDamage: int): Bout
    requires playerDamage > 0 || enemyDamage > 0
    decreases if playerDamage > 0 then enemyHealth else playerHealth
  {
    if enemyHealth > 0 && playerHealth > 0 then
      var b := Fight(playerHealth - enemyDamage, enemyHealth - playerDamage, playerDamage, enemyDamage);
      Bout(b.playerHealth, b.enemyHealth, b.rounds + 1)
    else
      Bout(playerHealth, enemyHealth, 0)
  }

  /** The inventory after `Item.playerCollision`. */
  function WithItem(inventory: seq<Entity>, item: Entity): seq<Entity>
  {
    if item in inventory then inventory else inventory + [item]
  }

  /** How many items of the list are named "Key". */
  function CountKeys(items: seq<Entity>): nat
  {
    if items == [] then 0 else (if items[0].name == "Key" then 1 else 0) + CountKeys(items[1..])
  }

  // ---------------------------------------------------------------- lemmas

  /**
   * Every round costs each side the other's damage: the fight ends with one
   * side at health 0 or below, and each side has lost `rounds` times the
   * other's damage.
   */
  lemma {:induction false} FightOutcome(playerHealth: int, enemyHealth: int, playerDamage: int, enemyDamage: int)
    requires playerDamage > 0 || enemyDamage > 0
    ensures var b := Fight(playerHealth, enemyHealth, playerDamage, enemyDamage);
      (b.playerHealth <= 0 || b.enemyHealth <= 0)
      && b.playerHealth == playerHealth - b.rounds * enemyDamage
      && b.enemyHealth == enemyHealth - b.rounds * playerDamage
    decreases if playerDamage > 0 then enemyHealth else playerHealth
  {
    if enemyHealth > 0 && playerHealth > 0 {
      FightOutcome(playerHealth - enemyDamage, enemyHealth - playerDamage, playerDamage, enemyDamage);
      var b := Fight(playerHealth - enemyDamage, enemyHealth - playerDamage, playerDamage, enemyDamage);
      assert (b.rounds + 1) * enemyDamage == b.rounds * enemyDamage + enemyDamage;
      assert (b.rounds + 1) * playerDamage == b.rounds * playerDamage + playerDamage;
    }
  }

  /** The enemy hits back even after the player's killing blow. */
  lemma KillingBlowStillHitBack(playerHealth: int, enemyHealth: int, playerDamage: int, enemyDamage: int)
    requires playerDamage > 0 && playerHealth > 0 && 0 < enemyHealth <= playerDamage
    ensures Fight(playerHealth, enemyHealth, playerDamage, enemyDamage)
         == Bout(playerHealth - enemyDamage, enemyHealth - playerDamage, 1)
  {
  }

  /** Hero (10 health, 1 damage) against a Goblin (6 health, 2 damage): five rounds, Hero at 0, Goblin at 1. */
  lemma HeroAgainstGoblin()
    ensures Fight(10, 6, 1, 2) == Bout(0, 1, 5)
  {
  }

  /** An item ends up in the inventory once, and picking it up again changes nothing. */
  lemma {:induction false} WithItemOnce(inventory: seq<Entity>, item: Entity)
    ensures item in WithItem(inventory, item)
    ensures WithItem(WithItem(inventory, item), item) == WithItem(inventory, item)
    ensures item !in inventory ==> multiset(WithItem(inventory, item))[item] == 1
  {
    if item !in inventory {
      assert multiset(inventory)[item] == 0;
    }
  }

  lemma {:induction false} CountKeysAppend(a: seq<Entity>, b: seq<Entity>)
    ensures CountKeys(a + b) == CountKeys(a) + CountKeys(b)
    decreases |a|
  {
    if a == [] {
      assert a + b == b;
    } else {
      CountKeysAppend(a[1..], b);
      assert (a + b)[1..] == a[1..] + b;
    }
  }

  /**
   * Picking up a Key the player did not hold yet makes every Door ask for one
   * more new level; picking it up again asks for none.
   */
  lemma PickUpKeyAddsRequest(inventory: seq<Entity>, key: Entity)
    requires key.name == "Key"
    ensures CountKeys(WithItem(inventory, key)) == CountKeys(inventory) + (if key in inventory then 0 else 1)
  {
    CountKeysAppend(inventory, [key]);
  }
}
