/** A grid cell: a stack of overlapping letters and a list of occupants (build.js:2-48). */
module Tiles {
  import opened Wrappers
  import opened Stacks
  import opened Entities

  /** The contents of a tile as a value: its letters (the last one shows) and its occupants. */
  datatype TileState = TileState(letters: seq<char>, entities: seq<Entity>)

  class Tile {
    var letters: seq<char>
    var entities: seq<Entity>
    /** Where the map put this tile; the source's tiles do not know it, the proofs use it to tell tiles apart. */
    ghost const at: (int, int)

    constructor (ghost at: (int, int))
      ensures letters == [] && entities == [] && this.at == at
    {
      letters, entities := [], [];
      this.at := at;
    }

    function State(): TileState
      reads this
    {
      TileState(letters, entities)
    }

    /** `addLetter` (build.js:13-15). */
    method AddLetter(letter: char)
      modifies this`letters
      ensures letters == old(letters) + [letter]
    {
      letters := letters + [letter];
    }

    /** `removeLetter` (build.js:16-19): `splice(indexOf(letter), 1)`. */
    method RemoveLetter(letter: char)
      modifies this`letters
      ensures letters == RemoveLetterFrom(old(letters), letter)
    {
      var index := IndexOf(letters, letter);
      letters := SpliceKept(letters, index, 1);
    }

    /** `removeTopLetter` (build.js:20-22): the stack becomes what `splice(length - 1)` returned. */
    method RemoveTopLetter()
      modifies this`letters
      ensures letters == KeepTop(old(letters))
    {
      letters := SpliceTail(letters, |letters| - 1);
    }

    /** `changeLetter` (build.js:23-25), for an index inside the stack. */
    method ChangeLetter(index: nat, newLetter: char)
      requires index < |letters|
      modifies this`letters
      ensures letters == old(letters)[index := newLetter]
    {
      letters := letters[index := newLetter];
    }

    /** `getTopLetter` (build.js:26-28): `None` stands for `undefined` on an empty stack. */
    function TopLetter(): (r: Option<char>)
      reads this`letters
      ensures r == None <==> letters == []
      ensures r.Some? ==> r.value == letters[|letters| - 1]
    {
      Top(letters)
    }

    /** `addEntity` (build.js:35-37): pushes, even when the entity is already listed. */
    method AddEntity(entity: Entity)
      modifies this`entities
      ensures entities == old(entities) + [entity]
    {
      entities := entities + [entity];
    }

    /** `containsEntity` (build.js:38-40): `indexOf(entity) != -1`. */
    function ContainsEntity(entity: Entity): (b: bool)
      reads this`entities
      ensures b <==> entity in entities
    {
      IndexOf(entities, entity) != -1
    }

    /**
     * `removeEntity` (build.js:41-47): a forward loop that splices at `i` and
     * then increments `i`, so the element that slid into place `i` is skipped.
     */
    method RemoveEntity(entity: Entity)
      modifies this`entities
      ensures entities == ScanSplice(old(entities), entity)
    {
      var i := 0;
      while i < |entities|
        invariant i <= |entities| + 1
        invariant Scanned(entities, i, entity) == ScanSplice(old(entities), entity)
        decreases |entities| + 1 - i
      {
        ScanStep(entities, i, entity);
        if entities[i] == entity {
          entities := SpliceKept(entities, i, 1);
        }
        i := i + 1;
      }
      ScannedDone(entities, i, entity);
    }
  }
}
