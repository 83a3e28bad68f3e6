/**
 * Pure models of the JavaScript array operations that a Tile applies in
 * place to its letter stack and its occupant list (build.js:2-48):
 * `indexOf`, `splice` with its relative start index, the top of a stack,
 * and the forward scan of `removeEntity`, which splices without stepping
 * back.
 */
module Stacks {
  import opened Wrappers

  /** `Array.prototype.indexOf`: the first index holding `x`, or -1. */
  function IndexOf<T(==)>(s: seq<T>, x: T): (r: int)
    ensures -1 <= r < |s|
    ensures r == -1 <==> x !in s
    ensures 0 <= r ==> s[r] == x && x !in s[..r]
  {
    if s == [] then -1
    else if s[0] == x then 0
    else
      var k := IndexOf(s[1..], x);
      assert s[1..][..if k < 0 then 0 else k] == s[1..if k < 0 then 1 else k + 1];
      if k == -1 then -1 else k + 1
  }

  /** Where `splice(start, ...)` begins: a negative start counts from the end, clamped to the array. */
  function SpliceStart(len: nat, start: int): (k: nat)
    ensures k <= len
    ensures 0 <= start <= len ==> k == start
    ensures -(len as int) <= start < 0 ==> k == len as int + start
  {
    if start < 0 then (if len + start < 0 then 0 else len + start)
    else if start > len then len
    else start
  }

  /** What is left of `s` after `s.splice(start, count)`. */
  function SpliceKept<T>(s: seq<T>, start: int, count: int): seq<T>
  {
    var k := SpliceStart(|s|, start);
    var c := if count < 0 then 0 else if count > |s| - k then |s| - k else count;
    s[..k] + s[k + c..]
  }

  /** What `s.splice(start)` (no count) returns: the removed elements, from `start` to the end. */
  function SpliceTail<T>(s: seq<T>, start: int): seq<T>
  {
    s[SpliceStart(|s|, start)..]
  }

  /** `getTopLetter`: the last element, or `undefined` on an empty stack. */
  function Top<T>(s: seq<T>): Option<T>
  {
    if s == [] then None else Some(s[|s| - 1])
  }

  /** `removeTopLetter` assigns `splice(length - 1)`'s RESULT back to the stack. */
  function KeepTop<T>(s: seq<T>): seq<T>
  {
    SpliceTail(s, |s| - 1)
  }

  /** `removeLetter(c)`: `splice(indexOf(c), 1)`. */
  function RemoveLetterFrom<T(==)>(s: seq<T>, x: T): seq<T>
  {
    SpliceKept(s, IndexOf(s, x), 1)
  }

  /**
   * The list `removeEntity(x)` leaves: the loop splices at i and then
   * increments i, so the element right after a removed one is never looked at.
   */
  function ScanSplice<T(==)>(s: seq<T>, x: T): seq<T>
    decreases |s|
  {
    if s == [] then []
    else if s[0] != x then [s[0]] + ScanSplice(s[1..], x)
    else if |s| == 1 then []
    else [s[1]] + ScanSplice(s[2..], x)
  }

  /** `s` with every occurrence of `x` dropped. */
  function Without<T(==)>(s: seq<T>, x: T): seq<T>
    decreases |s|
  {
    if s == [] then [] else (if s[0] == x then [] else [s[0]]) + Without(s[1..], x)
  }

  /** Two neighbouring occurrences of `x` in `s`. */
  predicate AdjacentPair<T(==)>(s: seq<T>, x: T)
  {
    exists i :: 0 <= i < |s| - 1 && s[i] == x && s[i + 1] == x
  }

  // ---------------------------------------------------------------- letters

  /** After `addLetter(c)`, `getTopLetter()` is `c`. */
  lemma TopAfterPush<T>(s: seq<T>, c: T)
    ensures Top(s + [c]) == Some(c)
    ensures |s + [c]| == |s| + 1 && (s + [c])[..|s|] == s
  {
    assert (s + [c])[..|s|] == s;
  }

  /**
   * `removeTopLetter` does not pop: a non-empty stack becomes the one-element
   * stack holding its former top, and an empty stack stays empty.
   */
  lemma KeepTopShape<T>(s: seq<T>)
    ensures s == [] ==> KeepTop(s) == []
    ensures s != [] ==> KeepTop(s) == [s[|s| - 1]]
  {
  }

  /** So `removeTopLetter` never changes the letter a tile shows, and applying it twice is applying it once. */
  lemma KeepTopKeepsVisibleLetter<T>(s: seq<T>)
    ensures Top(KeepTop(s)) == Top(s)
    ensures KeepTop(KeepTop(s)) == KeepTop(s)
    ensures |KeepTop(s)| <= 1
  {
    KeepTopShape(s);
    KeepTopShape(KeepTop(s));
  }

  /** Vacating a tile and occupying it again with the same letter leaves `[c, c]`: what lay beneath is lost. */
  lemma VacateThenRefill<T>(s: seq<T>, c: T)
    ensures KeepTop(s + [c]) + [c] == [c, c]
  {
    KeepTopShape(s + [c]);
  }

  /** `removeLetter(c)` with `c` present removes its first occurrence and nothing else. */
  lemma RemoveLetterPresent<T>(s: seq<T>, c: T)
    requires c in s
    ensures var k := IndexOf(s, c);
      RemoveLetterFrom(s, c) == s[..k] + s[k + 1..] && c !in s[..k]
    ensures multiset(RemoveLetterFrom(s, c)) + multiset{c} == multiset(s)
  {
    var k := IndexOf(s, c);
    var r := RemoveLetterFrom(s, c);
    assert r == s[..k] + s[k + 1..];
    assert s == s[..k] + [c] + s[k + 1..];
    calc {
      multiset(s);
      multiset(s[..k] + [c] + s[k + 1..]);
      multiset(s[..k]) + multiset{c} + multiset(s[k + 1..]);
      multiset(r) + multiset{c};
    }
  }

  /** `removeLetter(c)` with `c` absent: `indexOf` gives -1, and `splice(-1, 1)` drops the LAST element. */
  lemma RemoveLetterAbsent<T>(s: seq<T>, c: T)
    requires c !in s
    ensures s != [] ==> RemoveLetterFrom(s, c) == s[..|s| - 1]
    ensures s == [] ==> RemoveLetterFrom(s, c) == []
  {
  }

  /** Pushing a letter the stack did not hold and removing it by value gives the stack back. */
  lemma PushThenRemoveLetter<T>(s: seq<T>, c: T)
    requires c !in s
    ensures RemoveLetterFrom(s + [c], c) == s
  {
    var t := s + [c];
    assert c in t by { assert t[|s|] == c; }
    var k := IndexOf(t, c);
    assert forall j :: 0 <= j < |s| ==> t[j] == s[j];
    assert t[..k] == s;
  }

  // ---------------------------------------------------------------- occupants

  lemma {:induction false} ScanSpliceAbsent<T>(s: seq<T>, x: T)
    requires x !in s
    ensures ScanSplice(s, x) == s
    decreases |s|
  {
    if s != [] {
      ScanSpliceAbsent(s[1..], x);
      assert [s[0]] + s[1..] == s;
    }
  }

  /** `removeEntity(x)` removes nothing but occurrences of `x`, and keeps the order of the rest. */
  lemma {:induction false} ScanSpliceKeepsOthers<T>(s: seq<T>, x: T)
    ensures Without(ScanSplice(s, x), x) == Without(s, x)
    ensures |ScanSplice(s, x)| <= |s|
    decreases |s|
  {
    if s == [] {
    } else if s[0] != x {
      ScanSpliceKeepsOthers(s[1..], x);
      WithoutConcat([s[0]], ScanSplice(s[1..], x), x);
    } else if |s| == 1 {
    } else {
      ScanSpliceKeepsOthers(s[2..], x);
      WithoutConcat([s[1]], ScanSplice(s[2..], x), x);
      assert s[1..][1..] == s[2..];
    }
  }

  /**
   * `removeEntity(x)` leaves an occurrence of `x` behind exactly when two
   * occurrences of `x` stand side by side; otherwise it removes them all.
   */
  lemma {:induction false} ScanSpliceLeavesIff<T>(s: seq<T>, x: T)
    ensures x in ScanSplice(s, x) <==> AdjacentPair(s, x)
    decreases |s|
  {
    if s == [] {
    } else if s[0] != x {
      ScanSpliceLeavesIff(s[1..], x);
      AdjacentPairShift(s, x);
    } else if |s| == 1 {
      assert !AdjacentPair(s, x);
    } else if s[1] == x {
      assert s[0] == x && s[1] == x;
      assert AdjacentPair(s, x);
    } else {
      ScanSpliceLeavesIff(s[2..], x);
      AdjacentPairShift(s, x);
      AdjacentPairShift(s[1..], x);
      assert s[1..][1..] == s[2..];
    }
  }

  /** The smallest case: a list holding `x` twice in a row keeps one of them. */
  lemma ScanSpliceTwice<T>(x: T)
    ensures ScanSplice([x, x], x) == [x]
  {
    assert [x, x][2..] == [];
  }

  lemma {:induction false} WithoutConcat<T>(a: seq<T>, b: seq<T>, x: T)
    ensures Without(a + b, x) == Without(a, x) + Without(b, x)
    decreases |a|
  {
    if a == [] {
      assert a + b == b;
    } else {
      var h := if a[0] == x then [] else [a[0]];
      calc {
        Without(a + b, x);
        == { assert (a + b)[0] == a[0] && (a + b)[1..] == a[1..] + b; }
        h + Without(a[1..] + b, x);
        == { WithoutConcat(a[1..], b, x); }
        h + (Without(a[1..], x) + Without(b, x));
        == { assert h + (Without(a[1..], x) + Without(b, x)) == (h + Without(a[1..], x)) + Without(b, x); }
        Without(a, x) + Without(b, x);
      }
    }
  }

  /** When no pair starts at index 0, a pair of `s` is a pair of its tail, and the other way round. */
  lemma AdjacentPairShift<T>(s: seq<T>, x: T)
    requires s != [] && !(|s| > 1 && s[0] == x && s[1] == x)
    ensures AdjacentPair(s, x) <==> AdjacentPair(s[1..], x)
  {
    if AdjacentPair(s, x) {
      var i :| 0 <= i < |s| - 1 && s[i] == x && s[i + 1] == x;
      assert i >= 1;
      assert s[1..][i - 1] == x && s[1..][i] == x;
    }
    if AdjacentPair(s[1..], x) {
      var i :| 0 <= i < |s[1..]| - 1 && s[1..][i] == x && s[1..][i + 1] == x;
      assert s[i + 1] == x && s[i + 2] == x;
    }
  }

  /**
   * The list `removeEntity` will end with, seen from inside its loop: the
   * part before index `i` is final and the rest is still to be scanned (after
   * a splice at the last index, `i` runs one past the end).
   */
  function Scanned<T(==)>(s: seq<T>, i: nat, x: T): seq<T>
  {
    if i <= |s| then s[..i] + ScanSplice(s[i..], x) else s
  }

  /** One turn of the `removeEntity` loop keeps `Scanned` fixed. */
  lemma ScanStep<T>(s: seq<T>, i: nat, x: T)
    requires i < |s|
    ensures s[i] == x ==> Scanned(SpliceKept(s, i, 1), i + 1, x) == Scanned(s, i, x)
    ensures s[i] != x ==> Scanned(s, i + 1, x) == Scanned(s, i, x)
  {
    var r := s[i..];
    assert r[1..] == s[i + 1..];
    if s[i] == x {
      var s' := SpliceKept(s, i, 1);
      assert s' == s[..i] + s[i + 1..];
      if i + 1 < |s| {
        assert r[2..] == s[i + 2..];
        assert s'[..i + 1] == s[..i] + [s[i + 1]];
        assert s'[i + 1..] == s[i + 2..];
      } else {
        assert r == [x];
        assert s' == s[..i];
      }
    } else {
      assert s[..i + 1] == s[..i] + [s[i]];
    }
  }

  lemma ScannedDone<T>(s: seq<T>, i: nat, x: T)
    requires i >= |s|
    ensures Scanned(s, i, x) == s
  {
    if i == |s| {
      assert s[..i] == s;
    }
  }

  /** The prefix one longer is the prefix and the next element. */
  lemma PrefixNext<T>(s: seq<T>, k: nat)
    requires k < |s|
    ensures s[..k + 1] == s[..k] + [s[k]]
  {
  }

  /** The prefix of full length is the whole sequence. */
  lemma PrefixAll<T>(s: seq<T>)
    ensures s[..|s|] == s
  {
  }
}
