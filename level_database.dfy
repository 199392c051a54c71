/**
 * The level catalogue (Assets/Scripts/Data/LevelDatabase.cs): a list of level objects kept in
 * order of level ID. Membership is by object identity, lookup by ID returns the first match.
 */
module LevelCatalog {

  import opened Levels

  /** The levels appear in non-decreasing order of ID. */
  ghost predicate SortedByID(s: seq<LevelData>)
    reads s
  {
    forall i, j :: 0 <= i < j < |s| ==> s[i].levelID <= s[j].levelID
  }

  /** The position of the first level with the given ID, or |s| when there is none. */
  function FirstWithID(s: seq<LevelData>, id: int): (k: nat)
    reads s
    ensures k <= |s|
    ensures k < |s| ==> s[k].levelID == id
    ensures forall j :: 0 <= j < k ==> s[j].levelID != id
    decreases |s|
  {
    if |s| == 0 then 0
    else if s[0].levelID == id then 0
    else 1 + FirstWithID(s[1..], id)
  }

  /** Inserts a level in front of the first level with a larger or equal ID. */
  function InsertByID(s: seq<LevelData>, x: LevelData): seq<LevelData>
    reads s, x
    decreases |s|
  {
    if |s| == 0 || x.levelID <= s[0].levelID then [x] + s
    else [s[0]] + InsertByID(s[1..], x)
  }

  /** Inserting adds exactly the one level to the catalogue. */
  lemma {:induction false} InsertByIDAddsLevel(s: seq<LevelData>, x: LevelData)
    ensures var r := InsertByID(s, x);
      multiset(r) == multiset(s) + multiset{x} && forall l :: l in r ==> l == x || l in s
    decreases |s|
  {
    if |s| > 0 && x.levelID > s[0].levelID {
      InsertByIDAddsLevel(s[1..], x);
      assert s == [s[0]] + s[1..];
    }
  }

  /** A level whose ID is at most every ID of a sorted list keeps the list sorted in front of it. */
  lemma SortedCons(h: LevelData, rest: seq<LevelData>)
    requires SortedByID(rest) && forall l :: l in rest ==> h.levelID <= l.levelID
    ensures SortedByID([h] + rest)
  {
    var r := [h] + rest;
    forall i, j | 0 <= i < j < |r| ensures r[i].levelID <= r[j].levelID {
      assert r[j] == rest[j - 1] && r[j] in rest;
      if i > 0 {
        assert r[i] == rest[i - 1];
      }
    }
  }

  /** Inserting into a sorted catalogue keeps it sorted. */
  lemma {:induction false} InsertByIDKeepsSorted(s: seq<LevelData>, x: LevelData)
    requires SortedByID(s)
    ensures SortedByID(InsertByID(s, x))
    decreases |s|
  {
    if |s| == 0 || x.levelID <= s[0].levelID {
      forall l | l in s ensures x.levelID <= l.levelID {
        var k :| 0 <= k < |s| && s[k] == l;
        assert s[0].levelID <= s[k].levelID;
      }
      SortedCons(x, s);
    } else {
      var rest := InsertByID(s[1..], x);
      InsertByIDKeepsSorted(s[1..], x);
      InsertByIDAddsLevel(s[1..], x);
      forall l | l in rest ensures s[0].levelID <= l.levelID {
        if l != x {
          var k :| 0 <= k < |s[1..]| && s[1..][k] == l;
          assert s[k + 1] == l;
        }
      }
      SortedCons(s[0], rest);
    }
  }

  /** The list sorted by ID: a sorted permutation, as the runtime's list sort produces. */
  function SortByID(s: seq<LevelData>): (r: seq<LevelData>)
    reads set l | l in s
    ensures SortedByID(r)
    ensures multiset(r) == multiset(s)
    ensures forall l :: l in r ==> l in s
    decreases |s|
  {
    if |s| == 0 then []
    else
      assert s == [s[0]] + s[1..];
      var sorted := SortByID(s[1..]);
      InsertByIDAddsLevel(sorted, s[0]);
      InsertByIDKeepsSorted(sorted, s[0]);
      InsertByID(sorted, s[0])
  }

  /** The position of the first occurrence of the object x, or |s| when it is absent. */
  function FirstIndexOf(s: seq<LevelData>, x: LevelData): (k: nat)
    ensures k <= |s| && x !in s[..k]
    ensures k < |s| ==> s[k] == x
    decreases |s|
  {
    if |s| == 0 || s[0] == x then 0
    else
      var k := 1 + FirstIndexOf(s[1..], x);
      assert s[..k] == [s[0]] + s[1..][..k - 1];
      k
  }

  /** The list with the first occurrence of x taken out, or unchanged when x is absent. */
  function RemoveFirst(s: seq<LevelData>, x: LevelData): (r: seq<LevelData>)
    ensures x !in s ==> r == s
    ensures x in s ==> |r| == |s| - 1
    ensures var k := FirstIndexOf(s, x); k < |s| ==> r == s[..k] + s[k + 1..]
    ensures multiset(r) == multiset(s) - multiset{x}
  {
    var k := FirstIndexOf(s, x);
    if k < |s| then
      assert s == s[..k] + [x] + s[k + 1..];
      s[..k] + s[k + 1..]
    else
      s
  }

  /** Taking a level out of a sorted catalogue leaves it sorted. */
  lemma {:induction false} RemoveFirstKeepsSorted(s: seq<LevelData>, x: LevelData)
    requires SortedByID(s)
    ensures SortedByID(RemoveFirst(s, x))
  {
    var k := FirstIndexOf(s, x);
    if k < |s| {
      var r := RemoveFirst(s, x);
      assert r == s[..k] + s[k + 1..];
      forall i, j | 0 <= i < j < |r| ensures r[i].levelID <= r[j].levelID {
        var i' := if i < k then i else i + 1;
        var j' := if j < k then j else j + 1;
        assert r[i] == s[i'] && r[j] == s[j'];
      }
    }
  }

  class LevelDatabase {
    var levels: seq<LevelData>

    constructor (levels: seq<LevelData>)
      ensures this.levels == levels
    {
      this.levels := levels;
    }

    /** The first level with the given ID, or null when no level has it. */
    function GetLevelByID(id: int): (l: LevelData?)
      reads this, levels
      ensures l == null <==> forall i :: 0 <= i < |levels| ==> levels[i].levelID != id
      ensures l != null ==>
        l.levelID == id &&
        exists k :: 0 <= k < |levels| && levels[k] == l && forall j :: 0 <= j < k ==> levels[j].levelID != id
    {
      var k := FirstWithID(levels, id);
      if k < |levels| then levels[k] else null
    }

    /**
     * Adds a level object not yet in the catalogue and re-sorts by ID; a level already present
     * (the same object) changes nothing. A different object with an ID already present is added.
     */
    method AddLevel(level: LevelData)
      modifies this
      ensures level in old(levels) ==> levels == old(levels)
      ensures level !in old(levels) ==>
        |levels| == |old(levels)| + 1 &&
        multiset(levels) == multiset(old(levels)) + multiset{level} &&
        SortedByID(levels)
    {
      if level !in levels {
        levels := levels + [level];
        SortLevels();
        assert |levels| == |multiset(levels)|;
      }
    }

    /** Takes out the first occurrence of the level object; nothing happens when it is absent. */
    method RemoveLevel(level: LevelData)
      modifies this
      ensures var k := FirstIndexOf(old(levels), level);
        levels == if k < |old(levels)| then old(levels)[..k] + old(levels)[k + 1..] else old(levels)
      ensures multiset(levels) == multiset(old(levels)) - multiset{level}
      ensures SortedByID(old(levels)) ==> SortedByID(levels)
    {
      if SortedByID(levels) {
        RemoveFirstKeepsSorted(levels, level);
      }
      levels := RemoveFirst(levels, level);
    }

    /** Re-orders the catalogue by ID. */
    method SortLevels()
      modifies this
      ensures SortedByID(levels) && multiset(levels) == multiset(old(levels))
    {
      levels := SortByID(levels);
    }

    /** The number of levels in the catalogue. */
    function GetLevelCount(): (n: nat)
      reads this
      ensures n == |levels|
    {
      |levels|
    }
  }
}
