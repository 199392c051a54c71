/**
 * Progress bookkeeping (Assets/Scripts/Managers/GameManager.cs): the best completion time of
 * each level, kept in the persistent key-value store under one key per level, and the unlock
 * rule derived from it. A stored 0 means "no record". Times are only compared, never computed.
 */
module Progress {

  /** The persistent store of best times, keyed by level ID. */
  type Store = map<int, real>

  /** The best time recorded for a level, or 0 when the store has none. */
  function BestTime(store: Store, levelID: int): real
  {
    if levelID in store then store[levelID] else 0.0
  }

  /** A finishing time beats the current best when there is no record yet or it is strictly lower. */
  predicate IsNewRecord(currentBest: real, time: real)
  {
    currentBest == 0.0 || time < currentBest
  }

  /** The store after a level is finished in `time`, and whether that was a new record. */
  function SaveBest(store: Store, levelID: int, time: real): (r: (Store, bool))
    ensures r.1 <==> IsNewRecord(BestTime(store, levelID), time)
    ensures r.1 ==> BestTime(r.0, levelID) == time
    ensures !r.1 ==> r.0 == store
    ensures forall l :: l != levelID ==> (l in r.0 <==> l in store) && BestTime(r.0, l) == BestTime(store, l)
  {
    if IsNewRecord(BestTime(store, levelID), time) then (store[levelID := time], true)
    else (store, false)
  }

  /**
   * After saving, the stored best of the level is at most the time just achieved, and an
   * existing record never gets worse.
   */
  lemma SaveBestNeverWorsens(store: Store, levelID: int, time: real)
    ensures BestTime(SaveBest(store, levelID, time).0, levelID) <= time
    ensures BestTime(store, levelID) != 0.0 ==>
      BestTime(SaveBest(store, levelID, time).0, levelID) <= BestTime(store, levelID)
  {
  }

  /** Level 1 is always open; any other level opens once the level before it has a positive best time. */
  predicate IsUnlocked(store: Store, levelID: int)
  {
    levelID == 1 || BestTime(store, levelID - 1) > 0.0
  }

  /** No recorded time is negative. */
  predicate NoNegativeTimes(store: Store)
  {
    forall l :: l in store ==> store[l] >= 0.0
  }

  /**
   * Finishing a level in a positive time opens the next level, and saving such a time never
   * closes a level that was open.
   */
  lemma CompletingUnlocks(store: Store, levelID: int, time: real, other: int)
    requires NoNegativeTimes(store) && time > 0.0
    ensures IsUnlocked(SaveBest(store, levelID, time).0, levelID + 1)
    ensures IsUnlocked(store, other) ==> IsUnlocked(SaveBest(store, levelID, time).0, other)
    ensures NoNegativeTimes(SaveBest(store, levelID, time).0)
  {
    var r := SaveBest(store, levelID, time);
    assert BestTime(r.0, levelID) > 0.0 by {
      if !r.1 {
        assert BestTime(store, levelID) != 0.0 && BestTime(store, levelID) >= 0.0;
      }
    }
  }

  /**
   * The record scenario: a first finish in 45.2 s is a new record, 50.0 s afterwards is not and
   * keeps 45.2, then 30.0 s is a new record. Level 2 is locked until level 1 has a record.
   */
  lemma RecordScenario()
    ensures var s1 := SaveBest(map[], 2, 45.2);
      s1.1 && BestTime(s1.0, 2) == 45.2 &&
      var s2 := SaveBest(s1.0, 2, 50.0);
      !s2.1 && BestTime(s2.0, 2) == 45.2 &&
      var s3 := SaveBest(s2.0, 2, 30.0);
      s3.1 && BestTime(s3.0, 2) == 30.0
    ensures IsUnlocked(map[], 1) && !IsUnlocked(map[], 2) && IsUnlocked(SaveBest(map[], 1, 45.2).0, 2)
  {
  }
}

/**
 * The game-wide state: the two catalogues, the level chosen for play and the best-time store.
 * The engine singleton becomes an object handed to whoever needs it.
 */
module GameManagement {

  import opened Wrappers
  import opened Engine
  import opened Progress
  import opened Levels
  import opened LevelCatalog
  import opened Photos

  class GameManager {
    var photoDatabase: PhotoDatabase
    var levelDatabase: LevelDatabase
    var currentLevel: LevelData?
    var selectedLevelID: int
    /** The persisted best times; survives between sessions, so it is given at start-up. */
    var prefs: Store

    constructor (photoDatabase: PhotoDatabase, levelDatabase: LevelDatabase, prefs: Store)
      ensures this.photoDatabase == photoDatabase && this.levelDatabase == levelDatabase
      ensures currentLevel == null && selectedLevelID == 0 && this.prefs == prefs
    {
      this.photoDatabase := photoDatabase;
      this.levelDatabase := levelDatabase;
      currentLevel := null;
      selectedLevelID := 0;
      this.prefs := prefs;
    }

    /** Remembers the chosen level ID and looks the level up; the level is null when the ID is unknown. */
    method SetCurrentLevel(levelID: int)
      modifies this`selectedLevelID, this`currentLevel
      ensures selectedLevelID == levelID
      ensures currentLevel == levelDatabase.GetLevelByID(levelID)
      ensures currentLevel != null ==> currentLevel.levelID == levelID
    {
      selectedLevelID := levelID;
      currentLevel := levelDatabase.GetLevelByID(levelID);
    }

    /** The sprite of the first photo with the given ID; None when there is no such photo or it has no sprite. */
    function GetPhotoSprite(photoID: int): (s: Option<Sprite>)
      reads this, photoDatabase
      ensures (forall i :: 0 <= i < |photoDatabase.photos| ==> photoDatabase.photos[i].id != photoID) ==> s.None?
      ensures forall k ::
        (0 <= k < |photoDatabase.photos| && photoDatabase.photos[k].id == photoID &&
         forall j :: 0 <= j < k ==> photoDatabase.photos[j].id != photoID) ==>
        s == photoDatabase.photos[k].sprite
    {
      match photoDatabase.GetPhotoByID(photoID)
      case None => None
      case Some(photo) => photo.sprite
    }

    /** The best time stored for the level, 0 when there is none. */
    function GetBestTime(levelID: int): (t: real)
      reads this
      ensures levelID !in prefs ==> t == 0.0
      ensures levelID in prefs ==> t == prefs[levelID]
    {
      BestTime(prefs, levelID)
    }

    /**
     * Stores the time as the level's best when there is no record or it beats the record, and
     * says whether it did; only the key of that level is ever written.
     */
    method SaveBestTime(levelID: int, time: real) returns (isNewRecord: bool)
      modifies this`prefs
      ensures (prefs, isNewRecord) == SaveBest(old(prefs), levelID, time)
    {
      var currentBest := GetBestTime(levelID);
      if currentBest == 0.0 || time < currentBest {
        prefs := prefs[levelID := time];
        return true;
      }
      return false;
    }

    /** Whether the level can be played. */
    function IsLevelUnlocked(levelID: int): (unlocked: bool)
      reads this
      ensures levelID == 1 ==> unlocked
      ensures levelID != 1 ==> (unlocked <==> GetBestTime(levelID - 1) > 0.0)
      ensures unlocked == IsUnlocked(prefs, levelID)
    {
      if levelID == 1 then true
      else
        var previousBest := GetBestTime(levelID - 1);
        previousBest > 0.0
    }
  }
}
