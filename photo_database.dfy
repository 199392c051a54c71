/**
 * The photo catalogue (Assets/Scripts/Data/PhotoDatabase.cs) and its record type
 * (Assets/Scripts/Data/PhotoData.cs): photos with an ID, a display name and a sprite.
 */
module Photos {

  import opened Wrappers
  import opened Engine

  /** A catalogue entry; the sprite is None when the entry has no image assigned. */
  datatype Photo = Photo(id: int, photoName: string, sprite: Option<Sprite>)

  /** The position of the first photo with the given ID, or |s| when there is none. */
  function FirstWithID(s: seq<Photo>, id: int): (k: nat)
    ensures k <= |s|
    ensures k < |s| ==> s[k].id == id
    ensures forall j :: 0 <= j < k ==> s[j].id != id
    decreases |s|
  {
    if |s| == 0 then 0
    else if s[0].id == id then 0
    else 1 + FirstWithID(s[1..], id)
  }

  /** No two photos share an ID. */
  predicate DistinctIDs(s: seq<Photo>)
  {
    forall i, j :: 0 <= i < j < |s| ==> s[i].id != s[j].id
  }

  /** The catalogue built from the sprites found in the image folder: photo i has ID i. */
  function LoadedPhotos(sprites: seq<Sprite>): (s: seq<Photo>)
  {
    seq(|sprites|, i requires 0 <= i < |sprites| => Photo(i, sprites[i].name, Some(sprites[i])))
  }

  /**
   * A freshly loaded catalogue has one photo per sprite, photo i carrying ID i and the i-th
   * sprite with its name, its IDs are distinct, and looking up ID i finds photo i.
   */
  lemma LoadedPhotosLookup(sprites: seq<Sprite>, i: int)
    requires 0 <= i < |sprites|
    ensures var s := LoadedPhotos(sprites);
      |s| == |sprites| && DistinctIDs(s) &&
      s[i] == Photo(i, sprites[i].name, Some(sprites[i])) &&
      FirstWithID(s, i) == i
  {
  }

  class PhotoDatabase {
    var photos: seq<Photo>

    constructor (photos: seq<Photo>)
      ensures this.photos == photos
    {
      this.photos := photos;
    }

    /** The first photo with the given ID, or None when no photo has it. */
    function GetPhotoByID(id: int): (p: Option<Photo>)
      reads this
      ensures p.None? <==> forall i :: 0 <= i < |photos| ==> photos[i].id != id
      ensures p.Some? ==>
        p.value.id == id &&
        exists k :: 0 <= k < |photos| && photos[k] == p.value && forall j :: 0 <= j < k ==> photos[j].id != id
    {
      var k := FirstWithID(photos, id);
      if k < |photos| then Some(photos[k]) else None
    }

    /** Appends the photo unless a photo with the same ID is already there. */
    method AddPhoto(photo: Photo)
      modifies this
      ensures (exists i :: 0 <= i < |old(photos)| && old(photos)[i].id == photo.id) ==> photos == old(photos)
      ensures (forall i :: 0 <= i < |old(photos)| ==> old(photos)[i].id != photo.id) ==> photos == old(photos) + [photo]
      ensures DistinctIDs(old(photos)) ==> DistinctIDs(photos)
    {
      if !(exists i :: 0 <= i < |photos| && photos[i].id == photo.id) {
        photos := photos + [photo];
      }
    }

    /** Empties the catalogue. */
    method ClearPhotos()
      modifies this
      ensures photos == []
    {
      photos := [];
    }

    /** Rebuilds the catalogue from the sprites found in the image folder, in their order. */
    method RefreshPhotos(sprites: seq<Sprite>)
      modifies this
      ensures photos == LoadedPhotos(sprites)
      ensures |photos| == |sprites| && DistinctIDs(photos)
      ensures forall i :: 0 <= i < |sprites| ==>
        GetPhotoByID(i) == Some(Photo(i, sprites[i].name, Some(sprites[i])))
    {
      photos := [];
      var i := 0;
      while i < |sprites|
        invariant 0 <= i <= |sprites|
        invariant photos == LoadedPhotos(sprites[..i])
      {
        photos := photos + [Photo(i, sprites[i].name, Some(sprites[i]))];
        i := i + 1;
      }
      assert sprites[..i] == sprites;
      forall i | 0 <= i < |sprites|
        ensures GetPhotoByID(i) == Some(Photo(i, sprites[i].name, Some(sprites[i])))
      {
        LoadedPhotosLookup(sprites, i);
      }
      if |sprites| > 0 {
        LoadedPhotosLookup(sprites, 0);
      }
    }
  }
}
