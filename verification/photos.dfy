/**
 * The photo list of an entry (`PhotoManager`): at most five URLs, added at
 * the end and removed by position. Each operation yields the new list to
 * store on the entry, or nothing when the entry is left as it is.
 */
module PhotoManager {
  import opened Wrappers
  import opened Types
  import Strings

  /** How many photos an entry can carry. */
  const MaxPhotos := 5

  /** `entry.photoUrls ?? []`. */
  function PhotosOf(e: CollectionEntry): seq<string> { e.photoUrls.GetOr([]) }

  /** The URL field is offered only while there is room for another photo. */
  predicate ShowsInput(photos: seq<string>) { |photos| < MaxPhotos }

  /** `addPhoto`: nothing for a blank URL or a full list, else the trimmed URL goes last. */
  function AddPhoto(photos: seq<string>, newUrl: string): (r: Option<seq<string>>)
    ensures r.None? <==> Strings.Trim(newUrl) == [] || |photos| >= MaxPhotos
    ensures r.Some? ==> r.value == photos + [Strings.Trim(newUrl)] && |r.value| <= MaxPhotos
  {
    var url := Strings.Trim(newUrl);
    if url == [] || |photos| >= MaxPhotos then None else Some(photos + [url])
  }

  /** `photos.filter((_, i) => i !== index)`: every photo whose position is not `index`, in order. */
  function RemovePhoto(photos: seq<string>, index: int): (r: seq<string>)
    ensures |r| <= |photos|
  {
    if photos == [] then []
    else
      var n := |photos| - 1;
      RemovePhoto(photos[..n], index) + (if n == index then [] else [photos[n]])
  }

  /** Removing position `index` cuts out exactly that photo; any other index leaves the list as it is. */
  lemma {:induction false} RemovePhotoCutsOne(photos: seq<string>, index: int)
    ensures 0 <= index < |photos| ==> RemovePhoto(photos, index) == photos[..index] + photos[index + 1..]
    ensures !(0 <= index < |photos|) ==> RemovePhoto(photos, index) == photos
  {
    if photos != [] {
      var n := |photos| - 1;
      RemovePhotoCutsOne(photos[..n], index);
      if n == index {
        assert photos[..n][..index] == photos[..index];
        assert photos[index + 1..] == [];
      } else if 0 <= index < n {
        assert photos[..n][..index] == photos[..index];
        assert photos[..n][index + 1..] + [photos[n]] == photos[index + 1..];
      } else {
        assert photos[..n] + [photos[n]] == photos;
      }
    }
  }

  /** Removing the photo just added gives back the list it was added to. */
  lemma RemoveUndoesAdd(photos: seq<string>, newUrl: string)
    requires AddPhoto(photos, newUrl).Some?
    ensures RemovePhoto(AddPhoto(photos, newUrl).value, |photos|) == photos
  {
    var added := AddPhoto(photos, newUrl).value;
    RemovePhotoCutsOne(added, |photos|);
    assert added[..|photos|] == photos;
  }
}
