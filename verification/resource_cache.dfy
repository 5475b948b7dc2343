/** Memoised asset loading (ResourceCache.cpp): each file is loaded at most once
    and later requests get the stored handle. */
module ResourceCaches {

  /** Opaque handles standing for the loaded texture and sound objects. */
  datatype ImageHandle = ImageHandle(id: nat)
  datatype SoundHandle = SoundHandle(id: nat)

  /** The two caches, keyed by file name. */
  datatype Cache = Cache(imageCache: map<string, ImageHandle>, soundCache: map<string, SoundHandle>)

  /** The lookup both getters perform. A hit returns the stored value and leaves the
      map alone; a miss stores `loaded` (what loading the file produces) under the
      key and returns it. Other keys are never changed or removed. */
  function Memo<V>(m: map<string, V>, key: string, loaded: V): (r: (map<string, V>, V))
    ensures key in r.0 && r.0[key] == r.1
    ensures r.0.Keys == m.Keys + {key}
    ensures forall k :: k in m ==> k in r.0 && r.0[k] == m[k]
    ensures key in m ==> r.0 == m
    ensures key !in m ==> r.1 == loaded
  {
    if key in m then (m, m[key]) else (m[key := loaded], loaded)
  }

  /** `getImage`. The sound cache is untouched. */
  function GetImage(c: Cache, fileName: string, loaded: ImageHandle): (r: (Cache, ImageHandle))
    ensures r.0.soundCache == c.soundCache
    ensures fileName in c.imageCache ==> r == (c, c.imageCache[fileName])
    ensures fileName !in c.imageCache ==> r.1 == loaded && r.0.imageCache == c.imageCache[fileName := loaded]
  {
    var (m, h) := Memo(c.imageCache, fileName, loaded);
    (c.(imageCache := m), h)
  }

  /** `getSound`. The image cache is untouched. */
  function GetSound(c: Cache, fileName: string, loaded: SoundHandle): (r: (Cache, SoundHandle))
    ensures r.0.imageCache == c.imageCache
    ensures fileName in c.soundCache ==> r == (c, c.soundCache[fileName])
    ensures fileName !in c.soundCache ==> r.1 == loaded && r.0.soundCache == c.soundCache[fileName := loaded]
  {
    var (m, h) := Memo(c.soundCache, fileName, loaded);
    (c.(soundCache := m), h)
  }

  /** Asking twice for the same image returns the same handle and changes nothing
      the second time, whatever a second load would have produced. */
  lemma GetImageIdempotent(c: Cache, fileName: string, first: ImageHandle, second: ImageHandle)
    ensures var (c1, h1) := GetImage(c, fileName, first);
      GetImage(c1, fileName, second) == (c1, h1)
  {
  }

  /** Asking twice for the same sound returns the same handle. */
  lemma GetSoundIdempotent(c: Cache, fileName: string, first: SoundHandle, second: SoundHandle)
    ensures var (c1, h1) := GetSound(c, fileName, first);
      GetSound(c1, fileName, second) == (c1, h1)
  {
  }

  /** Requests for a list of image files, in order, threading the cache: every
      requested name ends up cached, nothing else is added, and earlier entries keep
      their handles. */
  function GetImages(c: Cache, fileNames: seq<string>, loaded: seq<ImageHandle>): (r: Cache)
    requires |loaded| == |fileNames|
    ensures r.soundCache == c.soundCache
    ensures forall i :: 0 <= i < |fileNames| ==> fileNames[i] in r.imageCache
    ensures forall k :: k in r.imageCache ==> k in c.imageCache || k in fileNames
    ensures forall k :: k in c.imageCache ==> k in r.imageCache && r.imageCache[k] == c.imageCache[k]
    decreases |fileNames|
  {
    if |fileNames| == 0 then c
    else GetImages(GetImage(c, fileNames[0], loaded[0]).0, fileNames[1..], loaded[1..])
  }
}
