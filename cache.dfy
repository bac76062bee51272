/**
 * The token cache: per file, the token count last computed, with the modification time and
 * content hash it was computed for, under the estimator that computed it. Loading the cache
 * file and saving it are I/O; what `TokenCache::new` decides about a loaded cache is the
 * function `Reuse`.
 */
module Cache {
  import opened Wrappers
  import opened Paths
  import opened Tokenizer

  /** One cached count; `mtime` is a `u64` of seconds and `hash` the content digest in hex. */
  datatype CacheEntry = CacheEntry(tokenCount: nat, mtime: nat, hash: string)

  /** What the cache file holds once parsed: the entries and the estimator they were counted with. */
  datatype CacheData = CacheData(entries: map<Path, CacheEntry>, estimator: TokenEstimator)

  /** `HashMap::get`. */
  function Lookup(entries: map<Path, CacheEntry>, path: Path): Option<CacheEntry> {
    if path in entries then Some(entries[path]) else None
  }

  /**
   * The decision in `TokenCache::new`: a cache that was read and parsed (`loaded`) is used
   * as it is when its estimator is the requested one; otherwise the cache starts empty
   * under the requested estimator.
   */
  function Reuse(loaded: Option<CacheData>, estimator: TokenEstimator): CacheData {
    if loaded.Some? && loaded.value.estimator == estimator then loaded.value
    else CacheData(map[], estimator)
  }

  class TokenCache {
    var entries: map<Path, CacheEntry>
    var estimator: TokenEstimator

    /** `TokenCache::new`, with the outcome of reading and parsing the cache file as `loaded`. */
    constructor (loaded: Option<CacheData>, estimator: TokenEstimator)
      ensures CacheData(entries, this.estimator) == Reuse(loaded, estimator)
    ensures (loaded.None? || loaded.value.estimator != estimator) ==> forall q :: GetEntry(q) == None
    {
      var chosen := Reuse(loaded, estimator);
      this.entries := chosen.entries;
      this.estimator := chosen.estimator;
    }

    /** `get_entry`. */
    function GetEntry(path: Path): Option<CacheEntry>
      reads this
    {
      Lookup(entries, path)
    }

    /** `insert_entry`: the entry for `path` is replaced or added. */
    method InsertEntry(path: Path, entry: CacheEntry)
      modifies this
      ensures entries == old(entries)[path := entry] && estimator == old(estimator)
      ensures GetEntry(path) == Some(entry)
      ensures forall q :: q != path ==> GetEntry(q) == old(GetEntry(q))
    {
      entries := entries[path := entry];
    }

    /** `clear`: every entry goes; the estimator stays. */
    method Clear()
      modifies this
      ensures entries == map[] && estimator == old(estimator)
      ensures forall q :: GetEntry(q) == None
    {
      entries := map[];
    }
  }

  // ---------------------------------------------------------------------------
  // Properties
  // ---------------------------------------------------------------------------

  /**
   * The cache in use always belongs to the requested estimator, and it is the loaded one
   * exactly when that was counted with the same estimator; otherwise it is empty.
   */
  lemma ReuseDecision(loaded: Option<CacheData>, estimator: TokenEstimator)
    ensures Reuse(loaded, estimator).estimator == estimator
    ensures loaded.Some? ==> (Reuse(loaded, estimator) == loaded.value <==> loaded.value.estimator == estimator)
    ensures (loaded.None? || loaded.value.estimator != estimator) ==> Reuse(loaded, estimator).entries == map[]
  {
  }

  /** Counts made by another estimator are never served. */
  lemma NoStaleEstimator(loaded: Option<CacheData>, estimator: TokenEstimator, q: Path)
    requires loaded.Some? && loaded.value.estimator != estimator
    ensures Lookup(Reuse(loaded, estimator).entries, q) == None
  {
  }

  /**
   * A cache that starts without a usable file knows no path, whatever is asked; its
   * estimator is the requested one.
   */
  method LookupInFresh(loaded: Option<CacheData>, estimator: TokenEstimator, q: Path)
    returns (r: Option<CacheEntry>, e: TokenEstimator)
    ensures e == estimator
    ensures (loaded.None? || loaded.value.estimator != estimator) ==> r == None
    ensures loaded.Some? && loaded.value.estimator == estimator ==> r == Lookup(loaded.value.entries, q)
  {
    var cache := new TokenCache(loaded, estimator);
    r := cache.GetEntry(q);
    e := cache.estimator;
  }

  /** Inserting twice at one path keeps the second entry; every other path keeps what it had. */
  method InsertTwice(loaded: Option<CacheData>, estimator: TokenEstimator, path: Path,
                     first: CacheEntry, second: CacheEntry, other: Path)
    returns (hit: Option<CacheEntry>, otherBefore: Option<CacheEntry>, otherAfter: Option<CacheEntry>)
    ensures hit == Some(second)
    ensures other != path ==> otherAfter == otherBefore
    ensures otherBefore == Lookup(Reuse(loaded, estimator).entries, other)
  {
    var cache := new TokenCache(loaded, estimator);
    otherBefore := cache.GetEntry(other);
    cache.InsertEntry(path, first);
    cache.InsertEntry(path, second);
    hit := cache.GetEntry(path);
    otherAfter := cache.GetEntry(other);
  }

  /** A fresh cache does not know a file; after an insertion it returns the entry; after clearing it forgets it. */
  method CacheOperations(path: Path) returns (before: Option<CacheEntry>, stored: Option<CacheEntry>, after: Option<CacheEntry>)
    ensures before == None
    ensures stored == Some(CacheEntry(42, 123456789, "test_hash"))
    ensures after == None
  {
    var cache := new TokenCache(None, Cl100k);
    before := cache.GetEntry(path);
    cache.InsertEntry(path, CacheEntry(42, 123456789, "test_hash"));
    stored := cache.GetEntry(path);
    cache.Clear();
    after := cache.GetEntry(path);
  }
}
