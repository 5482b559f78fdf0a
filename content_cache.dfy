/**
 * `useFragmentContent`: the module-level cache of fetched fragment bodies,
 * keyed by fragment id and view format, with a thirty-minute freshness window.
 * Time is a parameter (milliseconds, as `Date.now()` reports it), and the
 * outcome of the network fetch is supplied by the caller.
 */
module ContentCache {
  import opened Wrappers
  import Strings

  /** Entries younger than this many milliseconds are served from the cache. */
  const CacheTtlMs: int := 30 * 60 * 1000

  /** The placeholder stored in place of a body whose fetch failed. */
  const ErrorPlaceholder: string := "Error loading fragment content"

  datatype CacheEntry = CacheEntry(content: string, timestamp: int)

  /** What the fetch of an endpoint came back with. */
  datatype FetchOutcome = Fetched(body: string) | FetchFailed

  /** What the query function resolves to: `null`, a body, or a rejection. */
  datatype QueryResult = NoData | Served(content: string) | Rejected

  /** `getCacheKey` */
  function GetCacheKey(fragmentId: string, format: string): (key: string)
    ensures Strings.StartsWith(key, FragmentPrefix(fragmentId))
    ensures key[|FragmentPrefix(fragmentId)|..] == format
  {
    fragmentId + "-" + format
  }

  /** The prefix shared by every key of one fragment. */
  function FragmentPrefix(fragmentId: string): string {
    fragmentId + "-"
  }

  /** The API path fetched for a view format: the bare id, or id.extension for a conversion. */
  function Endpoint(fragmentId: string, viewFormat: string): (endpoint: string)
    ensures Strings.StartsWith(endpoint, fragmentId)
    ensures endpoint == fragmentId <==> viewFormat == "original"
    ensures viewFormat != "original" ==> endpoint[|fragmentId|] == '.'
  {
    if viewFormat == "original" then fragmentId
    else fragmentId + "." + Strings.Render(Strings.SecondSegment(viewFormat))
  }

  /** The cached content of `key`, if an entry exists and is younger than the window. */
  function Lookup(entries: map<string, CacheEntry>, key: string, now: int): Option<string> {
    if key in entries && now - entries[key].timestamp < CacheTtlMs then Some(entries[key].content)
    else None
  }

  /** The cache after every key starting with `id-` is deleted. */
  function WithoutFragment(entries: map<string, CacheEntry>, fragmentId: string): map<string, CacheEntry> {
    map k | k in entries && !Strings.StartsWith(k, FragmentPrefix(fragmentId)) :: entries[k]
  }

  /** Every key of a fragment starts with that fragment's prefix. */
  lemma KeyHasFragmentPrefix(fragmentId: string, format: string)
    ensures Strings.StartsWith(GetCacheKey(fragmentId, format), FragmentPrefix(fragmentId))
  {
    assert GetCacheKey(fragmentId, format)[..|fragmentId| + 1] == FragmentPrefix(fragmentId);
  }

  /** With a dash-free format, the last '-' of a key is the one after the fragment id. */
  lemma LastDashEndsFragmentId(fragmentId: string, format: string)
    requires '-' !in format
    ensures var k := GetCacheKey(fragmentId, format);
      k[|fragmentId|] == '-' && forall j | |fragmentId| < j < |k| :: k[j] != '-'
  {
    var k := GetCacheKey(fragmentId, format);
    forall j | |fragmentId| < j < |k| ensures k[j] != '-' {
      assert k[j] == format[j - |fragmentId| - 1];
    }
  }

  /**
   * When formats hold no '-' (as "original" and MIME types do not), a key
   * names one fragment and one format.
   */
  lemma KeyDeterminesFragmentAndFormat(id1: string, f1: string, id2: string, f2: string)
    requires '-' !in f1 && '-' !in f2
    requires GetCacheKey(id1, f1) == GetCacheKey(id2, f2)
    ensures id1 == id2 && f1 == f2
  {
    var k := GetCacheKey(id1, f1);
    LastDashEndsFragmentId(id1, f1);
    LastDashEndsFragmentId(id2, f2);
    assert k[|id2|] == '-';
    assert |id1| == |id2|;
    assert id1 == k[..|id1|] == id2;
    assert f1 == k[|id1| + 1..] == f2;
  }

  /** Keys of a fragment whose id extends `id-` share the prefix, so clearing `id` reaches them too. */
  lemma PrefixReachesLongerIds(fragmentId: string, suffix: string, format: string)
    ensures Strings.StartsWith(GetCacheKey(fragmentId + "-" + suffix, format), FragmentPrefix(fragmentId))
  {
    var k := GetCacheKey(fragmentId + "-" + suffix, format);
    assert k[..|fragmentId| + 1] == FragmentPrefix(fragmentId);
  }

  /** The original format fetches the bare id. */
  lemma EndpointOfOriginal(fragmentId: string)
    ensures Endpoint(fragmentId, "original") == fragmentId
  {
  }

  /** A `type/subtype` view format fetches `id.subtype`. */
  lemma EndpointOfMime(fragmentId: string, top: string, sub: string)
    requires '/' !in top && '/' !in sub
    ensures Endpoint(fragmentId, top + "/" + sub) == fragmentId + "." + sub
  {
    assert (top + "/" + sub)[|top|] == '/';
    assert '/' !in "original";
    Strings.SecondSegmentOfMime(top, sub, "");
    assert top + "/" + sub + "" == top + "/" + sub;
  }

  /** A view format without '/' (other than "original") fetches `id.undefined`. */
  lemma EndpointWithoutSlash(fragmentId: string, viewFormat: string)
    requires viewFormat != "original" && '/' !in viewFormat
    ensures Endpoint(fragmentId, viewFormat) == fragmentId + ".undefined"
  {
    Strings.SecondSegmentMissingIffNoSlash(viewFormat);
  }

  /** A stored entry is served exactly while it is younger than thirty minutes. */
  lemma StoredEntryServedWithinWindow(entries: map<string, CacheEntry>, key: string, content: string, storedAt: int, now: int)
    ensures Lookup(entries[key := CacheEntry(content, storedAt)], key, now) ==
              (if now < storedAt + 1800000 then Some(content) else None)
  {
  }

  /** Storing under one key leaves the lookups of every other key as they were. */
  lemma StoreLeavesOtherKeys(entries: map<string, CacheEntry>, key: string, other: string, e: CacheEntry, now: int)
    requires other != key
    ensures Lookup(entries[key := e], other, now) == Lookup(entries, other, now)
  {
  }

  /** After clearing a fragment, none of its formats is served from the cache. */
  lemma ClearedFragmentMisses(entries: map<string, CacheEntry>, fragmentId: string, format: string, now: int)
    ensures Lookup(WithoutFragment(entries, fragmentId), GetCacheKey(fragmentId, format), now) == None
  {
    KeyHasFragmentPrefix(fragmentId, format);
  }

  /** Clearing a fragment keeps every key outside its prefix, with its entry. */
  lemma ClearKeepsOtherKeys(entries: map<string, CacheEntry>, fragmentId: string, key: string)
    requires !Strings.StartsWith(key, FragmentPrefix(fragmentId))
    ensures key in WithoutFragment(entries, fragmentId) <==> key in entries
    ensures key in entries ==> WithoutFragment(entries, fragmentId)[key] == entries[key]
  {
  }

  /** Clearing twice is clearing once. */
  lemma ClearIdempotent(entries: map<string, CacheEntry>, fragmentId: string)
    ensures WithoutFragment(WithoutFragment(entries, fragmentId), fragmentId) == WithoutFragment(entries, fragmentId)
  {
  }

  /** The shared `fragmentContentCache`. */
  class FragmentContentCache {
    var entries: map<string, CacheEntry>

    constructor ()
      ensures entries == map[]
    {
      entries := map[];
    }

    /**
     * The query function: nothing for a signed-out user; a fresh cached entry
     * without fetching; otherwise the fetch of the endpoint, whose body or
     * error placeholder is stored with the completion time.
     * `request` is the endpoint fetched, if any.
     */
    method Query(signedIn: bool, fragmentId: string, viewFormat: string, now: int,
                 outcome: FetchOutcome, completedAt: int)
      returns (result: QueryResult, request: Option<string>)
      modifies this
      ensures var key := GetCacheKey(fragmentId, viewFormat);
        && (!signedIn ==> result == NoData && request == None && entries == old(entries))
        && (signedIn && Lookup(old(entries), key, now).Some? ==>
              result == Served(Lookup(old(entries), key, now).value) && request == None && entries == old(entries))
        && (signedIn && Lookup(old(entries), key, now).None? ==>
              request == Some(Endpoint(fragmentId, viewFormat))
              && match outcome
                 case Fetched(body) =>
                   result == Served(body) && entries == old(entries)[key := CacheEntry(body, completedAt)]
                 case FetchFailed =>
                   result == Rejected && entries == old(entries)[key := CacheEntry(ErrorPlaceholder, completedAt)])
    {
      if !signedIn {
        return NoData, None;
      }
      var endpoint := fragmentId;
      if viewFormat != "original" {
        var extension := Strings.SecondSegment(viewFormat);
        endpoint := fragmentId + "." + Strings.Render(extension);
      }
      var cacheKey := GetCacheKey(fragmentId, viewFormat);
      if cacheKey in entries && now - entries[cacheKey].timestamp < CacheTtlMs {
        return Served(entries[cacheKey].content), None;
      }
      request := Some(endpoint);
      match outcome {
        case Fetched(body) =>
          entries := entries[cacheKey := CacheEntry(body, completedAt)];
          result := Served(body);
        case FetchFailed =>
          entries := entries[cacheKey := CacheEntry(ErrorPlaceholder, completedAt)];
          result := Rejected;
      }
    }

    /** `clearAllCachedFormatsForFragment`: deletes, one by one, every key starting with `id-`. */
    method ClearAllCachedFormatsForFragment(fragmentId: string)
      modifies this
      ensures entries == WithoutFragment(old(entries), fragmentId)
    {
      var prefix := fragmentId + "-";
      var pending := entries.Keys;
      while pending != {}
        invariant pending <= old(entries).Keys
        invariant forall k :: k in entries <==> k in old(entries) && (k in pending || !Strings.StartsWith(k, prefix))
        invariant forall k | k in entries :: entries[k] == old(entries)[k]
        decreases pending
      {
        var key :| key in pending;
        if Strings.StartsWith(key, prefix) {
          entries := entries - {key};
        }
        pending := pending - {key};
      }
    }
  }
}
