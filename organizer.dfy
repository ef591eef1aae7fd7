/** The query-time half of `IndexOrganizer`: `loadIndexFor` in front of an
    access-ordered cache of at most ten tokens, and `removeFromCache`. */
module Organizer {
  import opened Wrappers
  import opened Lru
  import opened Ordered
  import opened JavaString
  import opened Compressor
  import opened IndexFiles

  /** `TOKENS_TO_CACHE`. */
  const TOKENS_TO_CACHE: nat := 10

  /** `cachedTokens`: token to the bytes last looked up for it. */
  type TokenCache = Cache<Option<seq<Byte>>>

  /** The token cache after `loadIndexFor(token)`: a cached token becomes
      the most recent access, a routed token is added (evicting the least
      recent when full), and a failed routing leaves the cache as it was. */
  ghost function Loaded(c: TokenCache, dir: Directory, token: string): (r: TokenCache)
    ensures r.capacity == c.capacity
    ensures c.Valid() ==> r.Valid() && r.entries.Keys <= c.entries.Keys + {token}
    ensures c.Valid() ==> (token in r.entries <==> token in c.entries || Lookup(dir, token).Ok?)
  {
    if token in c.entries then Get(c, token).1
    else
      match Lookup(dir, token)
      case Ok(bytes) => Put(c, token, bytes)
      case Err(_) => c
  }

  class IndexOrganizer {
    /** The index directory the lookups read. */
    const dir: Directory
    /** `cachedTokens`: token to the bytes last looked up for it, null
        (None) included. */
    var cachedTokens: TokenCache

    /** The cache keeps its bound, and every cached answer is the answer a
        lookup in the directory gives. */
    ghost predicate Valid()
      reads this
    {
      cachedTokens.Valid() && cachedTokens.capacity == TOKENS_TO_CACHE
      && forall t :: t in cachedTokens.entries ==> Lookup(dir, t) == Ok(cachedTokens.entries[t])
    }

    constructor (dir: Directory)
      ensures Valid() && this.dir == dir && cachedTokens.entries == map[]
    {
      this.dir := dir;
      cachedTokens := Empty(TOKENS_TO_CACHE);
    }

    /** The routing loop over the names sorted by `compareTo`. */
    static method RouteLoop(indices: seq<string>, token: string) returns (finalIndex: Option<string>)
      ensures finalIndex == RouteIn(indices, token, None)
    {
      finalIndex := None;
      var k := 0;
      while k < |indices|
        invariant k <= |indices|
        invariant RouteIn(indices, token, None) == RouteIn(indices[k..], token, finalIndex)
      {
        assert indices[k..][1..] == indices[k + 1..];
        var fileName := indices[k];
        if !EndsWith(fileName, ".idx") {
          k := k + 1;
          continue;
        }
        if Less(token, Stem(fileName)) {
          break;
        }
        finalIndex := Some(fileName);
        k := k + 1;
      }
    }

    /** `buildIndexFor(File, String)`: read records until the token matches
        or the file ends. */
    static method BuildIndexFor(records: seq<IndexRecord>, token: string) returns (bytes: Option<seq<Byte>>)
      ensures bytes == Scan(records, token)
    {
      var k := 0;
      while k < |records|
        invariant k <= |records|
        invariant Scan(records, token) == Scan(records[k..], token)
      {
        assert records[k..][1..] == records[k + 1..];
        if records[k].token == token {
          return Some(records[k].bytes);
        }
        k := k + 1;
      }
      bytes := None;
    }

    /** `loadIndexFor`: a cached token is answered from the cache (and
        becomes its most recent access) without routing; otherwise the
        token is routed and scanned, and the answer, null included, is
        cached. Whatever the cache holds, the answer is the directory's. */
    method LoadIndexFor(token: string) returns (r: Result<Option<seq<Byte>>>)
      requires Valid()
      modifies this
      ensures Valid()
      ensures r == Lookup(dir, token)
      ensures old(token in cachedTokens.entries) ==> cachedTokens == Get(old(cachedTokens), token).1
      ensures old(token !in cachedTokens.entries) && r.Ok? ==> cachedTokens == Put(old(cachedTokens), token, r.value)
      ensures r.Err? ==> cachedTokens == old(cachedTokens)
      ensures cachedTokens == Loaded(old(cachedTokens), dir, token)
    {
      if ContainsKey(cachedTokens, token) {
        var hit := Get(cachedTokens, token);
        cachedTokens := hit.1;
        return Ok(hit.0.value);
      }
      var indices := SortNames(dir.Keys);
      var finalIndex := RouteLoop(indices, token);
      if finalIndex.None? {
        return Err(NullReference);
      }
      RouteChoosesBelow(indices, token, None);
      var bytes := BuildIndexFor(dir[finalIndex.value], token);
      CachePut(token, bytes);
      r := Ok(bytes);
    }

    /** `cachedTokens.put` of the directory's answer for `token`. */
    method CachePut(token: string, bytes: Option<seq<Byte>>)
      requires Valid() && Lookup(dir, token) == Ok(bytes)
      modifies this
      ensures Valid()
      ensures cachedTokens == Put(old(cachedTokens), token, bytes)
    {
      var c := cachedTokens;
      cachedTokens := Put(c, token, bytes);
      forall t | t in cachedTokens.entries ensures Lookup(dir, t) == Ok(cachedTokens.entries[t]) {
        if t != token {
          PutKeepsOthers(c, token, bytes, t);
        }
      }
    }

    /** `removeFromCache`: true exactly when the token was cached; only
        that entry goes. */
    method RemoveFromCache(token: string) returns (r: bool)
      requires Valid()
      modifies this
      ensures Valid()
      ensures r == old(token in cachedTokens.entries)
      ensures cachedTokens == Remove(old(cachedTokens), token)
    {
      if ContainsKey(cachedTokens, token) {
        cachedTokens := Remove(cachedTokens, token);
        return true;
      }
      assert Without(cachedTokens.order, token) == cachedTokens.order;
      assert cachedTokens.entries - {token} == cachedTokens.entries;
      r := false;
    }
  }
}
