/** The answer cache: one entry per endpoint and request, probed for the endpoints that could be asked now. */
module JsonrpcCaches {
  import opened Types
  import opened Fleets
  import opened EndpointSets
  import opened Multiplexers

  const PREFIX := "CC/"

  datatype Entry = Entry(data: string, deadline: int)

  type Entries = map<CacheKey, Entry>

  /** An answer of an endpoint to a request, kept from `time` on for `expiration`. */
  datatype Write = Write(epName: string, request: Request, data: string, time: int, expiration: int)

  function Stored(entries: Entries, w: Write): Entries {
    entries[KeyFor(PREFIX, w.epName, w.request) := Entry(w.data, w.time + w.expiration)]
  }

  function StoredAll(writes: seq<Write>): Entries {
    if writes == [] then map[] else Stored(StoredAll(writes[..|writes| - 1]), writes[|writes| - 1])
  }

  /** The last answer stored for an endpoint and a request. */
  function Latest(writes: seq<Write>, n: string, request: Request): Option<Write> {
    if writes == [] then None
    else
      var w := writes[|writes| - 1];
      if w.epName == n && w.request == request then Some(w) else Latest(writes[..|writes| - 1], n, request)
  }

  /** That answer, unless it has expired. */
  function LatestData(writes: seq<Write>, n: string, request: Request, now: int): Option<string> {
    var w := Latest(writes, n, request);
    if w.Some? && now < w.value.time + w.value.expiration then Some(w.value.data) else None
  }

  /** Write `i` is the last for the endpoint and the request, and has not expired. */
  predicate Stands(writes: seq<Write>, n: string, request: Request, now: int, i: int) {
    && 0 <= i < |writes| && writes[i].epName == n && writes[i].request == request
    && (forall j :: i < j < |writes| ==> writes[j].epName != n || writes[j].request != request)
    && now < writes[i].time + writes[i].expiration
  }

  lemma {:induction false} LatestStands(writes: seq<Write>, n: string, request: Request, now: int)
    ensures LatestData(writes, n, request, now).Some? <==> exists i :: Stands(writes, n, request, now, i)
    ensures forall i :: Stands(writes, n, request, now, i) ==>
              LatestData(writes, n, request, now) == Some(writes[i].data)
  {
    if writes == [] {
    } else {
      var front, last := writes[..|writes| - 1], |writes| - 1;
      LatestStands(front, n, request, now);
      if writes[last].epName == n && writes[last].request == request {
        assert LatestData(writes, n, request, now).Some? ==> Stands(writes, n, request, now, last);
      } else {
        forall i ensures Stands(writes, n, request, now, i) <==> Stands(front, n, request, now, i) {
        }
      }
    }
  }

  lemma KeyTellsName(m: string, n: string, r: Request, q: Request)
    ensures KeyFor(PREFIX, m, r) == KeyFor(PREFIX, n, q) <==> m == n && r == q
    ensures KeyFor(PREFIX, m, r) == CacheKey("CC/" + m + "/", r)
  {
    var a, b := PREFIX + m + "/", PREFIX + n + "/";
    assert a[|PREFIX|..|a| - 1] == m && b[|PREFIX|..|b| - 1] == n;
  }

  function Lookup(entries: Entries, key: CacheKey, now: int): Option<string> {
    if key in entries && now < entries[key].deadline then Some(entries[key].data) else None
  }

  /** Looking up an endpoint's key finds its latest unexpired answer: no other endpoint or request gets in its way. */
  lemma {:induction false} LookupFindsLatest(writes: seq<Write>, n: string, request: Request, now: int)
    ensures KeyFor(PREFIX, n, request) in StoredAll(writes) <==> Latest(writes, n, request).Some?
    ensures Lookup(StoredAll(writes), KeyFor(PREFIX, n, request), now) == LatestData(writes, n, request, now)
  {
    if writes == [] {
    } else {
      var w := writes[|writes| - 1];
      LookupFindsLatest(writes[..|writes| - 1], n, request, now);
      KeyTellsName(w.epName, n, w.request, request);
    }
  }

  class Cache {
    var entries: Entries
    /** All that was ever stored. */
    ghost var writes: seq<Write>

    ghost predicate Valid()
      reads this
    {
      entries == StoredAll(writes)
    }

    constructor ()
      ensures Valid() && writes == []
    {
      entries, writes := map[], [];
    }

    /** Values in the order of the keys, None where there is nothing or nothing any more. */
    method MGet(keys: seq<CacheKey>, now: int) returns (values: seq<Option<string>>)
      ensures |values| == |keys| && forall i :: 0 <= i < |keys| ==> values[i] == Lookup(entries, keys[i], now)
    {
      values := seq(|keys|, i requires 0 <= i < |keys| reads this => Lookup(entries, keys[i], now));
    }
  }

  /** Stores an answer; without a store for the chain or without an endpoint nothing happens. */
  method JsonrpcCacheUpdate(cache: Cache?, epName: Option<string>, request: Request, data: string, expiration: int,
                            now: int)
    requires cache != null ==> cache.Valid()
    modifies cache
    ensures cache != null ==> cache.Valid()
    ensures cache != null ==>
              cache.writes == old(cache.writes) +
                              if epName.Some? then [Write(epName.value, request, data, now, expiration)] else []
  {
    if epName.None? {
      return;
    }
    if cache != null {
      ghost var w := Write(epName.value, request, data, now, expiration);
      cache.entries := cache.entries[KeyFor(PREFIX, epName.value, request) := Entry(data, now + expiration)];
      cache.writes := cache.writes + [w];
      assert cache.writes[..|cache.writes| - 1] == old(cache.writes);
    }
  }

  /** The decoder of stored answers, which may refuse a text. */
  type Decoder = string -> Option<string>

  function Decoded(data: Option<string>, decode: Decoder): Option<string> {
    if data.Some? then decode(data.value) else None
  }

  /** `hit` is what is decoded under one of the keys; without one there is nothing, or something undecodable. */
  ghost predicate Probed(entries: Entries, keys: seq<CacheKey>, now: int, decode: Decoder, hit: Option<string>) {
    if hit.Some? then exists k :: k in keys && Decoded(Lookup(entries, k, now), decode) == hit
    else
      || (forall k :: k in keys ==> Lookup(entries, k, now).None?)
      || exists k :: k in keys && Refused(entries, k, now, decode)
  }

  predicate Refused(entries: Entries, key: CacheKey, now: int, decode: Decoder) {
    Lookup(entries, key, now).Some? && decode(Lookup(entries, key, now).value).None?
  }

  /**
   `hit` is the latest unexpired answer of one of the endpoints; without one none of them has an answer, or the one
   that was found cannot be decoded.
   */
  ghost predicate LatestOf(writes: seq<Write>, names: set<string>, request: Request, now: int, decode: Decoder,
                           hit: Option<string>)
  {
    if hit.Some? then exists n :: n in names && Decoded(LatestData(writes, n, request, now), decode) == hit
    else
      || (forall n :: n in names ==> LatestData(writes, n, request, now).None?)
      || exists n :: n in names && RefusedData(LatestData(writes, n, request, now), decode)
  }

  predicate RefusedData(data: Option<string>, decode: Decoder) {
    data.Some? && decode(data.value).None?
  }

  lemma ProbedIsLatest(writes: seq<Write>, names: set<string>, keys: seq<CacheKey>, request: Request, now: int,
                       decode: Decoder, hit: Option<string>)
    requires forall k :: k in keys <==> exists n :: n in names && k == KeyFor(PREFIX, n, request)
    requires Probed(StoredAll(writes), keys, now, decode, hit)
    ensures LatestOf(writes, names, request, now, decode, hit)
  {
    forall n | n in names
      ensures KeyFor(PREFIX, n, request) in keys
      ensures Lookup(StoredAll(writes), KeyFor(PREFIX, n, request), now) == LatestData(writes, n, request, now)
    {
      LookupFindsLatest(writes, n, request, now);
    }
    if hit.Some? {
      var k :| k in keys && Decoded(Lookup(StoredAll(writes), k, now), decode) == hit;
      var n :| n in names && k == KeyFor(PREFIX, n, request);
    } else if exists k :: k in keys && Refused(StoredAll(writes), k, now, decode) {
      var k :| k in keys && Refused(StoredAll(writes), k, now, decode);
      var n :| n in names && k == KeyFor(PREFIX, n, request);
      assert RefusedData(LatestData(writes, n, request, now), decode);
    }
  }

  /**
   A hit is the latest unexpired answer that some endpoint gave to the same request, and that endpoint could be
   selected for the request right now. It is missed only if there is no such answer, if the first that is found
   cannot be decoded, or if there is no store or it fails.
   */
  method JsonrpcCacheFetch(m: Multiplexer, cache: Cache?, chain: ChainRef, request: Request, heightSpec: int, now: int,
                           decode: Decoder, fails: bool)
    returns (hit: Option<string>)
    requires m.Sound()
    requires cache != null ==> cache.Valid()
    ensures cache == null || fails ==> hit.None?
    ensures cache != null && !fails ==>
              LatestOf(cache.writes, Usable(m.Facts(), chain, request.rpc, m.HeightFor(chain, heightSpec)),
                       request, now, decode, hit)
    ensures chain in m.RightTips() ==> m.HeightFor(chain, heightSpec) == ResolvedHeight(m.Facts(), chain, heightSpec)
  {
    hide LatestOf, Probed, KeyFor, Usable, ResolvedHeight, StoredAll;
    m.HeightIsResolved(chain);
    if cache == null {
      return None;
    }
    var keys := m.RequestCacheKeys(chain, request, PREFIX, heightSpec);
    if fails {
      return None;
    }
    hit := FirstHit(cache, keys, now, decode);
    ProbedIsLatest(cache.writes, Usable(m.Facts(), chain, request.rpc, m.HeightFor(chain, heightSpec)),
                   keys, request, now, decode, hit);
  }

  /** The decoded value under the first of the keys that has one; if that cannot be decoded the others are not tried. */
  method FirstHit(cache: Cache, keys: seq<CacheKey>, now: int, decode: Decoder) returns (hit: Option<string>)
    ensures Probed(cache.entries, keys, now, decode, hit)
    ensures forall i :: 0 <= i < |keys| && (forall j :: 0 <= j < i ==> Lookup(cache.entries, keys[j], now).None?)
                        && Lookup(cache.entries, keys[i], now).Some?
              ==> hit == decode(Lookup(cache.entries, keys[i], now).value)
  {
    var values := cache.MGet(keys, now);
    for i := 0 to |values|
      invariant forall j :: 0 <= j < i ==> Lookup(cache.entries, keys[j], now).None?
    {
      if values[i].Some? {
        assert keys[i] in keys;
        assert decode(values[i].value).None? ==> Refused(cache.entries, keys[i], now, decode);
        return decode(values[i].value);
      }
    }
    return None;
  }
}
