/**
 * The versioned response cache: a global version counter kept in Redis, the read
 * middleware that answers GET requests from the cache, and the write path that
 * stores a route's JSON body under the current key. Bumping the version moves
 * every later lookup to a fresh part of the keyspace.
 */
module Cache {
  import opened Wrappers
  import opened Decimal
  import opened Text
  import opened Redis
  import opened CacheKey

  const VersionKey: string := "pdfs:cacheVersion"

  /** The time to live both paths use when the caller gives none (24 hours). */
  const DefaultTtl: int := 86400

  /** `JSON.stringify` and `JSON.parse` for response bodies, taken as given. */
  datatype JsonCodec<!B> = JsonCodec(stringify: B -> string, parse: string -> Option<B>)

  /** What a round trip through the store needs of the codec for `body`. */
  ghost predicate RoundTrips<B>(codec: JsonCodec<B>, body: B)
  {
    codec.stringify(body) != "" && codec.parse(codec.stringify(body)) == Some(body)
  }

  /** The `X-Cache` and `Cache-Control` headers a cached or caching response carries. */
  datatype Headers = Headers(xCache: string, cacheControl: string)

  function CacheControl(ttlSeconds: int): string
  {
    "public, max-age=" + IntToString(ttlSeconds)
  }

  /** The read middleware either hands the request on to the route or answers it itself. */
  datatype ReadOutcome<B> = CallNext | Hit(headers: Headers, body: B)

  /** The write path either sends the body or throws to the route that called it. */
  datatype WriteOutcome<B> = Sent(headers: Headers, body: B) | Threw(failure: Failure)

  /** The version number the counter holds; 0 while it has never been set. */
  function CurrentVersion(s: Store): int
  {
    if VersionKey in s.data && ParseI64(s.data[VersionKey]).Some? then ParseI64(s.data[VersionKey]).value
    else 0
  }

  /** `getCacheVersion()`: the stored version, after storing "1" when it is absent or empty. */
  function GetCacheVersion(s: Store): (r: Result<(Store, string), Failure>)
    ensures r.Err? <==> !s.online
    ensures r.Ok? ==> r.value.1 != "" && r.value.0.online
    ensures r.Ok? ==> r.value.0.data == s.data[VersionKey := r.value.1]
    ensures r.Ok? && VersionKey in s.data && s.data[VersionKey] != "" ==> r.value == (s, s.data[VersionKey])
    ensures r.Ok? && (VersionKey !in s.data || s.data[VersionKey] == "") ==> r.value.1 == "1"
  {
    match Get(s, VersionKey)
    case Err(e) => Err(e)
    case Ok(v) =>
      if v == None || v == Some("") then
        match Set(s, VersionKey, "1")
        case Err(e) => Err(e)
        case Ok(s') => Ok((s', "1"))
      else
        Ok((s, v.value))
  }

  /** `bumpCacheVersion()`: INCR on the counter. */
  function BumpCacheVersion(s: Store): (r: Result<Store, Failure>)
    ensures r.Ok? ==> r.value.online && CurrentVersion(r.value) == CurrentVersion(s) + 1
    ensures r.Ok? ==> r.value.data == s.data[VersionKey := IntToString(CurrentVersion(s) + 1)]
    ensures r.Err? <==> !s.online || (VersionKey in s.data
                                      && (ParseI64(s.data[VersionKey]) == None
                                          || ParseI64(s.data[VersionKey]) == Some(MaxI64)))
  {
    match Incr(s, VersionKey)
    case Err(e) => Err(e)
    case Ok((s', _)) => Ok(s')
  }

  /** `makeCacheKey(req)`: the request's key under the version read from the store. */
  function MakeCacheKey(p: Platform, s: Store, req: Request): (r: Result<(Store, string), Failure>)
    ensures r.Err? <==> !s.online
    ensures r.Ok? ==> GetCacheVersion(s).Ok?
                      && r.value == (GetCacheVersion(s).value.0, BuildKey(p, req, GetCacheVersion(s).value.1))
  {
    match GetCacheVersion(s)
    case Err(e) => Err(e)
    case Ok((s', v)) => Ok((s', BuildKey(p, req, v)))
  }

  /** `cacheMiddleware({ttlSeconds})` applied to one request. */
  function CacheRead<B>(p: Platform, codec: JsonCodec<B>, s: Store, req: Request, ttlSeconds: int)
    : (r: (Store, ReadOutcome<B>))
    ensures req.verb != "GET" ==> r == (s, CallNext)
    ensures r.0.online == s.online
    ensures r.0.data == s.data
            || (r.0.data == s.data[VersionKey := "1"] && (VersionKey !in s.data || s.data[VersionKey] == ""))
    ensures r.1.Hit? <==>
              && req.verb == "GET" && s.online
              && var (s', key) := MakeCacheKey(p, s, req).value;
                 key in s'.data && s'.data[key] != "" && codec.parse(s'.data[key]).Some?
    ensures r.1.Hit? ==>
              && r.1.headers == Headers("HIT", CacheControl(ttlSeconds))
              && var (s', key) := MakeCacheKey(p, s, req).value;
                 codec.parse(s'.data[key]) == Some(r.1.body)
  {
    if req.verb != "GET" then (s, CallNext)
    else
      match MakeCacheKey(p, s, req)
      case Err(_) => (s, CallNext)
      case Ok((s', key)) =>
        match Get(s', key)
        case Err(_) => (s', CallNext)
        case Ok(raw) =>
          if raw == None || raw == Some("") then (s', CallNext)
          else
            match codec.parse(raw.value)
            case None => (s', CallNext)
            case Some(body) => (s', Hit(Headers("HIT", CacheControl(ttlSeconds)), body))
  }

  /** `cacheJSONResponse(req, res, body, {ttlSeconds})`. */
  function CacheWrite<B>(p: Platform, codec: JsonCodec<B>, s: Store, req: Request, body: B, ttlSeconds: int)
    : (r: (Store, WriteOutcome<B>))
    ensures r.1.Sent? <==> s.online && 0 < ttlSeconds <= MaxExpireSeconds
    ensures r.1.Sent? ==> r.1 == Sent(Headers("MISS", CacheControl(ttlSeconds)), body)
    ensures r.1.Sent? ==>
              var (s', key) := MakeCacheKey(p, s, req).value;
              r.0 == s'.(data := s'.data[key := codec.stringify(body)])
    ensures r.1.Threw? ==> r.0 == s || (s.online && r.0 == GetCacheVersion(s).value.0)
  {
    match MakeCacheKey(p, s, req)
    case Err(e) => (s, Threw(e))
    case Ok((s', key)) =>
      match SetEx(s', key, ttlSeconds, codec.stringify(body))
      case Err(e) => (s', Threw(e))
      case Ok(s'') => (s'', Sent(Headers("MISS", CacheControl(ttlSeconds)), body))
  }

  // ---------------------------------------------------------------------------
  // Round trip: the read right after a write, or right after a bump.

  /** Reading the version twice gives the same answer, and the second read changes nothing. */
  lemma GetCacheVersionIdempotent(s: Store)
    requires s.online
    ensures var (s', v) := GetCacheVersion(s).value;
            GetCacheVersion(s') == Ok((s', v))
  {
  }

  /**
   * After the write path has stored a body, the read middleware answers the same
   * GET request from the cache with that very body, marked HIT, and writes nothing.
   */
  lemma ReadAfterWriteHits<B>(p: Platform, codec: JsonCodec<B>, s: Store, req: Request, body: B,
                              ttlSeconds: int, readTtl: int)
    requires s.online && 0 < ttlSeconds <= MaxExpireSeconds && req.verb == "GET"
    requires RoundTrips(codec, body)
    ensures var (s', w) := CacheWrite(p, codec, s, req, body, ttlSeconds);
            && w == Sent(Headers("MISS", CacheControl(ttlSeconds)), body)
            && CacheRead(p, codec, s', req, readTtl) == (s', Hit(Headers("HIT", CacheControl(readTtl)), body))
  {
    var (s1, v) := GetCacheVersion(s).value;
    var key := BuildKey(p, req, v);
    var s2 := s1.(data := s1.data[key := codec.stringify(body)]);
    assert CacheWrite(p, codec, s, req, body, ttlSeconds) == (s2, Sent(Headers("MISS", CacheControl(ttlSeconds)), body));
    WriteKeepsVersion(p, s, req, codec.stringify(body));
    ReadStoredHits(p, codec, s2, req, key, body, readTtl);
  }

  /** Storing under a request's key leaves the version, and so the request's key, as they were. */
  lemma WriteKeepsVersion(p: Platform, s: Store, req: Request, raw: string)
    requires s.online
    ensures var (s1, v) := GetCacheVersion(s).value;
            var key := BuildKey(p, req, v);
            MakeCacheKey(p, s1.(data := s1.data[key := raw]), req) == Ok((s1.(data := s1.data[key := raw]), key))
  {
    var (s1, v) := GetCacheVersion(s).value;
    var key := BuildKey(p, req, v);
    var s2 := s1.(data := s1.data[key := raw]);
    assert key != VersionKey by {
      AssembleKeyTail(v, Route(req), QueryString(p, req));
      assert VersionKey[5] == 'c';
    }
    assert s2.data[VersionKey] == v;
    assert GetCacheVersion(s2) == Ok((s2, v));
  }

  /** A GET whose key holds the text of a body is answered with that body, and nothing is written. */
  lemma ReadStoredHits<B>(p: Platform, codec: JsonCodec<B>, s: Store, req: Request, key: string, body: B,
                          ttlSeconds: int)
    requires s.online && req.verb == "GET"
    requires MakeCacheKey(p, s, req) == Ok((s, key))
    requires key in s.data && s.data[key] != "" && codec.parse(s.data[key]) == Some(body)
    ensures CacheRead(p, codec, s, req, ttlSeconds) == (s, Hit(Headers("HIT", CacheControl(ttlSeconds)), body))
  {
    assert Get(s, key) == Ok(Some(s.data[key]));
  }

  // ---------------------------------------------------------------------------
  // Coherence: no stored entry carries a version above the counter's.

  /** The version a key written by this cache carries in its `pdfs:v<n>:` prefix. */
  function KeyVersion(k: string): Option<int>
  {
    if |k| >= 6 && k[..6] == "pdfs:v" && ':' in k[6..] then ParseInteger(k[6..][..IndexOf(k[6..], ':')])
    else None
  }

  lemma VersionKeyHasNoVersion()
    ensures KeyVersion(VersionKey) == None
  {
    assert VersionKey[..6] != "pdfs:v" by {
      assert VersionKey[5] == 'c';
    }
  }

  /** A built key starts with "pdfs:v", then the version up to the next ':'. */
  lemma KeyPrefixShape(p: Platform, req: Request, v: string)
    ensures var k := BuildKey(p, req, v);
            |k| >= 6 && k[..6] == "pdfs:v" && ':' in k[6..]
            && (':' !in v ==> k[6..][..IndexOf(k[6..], ':')] == v)
  {
    var t := Route(req) + QuerySuffix(QueryString(p, req));
    var a := v + [':'] + t;
    AssembleKeyTail(v, Route(req), QueryString(p, req));
    assert a[|v|] == ':';
    if ':' !in v {
      IndexOfAfterPrefix(v, ':', t);
      assert a[..|v|] == v;
    }
  }

  /** A key built under the printed version n carries version n. */
  lemma BuiltKeyVersion(p: Platform, req: Request, n: int)
    ensures KeyVersion(BuildKey(p, req, IntToString(n))) == Some(n)
  {
    KeyPrefixShape(p, req, IntToString(n));
    IntToStringParses(n);
  }

  ghost predicate Coherent(s: Store)
  {
    && (VersionKey in s.data ==> ParseI64(s.data[VersionKey]).Some?)
    && (forall k :: k in s.data && KeyVersion(k).Some? ==> KeyVersion(k).value <= CurrentVersion(s))
  }

  /** The version `getCacheVersion` reports: the counter's value, or 1 while it is unset. */
  function ObservedVersion(s: Store): int
  {
    if VersionKey in s.data then CurrentVersion(s) else 1
  }

  /** In a coherent store, `getCacheVersion` reports the observed version, in print. */
  lemma GetCacheVersionObserves(s: Store)
    requires Coherent(s) && s.online
    ensures var (s', v) := GetCacheVersion(s).value;
            && v == IntToString(ObservedVersion(s))
            && Coherent(s')
            && CurrentVersion(s') == ObservedVersion(s) >= CurrentVersion(s)
            && ObservedVersion(s') == ObservedVersion(s)
  {
    var (s', v) := GetCacheVersion(s).value;
    if VersionKey in s.data {
      ParsedIsPrinted(s.data[VersionKey], CurrentVersion(s));
      assert s.data[VersionKey] != "";
    } else {
      assert ParseI64("1") == Some(1) by {
        assert "1" == IntToString(1);
        IntToStringParses(1);
      }
      VersionKeyHasNoVersion();
    }
  }

  /** A successful bump advances the counter by one and keeps the store coherent. */
  lemma BumpKeepsCoherent(s: Store)
    requires Coherent(s)
    ensures BumpCacheVersion(s).Ok? ==>
              var s' := BumpCacheVersion(s).value;
              && Coherent(s')
              && ObservedVersion(s') >= ObservedVersion(s)
              && (VersionKey in s.data ==> ObservedVersion(s') == ObservedVersion(s) + 1)
  {
    if BumpCacheVersion(s).Ok? {
      var s' := BumpCacheVersion(s).value;
      IntToStringParses(CurrentVersion(s) + 1);
      VersionKeyHasNoVersion();
    }
  }

  /** The read middleware keeps the store coherent and never moves the version back. */
  lemma ReadKeepsCoherent<B>(p: Platform, codec: JsonCodec<B>, s: Store, req: Request, ttlSeconds: int)
    requires Coherent(s)
    ensures var s' := CacheRead(p, codec, s, req, ttlSeconds).0;
            Coherent(s') && ObservedVersion(s') == ObservedVersion(s)
  {
    if req.verb == "GET" && s.online {
      GetCacheVersionObserves(s);
    }
  }

  /** The write path keeps the store coherent: it writes under the current version only. */
  lemma WriteKeepsCoherent<B>(p: Platform, codec: JsonCodec<B>, s: Store, req: Request, body: B, ttlSeconds: int)
    requires Coherent(s)
    ensures var s' := CacheWrite(p, codec, s, req, body, ttlSeconds).0;
            Coherent(s') && ObservedVersion(s') == ObservedVersion(s)
  {
    if s.online {
      GetCacheVersionObserves(s);
      var (s1, v) := GetCacheVersion(s).value;
      BuiltKeyVersion(p, req, ObservedVersion(s));
      VersionKeyHasNoVersion();
    }
  }

  /** Once the version has been bumped, no GET is answered from an entry written before. */
  lemma ReadAfterBumpMisses<B>(p: Platform, codec: JsonCodec<B>, s: Store, req: Request, ttlSeconds: int)
    requires Coherent(s)
    requires BumpCacheVersion(s).Ok?
    ensures CacheRead(p, codec, BumpCacheVersion(s).value, req, ttlSeconds).1 == CallNext
  {
    var s1 := BumpCacheVersion(s).value;
    BumpKeepsCoherent(s);
    if req.verb == "GET" {
      GetCacheVersionObserves(s1);
      var n := CurrentVersion(s) + 1;
      assert GetCacheVersion(s1).value == (s1, IntToString(n));
      var key := BuildKey(p, req, IntToString(n));
      BuiltKeyVersion(p, req, n);
      VersionKeyHasNoVersion();
      assert key !in s.data;
      assert key !in s1.data;
    }
  }

  /** Write, bump, read: the bump hides the body just written. */
  lemma WriteBumpReadMisses<B>(p: Platform, codec: JsonCodec<B>, s: Store, req: Request, body: B,
                               ttlSeconds: int, readTtl: int)
    requires Coherent(s)
    ensures var s1 := CacheWrite(p, codec, s, req, body, ttlSeconds).0;
            BumpCacheVersion(s1).Ok? ==>
              CacheRead(p, codec, BumpCacheVersion(s1).value, req, readTtl).1 == CallNext
  {
    var s1 := CacheWrite(p, codec, s, req, body, ttlSeconds).0;
    WriteKeepsCoherent(p, codec, s, req, body, ttlSeconds);
    if BumpCacheVersion(s1).Ok? {
      ReadAfterBumpMisses(p, codec, s1, req, readTtl);
    }
  }

  // ---------------------------------------------------------------------------
  // Versions only move forward, whatever the cache is asked to do.

  /** One call into the cache. */
  datatype Op<B> = ReadVersion | Bump | Read(req: Request, ttlSeconds: int) | Write(req: Request, body: B, ttlSeconds: int)

  /** The store after one call; a call that throws leaves it as the failing command found it. */
  function Apply<B>(p: Platform, codec: JsonCodec<B>, s: Store, op: Op<B>): Store
  {
    match op
    case ReadVersion => (match GetCacheVersion(s) case Ok((s', _)) => s' case Err(_) => s)
    case Bump => (match BumpCacheVersion(s) case Ok(s') => s' case Err(_) => s)
    case Read(req, ttl) => CacheRead(p, codec, s, req, ttl).0
    case Write(req, body, ttl) => CacheWrite(p, codec, s, req, body, ttl).0
  }

  /** The store after a sequence of calls, in order. */
  function Run<B>(p: Platform, codec: JsonCodec<B>, s: Store, ops: seq<Op<B>>): Store
    decreases |ops|
  {
    if |ops| == 0 then s else Run(p, codec, Apply(p, codec, s, ops[0]), ops[1..])
  }

  lemma ApplyKeepsCoherent<B>(p: Platform, codec: JsonCodec<B>, s: Store, op: Op<B>)
    requires Coherent(s)
    ensures Coherent(Apply(p, codec, s, op))
    ensures ObservedVersion(s) <= ObservedVersion(Apply(p, codec, s, op))
    ensures CurrentVersion(s) <= CurrentVersion(Apply(p, codec, s, op))
  {
    match op
    case ReadVersion =>
      if s.online { GetCacheVersionObserves(s); }
    case Bump =>
      BumpKeepsCoherent(s);
    case Read(req, ttl) =>
      ReadKeepsCoherent(p, codec, s, req, ttl);
      if req.verb == "GET" && s.online { GetCacheVersionObserves(s); }
    case Write(req, body, ttl) =>
      WriteKeepsCoherent(p, codec, s, req, body, ttl);
      if s.online { GetCacheVersionObserves(s); }
  }

  /**
   * From a coherent store, any sequence of reads, writes and bumps leaves the store
   * coherent, and neither the counter nor the version `getCacheVersion` reports
   * ever goes down.
   */
  lemma {:induction false} VersionsOnlyMoveForward<B>(p: Platform, codec: JsonCodec<B>, s: Store, ops: seq<Op<B>>)
    requires Coherent(s)
    ensures Coherent(Run(p, codec, s, ops))
    ensures ObservedVersion(s) <= ObservedVersion(Run(p, codec, s, ops))
    ensures CurrentVersion(s) <= CurrentVersion(Run(p, codec, s, ops))
    decreases |ops|
  {
    if |ops| > 0 {
      ApplyKeepsCoherent(p, codec, s, ops[0]);
      VersionsOnlyMoveForward(p, codec, Apply(p, codec, s, ops[0]), ops[1..]);
    }
  }

  // ---------------------------------------------------------------------------
  // Round trips over any run of calls: a written body is served until the next
  // bump, and after a bump nothing is served until something is written.

  /** The store still holds `raw` under `key`, and the counter still reads `v`. */
  ghost predicate Serves(s: Store, v: string, key: string, raw: string)
  {
    && s.online
    && VersionKey in s.data && s.data[VersionKey] == v && v != ""
    && key != VersionKey
    && key in s.data && s.data[key] == raw
  }

  /** No key this cache builds is the counter's key. */
  lemma BuiltKeyIsNotVersionKey(p: Platform, req: Request, v: string)
    ensures BuildKey(p, req, v) != VersionKey
  {
    AssembleKeyTail(v, Route(req), QueryString(p, req));
    assert VersionKey[5] == 'c';
  }

  /** A call that neither bumps nor writes to `key` leaves what `key` holds, and the version, in place. */
  lemma ApplyKeepsServed<B>(p: Platform, codec: JsonCodec<B>, s: Store, op: Op<B>, v: string, key: string, raw: string)
    requires Serves(s, v, key, raw)
    requires !op.Bump?
    requires op.Write? ==> BuildKey(p, op.req, v) != key
    ensures Serves(Apply(p, codec, s, op), v, key, raw)
  {
    assert GetCacheVersion(s) == Ok((s, v));
    if op.Write? {
      BuiltKeyIsNotVersionKey(p, op.req, v);
    }
  }

  lemma {:induction false} RunKeepsServed<B>(p: Platform, codec: JsonCodec<B>, s: Store, ops: seq<Op<B>>,
                                             v: string, key: string, raw: string)
    requires Serves(s, v, key, raw)
    requires forall i :: 0 <= i < |ops| ==> !ops[i].Bump?
    requires forall i :: 0 <= i < |ops| && ops[i].Write? ==> BuildKey(p, ops[i].req, v) != key
    ensures Serves(Run(p, codec, s, ops), v, key, raw)
    decreases |ops|
  {
    if |ops| > 0 {
      ApplyKeepsServed(p, codec, s, ops[0], v, key, raw);
      RunKeepsServed(p, codec, Apply(p, codec, s, ops[0]), ops[1..], v, key, raw);
    }
  }

  /**
   * After the write path has stored a body, any run of calls without a bump and
   * without another write to the same key leaves the same GET answered from the
   * cache with that body.
   */
  lemma WrittenBodyServedUntilBump<B>(p: Platform, codec: JsonCodec<B>, s: Store, req: Request, body: B,
                                      ttlSeconds: int, ops: seq<Op<B>>, readTtl: int)
    requires s.online && 0 < ttlSeconds <= MaxExpireSeconds && req.verb == "GET"
    requires RoundTrips(codec, body)
    requires forall i :: 0 <= i < |ops| ==> !ops[i].Bump?
    requires forall i :: 0 <= i < |ops| && ops[i].Write? ==>
               MakeCacheKey(p, s, ops[i].req).value.1 != MakeCacheKey(p, s, req).value.1
    ensures var s' := Run(p, codec, CacheWrite(p, codec, s, req, body, ttlSeconds).0, ops);
            CacheRead(p, codec, s', req, readTtl) == (s', Hit(Headers("HIT", CacheControl(readTtl)), body))
  {
    var (s1, v) := GetCacheVersion(s).value;
    var key := BuildKey(p, req, v);
    var raw := codec.stringify(body);
    var s2 := s1.(data := s1.data[key := raw]);
    assert CacheWrite(p, codec, s, req, body, ttlSeconds).0 == s2;
    BuiltKeyIsNotVersionKey(p, req, v);
    assert Serves(s2, v, key, raw);
    RunKeepsServed(p, codec, s2, ops, v, key, raw);
    var s' := Run(p, codec, s2, ops);
    assert GetCacheVersion(s') == Ok((s', v));
    ReadStoredHits(p, codec, s', req, key, body, readTtl);
  }

  /** The counter is set and no stored entry carries its version yet. */
  ghost predicate NothingUnderCurrent(s: Store)
  {
    && VersionKey in s.data && ParseI64(s.data[VersionKey]).Some?
    && (forall k :: k in s.data && KeyVersion(k).Some? ==> KeyVersion(k).value < CurrentVersion(s))
  }

  /** A bump leaves every stored entry under an older version. */
  lemma BumpLeavesNothingUnderCurrent(s: Store)
    requires Coherent(s) && BumpCacheVersion(s).Ok?
    ensures NothingUnderCurrent(BumpCacheVersion(s).value)
  {
    BumpKeepsCoherent(s);
    VersionKeyHasNoVersion();
  }

  /** Calls other than writes keep the current version empty. */
  lemma ApplyKeepsNothingUnderCurrent<B>(p: Platform, codec: JsonCodec<B>, s: Store, op: Op<B>)
    requires NothingUnderCurrent(s)
    requires !op.Write?
    ensures NothingUnderCurrent(Apply(p, codec, s, op))
  {
    ParsedIsPrinted(s.data[VersionKey], CurrentVersion(s));
    if op.Bump? && BumpCacheVersion(s).Ok? {
      BumpLeavesNothingUnderCurrent(s);
    }
  }

  lemma {:induction false} RunKeepsNothingUnderCurrent<B>(p: Platform, codec: JsonCodec<B>, s: Store, ops: seq<Op<B>>)
    requires NothingUnderCurrent(s)
    requires forall i :: 0 <= i < |ops| ==> !ops[i].Write?
    ensures NothingUnderCurrent(Run(p, codec, s, ops))
    decreases |ops|
  {
    if |ops| > 0 {
      ApplyKeepsNothingUnderCurrent(p, codec, s, ops[0]);
      RunKeepsNothingUnderCurrent(p, codec, Apply(p, codec, s, ops[0]), ops[1..]);
    }
  }

  /** With nothing stored under the current version, every request goes on to the route. */
  lemma NothingUnderCurrentMisses<B>(p: Platform, codec: JsonCodec<B>, s: Store, req: Request, ttlSeconds: int)
    requires NothingUnderCurrent(s)
    ensures CacheRead(p, codec, s, req, ttlSeconds).1 == CallNext
  {
    if req.verb == "GET" && s.online {
      var n := CurrentVersion(s);
      ParsedIsPrinted(s.data[VersionKey], n);
      assert GetCacheVersion(s) == Ok((s, IntToString(n)));
      BuiltKeyVersion(p, req, n);
      assert BuildKey(p, req, IntToString(n)) !in s.data;
    }
  }

  /**
   * After a successful bump, any run of calls without a write leaves every
   * request unanswered by the cache: nothing is served until something is
   * written under the new version.
   */
  lemma BumpedCacheMissesUntilWrite<B>(p: Platform, codec: JsonCodec<B>, s: Store, ops: seq<Op<B>>,
                                       req: Request, ttlSeconds: int)
    requires Coherent(s) && BumpCacheVersion(s).Ok?
    requires forall i :: 0 <= i < |ops| ==> !ops[i].Write?
    ensures CacheRead(p, codec, Run(p, codec, BumpCacheVersion(s).value, ops), req, ttlSeconds).1 == CallNext
  {
    BumpLeavesNothingUnderCurrent(s);
    RunKeepsNothingUnderCurrent(p, codec, BumpCacheVersion(s).value, ops);
    NothingUnderCurrentMisses(p, codec, Run(p, codec, BumpCacheVersion(s).value, ops), req, ttlSeconds);
  }

  /** The default time to live, 24 hours, is one SETEX accepts: with it the write path sends the body. */
  lemma DefaultTtlIsAccepted<B>(p: Platform, codec: JsonCodec<B>, s: Store, req: Request, body: B)
    requires s.online
    ensures CacheWrite(p, codec, s, req, body, DefaultTtl).1 == Sent(Headers("MISS", CacheControl(86400)), body)
  {
  }
}
