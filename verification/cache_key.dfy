/**
 * The canonical cache key of a request: `pdfs:v<version>:<route>` followed, when the
 * request has query parameters, by `?` and those parameters sorted by name and
 * form-encoded.
 */
module CacheKey {
  import opened Wrappers
  import opened Text

  /** A query parameter's value as Express's query parser produces it. */
  datatype QueryValue =
    | One(text: string)         // `?a=x`
    | Many(texts: seq<string>)  // `?a=x&a=y`
    | Nested                    // `?a[b]=x`, an object

  /** A parameter name and its value after `String(v)`. */
  type Entry = (string, string)

  /** The parts of an Express request the cache looks at. */
  datatype Request = Request(
    verb: string,
    baseUrl: Option<string>,
    path: Option<string>,
    query: Option<seq<(string, QueryValue)>>)

  /**
   * The library functions the key builder relies on, taken as given:
   * `precedes(a, b)` is `a.localeCompare(b) < 0`, and `formEncode` is the
   * application/x-www-form-urlencoded serializer URLSearchParams applies to each
   * name and value.
   */
  datatype Platform = Platform(precedes: (string, string) -> bool, formEncode: string -> string)

  ghost predicate StrictTotalOrder(precedes: (string, string) -> bool)
  {
    && (forall a :: !precedes(a, a))
    && (forall a, b, c :: precedes(a, b) && precedes(b, c) ==> precedes(a, c))
    && (forall a, b :: a != b ==> precedes(a, b) || precedes(b, a))
  }

  /**
   * What the key builder assumes of the platform: collation is a strict total
   * order, and form-encoding is injective and escapes '&' and '='.
   */
  ghost predicate Lawful(p: Platform)
  {
    && StrictTotalOrder(p.precedes)
    && (forall a, b :: p.formEncode(a) == p.formEncode(b) ==> a == b)
    && (forall a :: '&' !in p.formEncode(a) && '=' !in p.formEncode(a))
  }

  /** `String(v)`: an array prints as its items joined by commas, an object as "[object Object]". */
  function Stringify(v: QueryValue): string
  {
    match v
    case One(t) => t
    case Many(ts) => Join(ts, ",")
    case Nested => "[object Object]"
  }

  /** Parameter names are pairwise distinct, as the keys of a JavaScript object are. */
  predicate DistinctNames<V>(q: seq<(string, V)>)
  {
    forall i, j :: 0 <= i < j < |q| ==> q[i].0 != q[j].0
  }

  /** The query object, `{}` when the request has none. */
  function QueryOf(req: Request): seq<(string, QueryValue)>
  {
    req.query.GetOr([])
  }

  /** `Object.entries(query).map(([k, v]) => [k, String(v)])`. */
  function Entries(q: seq<(string, QueryValue)>): (es: seq<Entry>)
    ensures |es| == |q|
    ensures forall i :: 0 <= i < |q| ==> es[i] == (q[i].0, Stringify(q[i].1))
  {
    seq(|q|, i requires 0 <= i < |q| => (q[i].0, Stringify(q[i].1)))
  }

  /**
   * `e` placed before the first entry of `s` whose name does not precede its own,
   * so that `e` stays ahead of the entries it ties with.
   */
  function Insert(p: Platform, e: Entry, s: seq<Entry>): (r: seq<Entry>)
    ensures multiset(r) == multiset(s) + multiset{e}
  {
    if |s| == 0 then [e]
    else if !p.precedes(s[0].0, e.0) then [e] + s
    else
      assert s == [s[0]] + s[1..];
      [s[0]] + Insert(p, e, s[1..])
  }

  /**
   * `entries.sort((a, b) => a[0].localeCompare(b[0]))`, as an insertion sort that
   * is stable like `Array.prototype.sort`: entries whose names collate as equal
   * keep their order.
   */
  function Sort(p: Platform, s: seq<Entry>): (r: seq<Entry>)
    ensures multiset(r) == multiset(s)
  {
    if |s| == 0 then []
    else
      assert s == [s[0]] + s[1..];
      Insert(p, s[0], Sort(p, s[1..]))
  }

  predicate StrictlySorted(p: Platform, s: seq<Entry>)
  {
    forall i, j :: 0 <= i < j < |s| ==> p.precedes(s[i].0, s[j].0)
  }

  /** One `name=value` pair of a serialized query string. */
  function Pair(p: Platform, e: Entry): string
  {
    p.formEncode(e.0) + "=" + p.formEncode(e.1)
  }

  function Pairs(p: Platform, s: seq<Entry>): (ps: seq<string>)
    ensures |ps| == |s|
    ensures forall i :: 0 <= i < |s| ==> ps[i] == Pair(p, s[i])
  {
    seq(|s|, i requires 0 <= i < |s| => Pair(p, s[i]))
  }

  /** `new URLSearchParams(entries).toString()`. */
  function Serialize(p: Platform, s: seq<Entry>): string
  {
    Join(Pairs(p, s), "&")
  }

  /** `(req.baseUrl ?? '') + (req.path ?? '')`. */
  function Route(req: Request): string
  {
    req.baseUrl.GetOr("") + req.path.GetOr("")
  }

  /** The sorted, serialized query string of a request; "" when it has no parameters. */
  function QueryString(p: Platform, req: Request): string
  {
    Serialize(p, Sort(p, Entries(QueryOf(req))))
  }

  /** What follows the route in a key: `?` and the query string, or nothing when that is empty. */
  function QuerySuffix(qs: string): string
  {
    if qs == "" then "" else "?" + qs
  }

  /** The key's template: `pdfs:v${version}:${route}${qs ? `?${qs}` : ''}`. */
  function AssembleKey(version: string, route: string, qs: string): string
  {
    "pdfs:v" + version + ":" + route + QuerySuffix(qs)
  }

  /** `buildCanonicalKeyFromReq(req, version)`. */
  function BuildKey(p: Platform, req: Request, version: string): string
  {
    AssembleKey(version, Route(req), QueryString(p, req))
  }

  // ---------------------------------------------------------------------------
  // Sorting gives the one ordering of the entries.

  lemma {:induction false} InsertSorted(p: Platform, e: Entry, s: seq<Entry>)
    requires StrictTotalOrder(p.precedes)
    requires StrictlySorted(p, s)
    requires forall k :: 0 <= k < |s| ==> s[k].0 != e.0
    ensures StrictlySorted(p, Insert(p, e, s))
  {
    if |s| > 0 && p.precedes(s[0].0, e.0) {
      var rest := Insert(p, e, s[1..]);
      InsertSorted(p, e, s[1..]);
      forall j | 0 <= j < |rest|
        ensures p.precedes(s[0].0, rest[j].0)
      {
        assert rest[j] in multiset(rest);
        if rest[j] != e {
          assert rest[j] in multiset(s[1..]);
          var k :| 0 <= k < |s[1..]| && s[1..][k] == rest[j];
          assert s[k + 1] == rest[j];
        }
      }
      assert Insert(p, e, s) == [s[0]] + rest;
    }
  }

  lemma {:induction false} SortSorted(p: Platform, s: seq<Entry>)
    requires StrictTotalOrder(p.precedes)
    requires DistinctNames(s)
    ensures StrictlySorted(p, Sort(p, s))
  {
    if |s| > 0 {
      var rest := Sort(p, s[1..]);
      SortSorted(p, s[1..]);
      forall k | 0 <= k < |rest|
        ensures rest[k].0 != s[0].0
      {
        assert rest[k] in multiset(rest);
        assert rest[k] in multiset(s[1..]);
        var i :| 0 <= i < |s[1..]| && s[1..][i] == rest[k];
        assert s[i + 1] == rest[k];
      }
      InsertSorted(p, s[0], rest);
    }
  }

  /**
   * Sorting an input that is already in order, ties included, changes nothing. In
   * particular entries whose names all collate as equal keep their arrival order.
   */
  lemma {:induction false} SortKeepsOrderedInput(p: Platform, s: seq<Entry>)
    requires forall i, j :: 0 <= i < j < |s| ==> !p.precedes(s[j].0, s[i].0)
    ensures Sort(p, s) == s
  {
    if |s| > 0 {
      SortKeepsOrderedInput(p, s[1..]);
      assert s == [s[0]] + s[1..];
      if |s| > 1 {
        assert !p.precedes(s[1].0, s[0].0);
      }
    }
  }

  lemma FirstIsMember(s: seq<Entry>)
    requires s != []
    ensures s[0] in s
  {
  }

  /** Two strictly sorted sequences holding the same entries are the same sequence. */
  lemma {:induction false} SortedUnique(p: Platform, a: seq<Entry>, b: seq<Entry>)
    requires StrictTotalOrder(p.precedes)
    requires StrictlySorted(p, a) && StrictlySorted(p, b)
    requires forall x :: x in a <==> x in b
    ensures a == b
  {
    if |a| == 0 {
      if |b| != 0 {
        FirstIsMember(b);
      }
    } else {
      assert a[0] in a;
      assert a[0] in b;
      assert b[0] in b;
      var j :| 0 <= j < |b| && b[j] == a[0];
      var i :| 0 <= i < |a| && a[i] == b[0];
      assert a[0] == b[0];
      forall x
        ensures x in a[1..] <==> x in b[1..]
      {
        if x in a[1..] {
          var k :| 0 <= k < |a[1..]| && a[1..][k] == x;
          assert p.precedes(a[0].0, a[k + 1].0);
          assert x in b;
          assert x != b[0];
        }
        if x in b[1..] {
          var k :| 0 <= k < |b[1..]| && b[1..][k] == x;
          assert p.precedes(b[0].0, b[k + 1].0);
          assert x in a;
          assert x != a[0];
        }
      }
      SortedUnique(p, a[1..], b[1..]);
      assert a == [a[0]] + a[1..];
      assert b == [b[0]] + b[1..];
    }
  }

  lemma EntriesKeepNames(q: seq<(string, QueryValue)>)
    requires DistinctNames(q)
    ensures DistinctNames(Entries(q))
  {
  }

  lemma EntriesSameSet(q1: seq<(string, QueryValue)>, q2: seq<(string, QueryValue)>)
    requires forall e :: e in q1 <==> e in q2
    ensures forall x :: x in Entries(q1) <==> x in Entries(q2)
  {
    forall x | x in Entries(q1)
      ensures x in Entries(q2)
    {
      var i :| 0 <= i < |q1| && Entries(q1)[i] == x;
      assert q1[i] in q2;
      var j :| 0 <= j < |q2| && q2[j] == q1[i];
      assert Entries(q2)[j] == x;
    }
    forall x | x in Entries(q2)
      ensures x in Entries(q1)
    {
      var i :| 0 <= i < |q2| && Entries(q2)[i] == x;
      assert q2[i] in q1;
      var j :| 0 <= j < |q1| && q1[j] == q2[i];
      assert Entries(q1)[j] == x;
    }
  }

  lemma SortSameSet(p: Platform, s: seq<Entry>)
    ensures forall x :: x in Sort(p, s) <==> x in s
  {
    var r := Sort(p, s);
    forall x
      ensures x in r <==> x in s
    {
      assert x in r <==> x in multiset(r);
      assert x in s <==> x in multiset(s);
    }
  }

  /**
   * The key does not depend on the order the query parameters arrived in: two
   * requests for the same route whose query objects hold the same parameters get
   * the same key.
   */
  lemma KeyIgnoresParameterOrder(p: Platform, r1: Request, r2: Request, version: string)
    requires StrictTotalOrder(p.precedes)
    requires Route(r1) == Route(r2)
    requires DistinctNames(QueryOf(r1)) && DistinctNames(QueryOf(r2))
    requires forall e :: e in QueryOf(r1) <==> e in QueryOf(r2)
    ensures BuildKey(p, r1, version) == BuildKey(p, r2, version)
  {
    var e1, e2 := Entries(QueryOf(r1)), Entries(QueryOf(r2));
    EntriesKeepNames(QueryOf(r1));
    EntriesKeepNames(QueryOf(r2));
    EntriesSameSet(QueryOf(r1), QueryOf(r2));
    SortSorted(p, e1);
    SortSorted(p, e2);
    SortSameSet(p, e1);
    SortSameSet(p, e2);
    SortedUnique(p, Sort(p, e1), Sort(p, e2));
  }

  // ---------------------------------------------------------------------------
  // Distinct requests and distinct versions get distinct keys.

  /** A query string is empty exactly when there are no parameters. */
  lemma SerializeEmpty(p: Platform, s: seq<Entry>)
    ensures Serialize(p, s) == "" <==> |s| == 0
  {
    if |s| > 0 {
      var ps := Pairs(p, s);
      JoinLength(ps, "&");
      assert TotalLength(ps) >= |ps[0]| >= 1;
    }
  }

  /** Under a lawful platform, a non-empty query string determines the entries it serializes. */
  lemma SerializeInjective(p: Platform, s1: seq<Entry>, s2: seq<Entry>)
    requires Lawful(p)
    requires |s1| >= 1 && |s2| >= 1
    requires Serialize(p, s1) == Serialize(p, s2)
    ensures s1 == s2
  {
    var ps1, ps2 := Pairs(p, s1), Pairs(p, s2);
    forall k | 0 <= k < |ps1|
      ensures '&' !in ps1[k]
    {
      assert ps1[k] == p.formEncode(s1[k].0) + "=" + p.formEncode(s1[k].1);
    }
    forall k | 0 <= k < |ps2|
      ensures '&' !in ps2[k]
    {
      assert ps2[k] == p.formEncode(s2[k].0) + "=" + p.formEncode(s2[k].1);
    }
    JoinInjective(ps1, ps2, '&');
    forall k | 0 <= k < |s1|
      ensures s1[k] == s2[k]
    {
      assert ps1[k] == ps2[k];
      SeparatorSplit(p.formEncode(s1[k].0), p.formEncode(s1[k].1),
                     p.formEncode(s2[k].0), p.formEncode(s2[k].1), '=');
    }
  }

  /** '?' occurs after a route that holds none exactly when a query string follows it. */
  lemma QuestionMarkMeansQuery(route: string, qs: string)
    requires '?' !in route
    ensures '?' in route + QuerySuffix(qs) <==> qs != ""
  {
    if qs != "" {
      assert (route + QuerySuffix(qs))[|route|] == '?';
    }
  }

  /**
   * The key is the bare `pdfs:v<version>:<route>`, with no '?', exactly when the
   * request has no query parameters; a missing base URL or path counts as "".
   */
  lemma KeyWithoutQuery(p: Platform, req: Request, v: string)
    ensures BuildKey(p, req, v) == "pdfs:v" + v + ":" + req.baseUrl.GetOr("") + req.path.GetOr("")
            <==> QueryOf(req) == []
  {
    var s := Sort(p, Entries(QueryOf(req)));
    assert |s| == |multiset(s)| == |Entries(QueryOf(req))| == |QueryOf(req)|;
    SerializeEmpty(p, s);
  }

  /** A key starts with "pdfs:v"; dropping that leaves the version, ':' and what follows it. */
  lemma AssembleKeyTail(v: string, route: string, qs: string)
    ensures |AssembleKey(v, route, qs)| >= 6 && AssembleKey(v, route, qs)[..6] == "pdfs:v"
    ensures AssembleKey(v, route, qs)[6..] == v + [':'] + (route + QuerySuffix(qs))
  {
    var t := route + QuerySuffix(qs);
    var a := v + [':'] + t;
    assert AssembleKey(v, route, qs) == "pdfs:v" + v + ":" + t;
    assert "pdfs:v" + v + ":" + t == "pdfs:v" + a;
    assert ("pdfs:v" + a)[6..] == a;
  }

  /** A route without '?' followed by its query suffix determines both. */
  lemma SuffixInjective(route1: string, qs1: string, route2: string, qs2: string)
    requires '?' !in route1 && '?' !in route2
    requires route1 + QuerySuffix(qs1) == route2 + QuerySuffix(qs2)
    ensures route1 == route2 && qs1 == qs2
  {
    QuestionMarkMeansQuery(route1, qs1);
    QuestionMarkMeansQuery(route2, qs2);
    if qs1 != "" {
      assert route1 + QuerySuffix(qs1) == route1 + ['?'] + qs1;
      assert route2 + QuerySuffix(qs2) == route2 + ['?'] + qs2;
      SeparatorSplit(route1, qs1, route2, qs2, '?');
    } else {
      assert qs2 == "";
      assert route1 + QuerySuffix(qs1) == route1;
      assert route2 + QuerySuffix(qs2) == route2;
    }
  }

  /** After "pdfs:v", a version without ':' runs up to the first ':' and the route up to the first '?'. */
  lemma AssembleKeyInjective(v1: string, route1: string, qs1: string, v2: string, route2: string, qs2: string)
    requires ':' !in v1 && ':' !in v2
    requires '?' !in route1 && '?' !in route2
    requires AssembleKey(v1, route1, qs1) == AssembleKey(v2, route2, qs2)
    ensures v1 == v2 && route1 == route2 && qs1 == qs2
  {
    AssembleKeyTail(v1, route1, qs1);
    AssembleKeyTail(v2, route2, qs2);
    SeparatorSplit(v1, route1 + QuerySuffix(qs1), v2, route2 + QuerySuffix(qs2), ':');
    SuffixInjective(route1, qs1, route2, qs2);
  }

  /** Keys built from any two requests under two versions that hold no ':' differ when the versions do. */
  lemma KeyDeterminesVersion(p: Platform, r1: Request, r2: Request, v1: string, v2: string)
    requires ':' !in v1 && ':' !in v2
    ensures BuildKey(p, r1, v1) == BuildKey(p, r2, v2) ==> v1 == v2
  {
    if BuildKey(p, r1, v1) == BuildKey(p, r2, v2) {
      var t1 := Route(r1) + QuerySuffix(QueryString(p, r1));
      var t2 := Route(r2) + QuerySuffix(QueryString(p, r2));
      AssembleKeyTail(v1, Route(r1), QueryString(p, r1));
      AssembleKeyTail(v2, Route(r2), QueryString(p, r2));
      SeparatorSplit(v1, t1, v2, t2, ':');
    }
  }

  /**
   * Two requests share a key exactly when they carry the same version, ask for the
   * same route and hold the same parameters (after `String(v)`), in any order.
   */
  lemma KeyEquality(p: Platform, r1: Request, r2: Request, v1: string, v2: string)
    requires Lawful(p)
    requires ':' !in v1 && ':' !in v2
    requires '?' !in Route(r1) && '?' !in Route(r2)
    requires DistinctNames(QueryOf(r1)) && DistinctNames(QueryOf(r2))
    ensures BuildKey(p, r1, v1) == BuildKey(p, r2, v2)
        <==> v1 == v2 && Route(r1) == Route(r2)
             && (forall x :: x in Entries(QueryOf(r1)) <==> x in Entries(QueryOf(r2)))
  {
    var e1, e2 := Entries(QueryOf(r1)), Entries(QueryOf(r2));
    var s1, s2 := Sort(p, e1), Sort(p, e2);
    EntriesKeepNames(QueryOf(r1));
    EntriesKeepNames(QueryOf(r2));
    SortSorted(p, e1);
    SortSorted(p, e2);
    SortSameSet(p, e1);
    SortSameSet(p, e2);
    SerializeEmpty(p, s1);
    SerializeEmpty(p, s2);
    if BuildKey(p, r1, v1) == BuildKey(p, r2, v2) {
      AssembleKeyInjective(v1, Route(r1), QueryString(p, r1), v2, Route(r2), QueryString(p, r2));
      if |s1| > 0 {
        SerializeInjective(p, s1, s2);
      }
    }
    if (forall x :: x in e1 <==> x in e2) {
      SortedUnique(p, s1, s2);
    }
  }
}
