/** The HTTPS document transport with its redirect budget, the resolver in front of it,
    and the resolver's entity-tag cache. */
module EtagCache {
  import opened Common
  import opened KeyedSort
  import opened Orders

  /* ---------- servers ---------- */

  /** A response: the body is None when reading it fails. */
  datatype Page = Page(
    status: int,
    body: Option<Bytes>,
    etag: Option<string>,
    cacheControl: Option<string>,
    contentType: Option<string>)

  /** How one request ends: a redirect status, 304, another error status, no answer at
      all, or a response. */
  datatype Reply =
    | Redirect(status: int, location: Option<string>)
    | Unchanged
    | ErrorStatus(status: int)
    | NoAnswer
    | Answer(page: Page)

  /** A server's state: its reply to a GET of a URL, with the If-None-Match tag if any. */
  type Server = (string, Option<string>) -> Reply

  /** Section 13.1.2 of RFC 9110: a tag changes the reply only when it is the tag of the
      current page, and then at most into a 304. */
  ghost predicate Honest(server: Server) {
    forall url, tag :: HonestAt(server, url, tag)
  }

  ghost predicate HonestAt(server: Server, url: string, tag: Option<string>) {
    && server(url, None) != Unchanged
    && (server(url, tag) == server(url, None)
        || (tag.Some? && server(url, tag) == Unchanged && HasTag(server(url, None), tag)))
  }

  predicate HasTag(reply: Reply, tag: Option<string>) { reply.Answer? && reply.page.etag == tag }

  /* ---------- the transport ---------- */

  datatype FetchError =
    | SchemeError
    | TransportError
    | StatusError(status: int)
    | RedirectError
    | BodySizeError
    | PayloadError
    | NotModified

  /** The final URL, after redirects, and its page. */
  datatype Response = Response(url: string, page: Page)

  function Lower(c: char): char { if 'A' <= c <= 'Z' then (c as int + 32) as char else c }

  /** The text before the first "://" is https, in any case. */
  predicate IsHttps(url: string) {
    && |url| >= 8 && url[5..8] == "://"
    && Lower(url[0]) == 'h' && Lower(url[1]) == 't' && Lower(url[2]) == 't' && Lower(url[3]) == 'p'
    && Lower(url[4]) == 's'
  }

  /** A redirect that the loop follows. */
  predicate Follows(reply: Reply, budget: nat) {
    reply.Redirect? && reply.location.Some? && reply.location.value != "" && budget > 0 && IsHttps(reply.location.value)
  }

  /** Follows redirects within the budget, to a page or an error. */
  function Chase(server: Server, url: string, tag: Option<string>, budget: nat): Result<Response, FetchError>
    decreases budget
  {
    match server(url, tag)
    case Redirect(status, location) =>
      if location.None? || location.value == "" then Err(StatusError(status))
      else if budget == 0 then Err(RedirectError)
      else if !IsHttps(location.value) then Err(SchemeError)
      else Chase(server, location.value, tag, budget - 1)
    case Unchanged => Err(NotModified)
    case ErrorStatus(status) => Err(StatusError(status))
    case NoAnswer => Err(TransportError)
    case Answer(page) => Ok(Response(url, page))
  }

  /** The URLs requested on the way. */
  function Requests(server: Server, url: string, tag: Option<string>, budget: nat): seq<string>
    decreases budget
  {
    var reply := server(url, tag);
    if Follows(reply, budget) then [url] + Requests(server, reply.location.value, tag, budget - 1) else [url]
  }

  /** Every fetch makes at most one request more than the redirect budget, all https. */
  lemma {:induction false} RequestsBounded(server: Server, url: string, tag: Option<string>, budget: nat)
    requires IsHttps(url)
    ensures var requests := Requests(server, url, tag, budget);
            1 <= |requests| <= budget + 1 && forall i :: 0 <= i < |requests| ==> IsHttps(requests[i])
    decreases budget
  {
    var reply := server(url, tag);
    if Follows(reply, budget) { RequestsBounded(server, reply.location.value, tag, budget - 1); }
  }

  /** The client's limits, the JSON test and the verification hook; a hook that raises
      gives None. */
  datatype Client<!D> = Client(
    maxRedirects: nat,
    maxBodyBytes: nat,
    isJsonObject: Bytes -> bool,
    verify: (string, Bytes) -> Option<D>)

  function ReadResponse<D>(client: Client<D>, response: Response): (r: Result<Response, FetchError>)
    ensures r.Ok? ==> r.value == response && response.page.body.Some?
  {
    var page := response.page;
    if !(200 <= page.status < 300) then Err(StatusError(page.status))
    else if page.body.None? then Err(TransportError)
    else if |page.body.value| > client.maxBodyBytes then Err(BodySizeError)
    else if !client.isJsonObject(page.body.value) then Err(PayloadError)
    else Ok(response)
  }

  function ChaseAndRead<D>(client: Client<D>, server: Server, url: string, tag: Option<string>, budget: nat)
      : (r: Result<Response, FetchError>)
    ensures r.Ok? ==> r.value.page.body.Some?
  {
    match Chase(server, url, tag, budget)
    case Err(error) => Err(error)
    case Ok(response) => ReadResponse(client, response)
  }

  function Fetch<D>(
      client: Client<D>, server: Server, url: string, tag: Option<string>): (r: Result<Response, FetchError>)
    ensures r.Ok? ==> r.value.page.body.Some?
  {
    if !IsHttps(url) then Err(SchemeError) else ChaseAndRead(client, server, url, tag, client.maxRedirects)
  }

  /** The redirect loop of the source; requested is the list of URLs it asked for. */
  method FetchWithRedirectBudget<D>(
      client: Client<D>, server: Server, url: string, tag: Option<string>, redirectBudget: nat)
      returns (r: Result<Response, FetchError>, ghost requested: seq<string>)
    requires IsHttps(url)
    ensures r == ChaseAndRead(client, server, url, tag, redirectBudget)
    ensures requested == Requests(server, url, tag, redirectBudget)
    ensures |requested| <= redirectBudget + 1
    ensures forall i :: 0 <= i < |requested| ==> IsHttps(requested[i])
  {
    RequestsBounded(server, url, tag, redirectBudget);
    var currentUrl, budget := url, redirectBudget;
    requested := [];
    while true
      invariant Chase(server, currentUrl, tag, budget) == Chase(server, url, tag, redirectBudget)
      invariant requested + Requests(server, currentUrl, tag, budget) == Requests(server, url, tag, redirectBudget)
      decreases budget
    {
      ghost var sofar := requested;
      requested := requested + [currentUrl];
      match server(currentUrl, tag)
      case Redirect(status, location) =>
        if location.None? || location.value == "" { return Err(StatusError(status)), requested; }
        if budget == 0 { return Err(RedirectError), requested; }
        if !IsHttps(location.value) { return Err(SchemeError), requested; }
        Associate(sofar, [currentUrl], Requests(server, location.value, tag, budget - 1));
        currentUrl := location.value;
        budget := budget - 1;
      case Unchanged => return Err(NotModified), requested;
      case ErrorStatus(status) => return Err(StatusError(status)), requested;
      case NoAnswer => return Err(TransportError), requested;
      case Answer(page) => return ReadResponse(client, Response(currentUrl, page)), requested;
    }
  }

  method GetDocument<D>(client: Client<D>, server: Server, url: string, tag: Option<string>)
      returns (r: Result<Response, FetchError>)
    ensures r == Fetch(client, server, url, tag)
  {
    if !IsHttps(url) { return Err(SchemeError); }
    ghost var requested;
    r, requested := FetchWithRedirectBudget(client, server, url, tag, client.maxRedirects);
  }

  /* ---------- the cache ---------- */

  datatype Cached<+D> = Cached(etag: string, document: D)

  datatype Cache<+D> = Cache(entries: map<string, Cached<D>>, order: seq<string>)

  function CachePut<D>(maxEntries: nat, s: Cache<D>, uri: string, c: Cached<D>): Cache<D> {
    if uri in s.entries then Cache(s.entries[uri := c], Without(s.order, uri) + [uri])
    else if |s.order| >= maxEntries && s.order != [] then
      Cache((s.entries - {s.order[0]})[uri := c], s.order[1..] + [uri])
    else Cache(s.entries[uri := c], s.order + [uri])
  }

  /** The order is a duplicate-free listing of the entries, within the bound. */
  ghost predicate Bounded<D(!new)>(maxEntries: nat, s: Cache<D>) {
    && Distinct(s.order)
    && (forall uri :: uri in s.order <==> uri in s.entries)
    && |s.order| <= maxEntries
  }

  class HTTPSAipResolverCache<D(!new)> {
    const maxEntries: nat
    var entries: map<string, Cached<D>>
    var order: seq<string>

    ghost function State(): Cache<D>
      reads this
    {
      Cache(entries, order)
    }

    ghost predicate Valid()
      reads this
    {
      0 < maxEntries && Bounded(maxEntries, State())
    }

    /** The source raises ValueError when the bound is not positive. */
    constructor (maxEntries: nat)
      requires maxEntries > 0
      ensures Valid() && this.maxEntries == maxEntries && State() == Cache(map[], [])
    {
      this.maxEntries, entries, order := maxEntries, map[], [];
    }

    function Get(uri: string): Option<Cached<D>>
      reads this
    {
      if uri in entries then Some(entries[uri]) else None
    }

    method Put(uri: string, etag: string, document: D)
      requires Valid()
      modifies this
      ensures Valid() && State() == CachePut(maxEntries, old(State()), uri, Cached(etag, document))
    {
      PutStaysBounded(maxEntries, State(), uri, Cached(etag, document));
      if uri in entries {
        entries := entries[uri := Cached(etag, document)];
        order := Without(order, uri);
        order := order + [uri];
        return;
      }
      if |order| >= maxEntries {
        var evict := order[0];
        order := order[1..];
        entries := entries - {evict};
      }
      entries := entries[uri := Cached(etag, document)];
      order := order + [uri];
    }
  }

  lemma {:induction false} PutStaysBounded<D(!new)>(maxEntries: nat, s: Cache<D>, uri: string, c: Cached<D>)
    requires 0 < maxEntries && Bounded(maxEntries, s)
    ensures Bounded(maxEntries, CachePut(maxEntries, s, uri, c))
  {
    WithoutListing(s.order, uri);
    if uri !in s.entries && |s.order| >= maxEntries {
      assert Without(s.order, s.order[0]) == s.order[1..];
      WithoutListing(s.order, s.order[0]);
    }
  }

  /* ---------- what is evicted ---------- */

  /** The URIs put, each where it was put last. */
  function Recency(puts: seq<string>): seq<string> {
    if puts == [] then []
    else Without(Recency(puts[..|puts| - 1]), puts[|puts| - 1]) + [puts[|puts| - 1]]
  }

  function PutAll<D>(maxEntries: nat, uris: seq<string>, c: string -> Cached<D>): Cache<D> {
    if uris == [] then Cache(map[], [])
    else CachePut(maxEntries, PutAll(maxEntries, uris[..|uris| - 1], c), uris[|uris| - 1], c(uris[|uris| - 1]))
  }

  lemma {:induction false} RecencyDistinct(puts: seq<string>)
    ensures Distinct(Recency(puts))
  {
    if puts != [] {
      RecencyDistinct(puts[..|puts| - 1]);
      WithoutListing(Recency(puts[..|puts| - 1]), puts[|puts| - 1]);
    }
  }

  lemma {:induction false} PutAllBounded<D(!new)>(maxEntries: nat, uris: seq<string>, c: string -> Cached<D>)
    requires 0 < maxEntries
    ensures Bounded(maxEntries, PutAll(maxEntries, uris, c))
  {
    if uris != [] {
      PutAllBounded(maxEntries, uris[..|uris| - 1], c);
      PutStaysBounded(maxEntries, PutAll(maxEntries, uris[..|uris| - 1], c), uris[|uris| - 1], c(uris[|uris| - 1]));
    }
  }

  /** The cache holds the most recently put URIs: its order is the end of the recency
      list, and an older URI is missing only when the cache is full. */
  lemma {:induction false} HoldsMostRecent<D(!new)>(maxEntries: nat, uris: seq<string>, c: string -> Cached<D>)
      returns (older: seq<string>)
    requires 0 < maxEntries
    ensures var order := PutAll(maxEntries, uris, c).order;
            Recency(uris) == older + order && |order| <= maxEntries && (older != [] ==> |order| == maxEntries)
    decreases |uris|
  {
    if uris == [] {
      older := [];
    } else {
      var uri, before := uris[|uris| - 1], uris[..|uris| - 1];
      var s := PutAll(maxEntries, before, c);
      var was := HoldsMostRecent(maxEntries, before, c);
      PutAllBounded(maxEntries, before, c);
      RecencyDistinct(before);
      older := NextRecent(maxEntries, s, uri, c(uri), was);
    }
  }

  lemma {:induction false} NextRecent<D(!new)>(
      maxEntries: nat, s: Cache<D>, uri: string, c: Cached<D>, was: seq<string>)
      returns (older: seq<string>)
    requires 0 < maxEntries && Bounded(maxEntries, s) && Distinct(was + s.order)
    requires was != [] ==> |s.order| == maxEntries
    ensures var order := CachePut(maxEntries, s, uri, c).order;
            && Without(was + s.order, uri) + [uri] == older + order
            && |order| <= maxEntries && (older != [] ==> |order| == maxEntries)
  {
    PutStaysBounded(maxEntries, s, uri, c);
    WithoutAppend(was, s.order, uri);
    if uri in s.entries {
      NotInBoth(was, s.order, uri);
      WithoutListing(s.order, uri);
      older := was;
      Associate(was, Without(s.order, uri), [uri]);
    } else {
      WithoutAbsent(s.order, uri);
      if uri !in was { WithoutAbsent(was, uri); }
      if |s.order| < maxEntries {
        older := [];
      } else {
        older := Without(was, uri) + [s.order[0]];
        Regroup(Without(was, uri), s.order, uri);
      }
    }
  }

  /* ---------- the resolver ---------- */

  datatype ResolveError = Backend(error: FetchError) | VerifyError

  /** resolve with a cache in the given state. */
  function Resolve<D>(client: Client<D>, maxEntries: nat, s: Cache<D>, server: Server, uri: string)
      : (Cache<D>, Result<D, ResolveError>) {
    var tag := if uri in s.entries then Some(s.entries[uri].etag) else None;
    match Fetch(client, server, uri, tag)
    case Err(error) =>
      if error.NotModified? && uri in s.entries then (s, Ok(s.entries[uri].document)) else (s, Err(Backend(error)))
    case Ok(Response(_, page)) =>
      match client.verify(uri, page.body.value)
      case None => (s, Err(VerifyError))
      case Some(document) =>
        (if page.etag.Some? then CachePut(maxEntries, s, uri, Cached(page.etag.value, document)) else s, Ok(document))
  }

  /** resolve without a cache: the verified current document. */
  function Current<D>(client: Client<D>, server: Server, uri: string): Result<D, ResolveError> {
    match Fetch(client, server, uri, None)
    case Err(error) => Err(Backend(error))
    case Ok(Response(_, page)) =>
      match client.verify(uri, page.body.value)
      case None => Err(VerifyError)
      case Some(document) => Ok(document)
  }

  class HTTPSAipResolver<D(!new)> {
    const client: Client<D>
    const cache: HTTPSAipResolverCache?<D>

    constructor (client: Client<D>, cache: HTTPSAipResolverCache?<D>)
      ensures this.client == client && this.cache == cache
    {
      this.client, this.cache := client, cache;
    }

    method ResolveUri(server: Server, uri: string) returns (r: Result<D, ResolveError>)
      requires cache != null ==> cache.Valid()
      modifies cache
      ensures cache == null ==> r == Current(client, server, uri)
      ensures cache != null ==> cache.Valid()
      ensures cache != null ==>
                (cache.State(), r) == Resolve(client, cache.maxEntries, old(cache.State()), server, uri)
    {
      var entry := if cache != null then cache.Get(uri) else None;
      var response := GetDocument(client, server, uri, if entry.Some? then Some(entry.value.etag) else None);
      if response.Err? {
        if response.error.NotModified? && entry.Some? { return Ok(entry.value.document); }
        return Err(Backend(response.error));
      }
      var page := response.value.page;
      var document := client.verify(uri, page.body.value);
      if document.None? { return Err(VerifyError); }
      if cache != null && page.etag.Some? {
        cache.Put(uri, page.etag.value, document.value);
      }
      return Ok(document.value);
    }
  }

  /* ---------- transparency ---------- */

  /** One request of a run: the URI, and the server's state at that time. */
  datatype Visit = Visit(uri: string, server: Server)

  /** What a URI leads to when asked for without a tag. */
  function End<D>(client: Client<D>, v: Visit): Result<Response, FetchError> {
    Chase(v.server, v.uri, None, client.maxRedirects)
  }

  function Now<D>(client: Client<D>, v: Visit): Result<D, ResolveError> { Current(client, v.server, v.uri) }

  /** The visits ask for one URI and end with the same tag. */
  predicate SameTag<D>(client: Client<D>, v: Visit, w: Visit) {
    && v.uri == w.uri
    && End(client, v).Ok? && End(client, w).Ok?
    && End(client, v).value.page.etag.Some?
    && End(client, v).value.page.etag == End(client, w).value.page.etag
  }

  /** The document that the first visit stores is still the current one at the second, if
      both end with the same tag. */
  predicate Agree<D(==)>(client: Client<D>, v: Visit, w: Visit) {
    SameTag(client, v, w) && Now(client, v).Ok? ==> Now(client, w) == Now(client, v)
  }

  /** In particular visits agree that end at the same page whenever they end with the same tag. */
  lemma {:induction false} SamePageAgrees<D>(client: Client<D>, v: Visit, w: Visit)
    requires SameTag(client, v, w) ==> End(client, v).value.page == End(client, w).value.page
    ensures Agree(client, v, w)
  {
  }

  /** A tag changes where the redirects lead only into a 304 for a page with that tag. */
  lemma {:induction false} ChaseWithTag(server: Server, url: string, tag: Option<string>, budget: nat)
    requires Honest(server)
    ensures var plain, tagged := Chase(server, url, None, budget), Chase(server, url, tag, budget);
            && plain != Err(NotModified)
            && (tagged == plain
                || (tagged == Err(NotModified) && tag.Some? && plain.Ok? && plain.value.page.etag == tag))
    decreases budget
  {
    assert HonestAt(server, url, tag);
    var reply := server(url, None);
    if Follows(reply, budget) { ChaseWithTag(server, reply.location.value, tag, budget - 1); }
  }

  /** Every entry is the document some visit before the k-th verified, under its tag. */
  ghost predicate Backed<D(!new)>(client: Client<D>, visits: seq<Visit>, k: nat, s: Cache<D>)
    requires k <= |visits|
  {
    forall uri :: uri in s.entries ==> exists i :: 0 <= i < k && BackedBy(client, visits[i], uri, s.entries[uri])
  }

  predicate BackedBy<D(==)>(client: Client<D>, v: Visit, uri: string, c: Cached<D>) {
    && v.uri == uri
    && End(client, v).Ok? && End(client, v).value.page.etag == Some(c.etag)
    && Now(client, v) == Ok(c.document)
  }

  /** A resolve returns the verified current document, and what it stores is backed. */
  lemma {:induction false} ResolveIsCurrent<D(!new)>(
      client: Client<D>, maxEntries: nat, visits: seq<Visit>, s: Cache<D>, k: nat)
    requires k < |visits| && Honest(visits[k].server) && Backed(client, visits, k, s)
    requires forall i :: 0 <= i < k ==> Agree(client, visits[i], visits[k])
    ensures var (s', r) := Resolve(client, maxEntries, s, visits[k].server, visits[k].uri);
            r == Now(client, visits[k]) && Backed(client, visits, k + 1, s')
  {
    var v := visits[k];
    var tag := if v.uri in s.entries then Some(s.entries[v.uri].etag) else None;
    ChaseWithTag(v.server, v.uri, tag, client.maxRedirects);
    if tag.Some? && Fetch(client, v.server, v.uri, tag) == Err(NotModified) {
      var i :| 0 <= i < k && BackedBy(client, visits[i], v.uri, s.entries[v.uri]);
      assert Agree(client, visits[i], v);
    } else {
      FullReply(client, maxEntries, visits, s, k);
    }
  }

  lemma {:induction false} FullReply<D(!new)>(
      client: Client<D>, maxEntries: nat, visits: seq<Visit>, s: Cache<D>, k: nat)
    requires k < |visits| && Backed(client, visits, k, s)
    requires var v := visits[k];
             var tag := if v.uri in s.entries then Some(s.entries[v.uri].etag) else None;
             && Fetch(client, v.server, v.uri, tag) == Fetch(client, v.server, v.uri, None)
             && Fetch(client, v.server, v.uri, None) != Err(NotModified)
    ensures var (s', r) := Resolve(client, maxEntries, s, visits[k].server, visits[k].uri);
            r == Now(client, visits[k]) && Backed(client, visits, k + 1, s')
  {
    var v := visits[k];
    var (s', r) := Resolve(client, maxEntries, s, v.server, v.uri);
    forall uri | uri in s'.entries
      ensures exists i :: 0 <= i < k + 1 && BackedBy(client, visits[i], uri, s'.entries[uri])
    {
      if uri in s.entries && s'.entries[uri] == s.entries[uri] {
        var i :| 0 <= i < k && BackedBy(client, visits[i], uri, s.entries[uri]);
      } else {
        assert BackedBy(client, visits[k], uri, s'.entries[uri]);
      }
    }
  }

  function CacheAfter<D>(client: Client<D>, maxEntries: nat, visits: seq<Visit>): Cache<D> {
    if visits == [] then Cache(map[], [])
    else
      var n := |visits| - 1;
      Resolve(client, maxEntries, CacheAfter(client, maxEntries, visits[..n]), visits[n].server, visits[n].uri).0
  }

  /** What the k-th request of a run returns. */
  function Returned<D>(client: Client<D>, maxEntries: nat, visits: seq<Visit>, k: nat): Result<D, ResolveError>
    requires k < |visits|
  {
    Resolve(client, maxEntries, CacheAfter(client, maxEntries, visits[..k]), visits[k].server, visits[k].uri).1
  }

  ghost predicate AllHonest(visits: seq<Visit>) { forall i :: 0 <= i < |visits| ==> Honest(visits[i].server) }

  lemma {:induction false} RunBacked<D(!new)>(client: Client<D>, maxEntries: nat, visits: seq<Visit>, k: nat)
    requires k <= |visits| && AllHonest(visits)
    requires forall i, j :: 0 <= i < j < k ==> Agree(client, visits[i], visits[j])
    ensures Backed(client, visits, k, CacheAfter(client, maxEntries, visits[..k]))
    decreases k
  {
    if k > 0 {
      RunBacked(client, maxEntries, visits, k - 1);
      assert visits[..k][..k - 1] == visits[..k - 1];
      ResolveIsCurrent(client, maxEntries, visits, CacheAfter(client, maxEntries, visits[..k - 1]), k - 1);
    }
  }

  /** In a run of requests to honest servers in which earlier visits agree with later ones,
      every resolve returns what it would have returned without the cache. */
  lemma {:induction false} CacheIsTransparent<D(!new)>(client: Client<D>, maxEntries: nat, visits: seq<Visit>, k: nat)
    requires k < |visits| && AllHonest(visits)
    requires forall i, j :: 0 <= i < j < |visits| ==> Agree(client, visits[i], visits[j])
    ensures Returned(client, maxEntries, visits, k) == Now(client, visits[k])
  {
    RunBacked(client, maxEntries, visits, k);
    ResolveIsCurrent(client, maxEntries, visits, CacheAfter(client, maxEntries, visits[..k]), k);
  }

  /* ---------- agreement from the tags of single URLs ---------- */

  /** A tag that a URL answers with at two times comes with the same page. */
  ghost predicate UrlTagsFixPages(visits: seq<Visit>) {
    forall i, j, url :: 0 <= i < |visits| && 0 <= j < |visits| ==>
      SameTagSamePage(visits[i].server(url, None), visits[j].server(url, None))
  }

  predicate SameTagSamePage(p: Reply, q: Reply) {
    p.Answer? && q.Answer? && p.page.etag.Some? && p.page.etag == q.page.etag ==> p == q
  }

  /** All visits to a URI that end in a page end at one URL. */
  ghost predicate FixedEnds<D>(client: Client<D>, visits: seq<Visit>) {
    forall i, j :: 0 <= i < |visits| && 0 <= j < |visits| && visits[i].uri == visits[j].uri
                   && End(client, visits[i]).Ok? && End(client, visits[j]).Ok?
      ==> End(client, visits[i]).value.url == End(client, visits[j]).value.url
  }

  lemma {:induction false} ChaseEnds(server: Server, url: string, budget: nat)
    ensures var end := Chase(server, url, None, budget);
            end.Ok? ==> server(end.value.url, None) == Answer(end.value.page)
    decreases budget
  {
    var reply := server(url, None);
    if Follows(reply, budget) { ChaseEnds(server, reply.location.value, budget - 1); }
  }

  /** If a tag fixes the page of each URL, and every URI ends at one URL, as it must when no
      redirect is followed, then the cache is transparent. */
  lemma {:induction false} TransparentWithFixedEnds<D(!new)>(
      client: Client<D>, maxEntries: nat, visits: seq<Visit>, k: nat)
    requires k < |visits| && AllHonest(visits) && UrlTagsFixPages(visits)
    requires FixedEnds(client, visits) || client.maxRedirects == 0
    ensures Returned(client, maxEntries, visits, k) == Now(client, visits[k])
  {
    forall i, j | 0 <= i < j < |visits| ensures Agree(client, visits[i], visits[j]) {
      var v, w := visits[i], visits[j];
      ChaseEnds(v.server, v.uri, client.maxRedirects);
      ChaseEnds(w.server, w.uri, client.maxRedirects);
      if SameTag(client, v, w) {
        var url := End(client, v).value.url;
        assert SameTagSamePage(v.server(url, None), w.server(url, None));
      }
      SamePageAgrees(client, v, w);
    }
    CacheIsTransparent(client, maxEntries, visits, k);
  }

  /* ---------- agreement is needed ---------- */

  /** The server that sends 304 whenever it may. */
  function Tagging(plain: Server): Server {
    (url: string, tag: Option<string>) =>
      if tag.Some? && HasTag(plain(url, None), tag) then Unchanged else plain(url, None)
  }

  ghost predicate NeverUnchanged(plain: Server) { forall url :: plain(url, None) != Unchanged }

  lemma {:induction false} TaggingChase(plain: Server, url: string, tag: Option<string>, budget: nat)
    ensures Chase(Tagging(plain), url, None, budget) == Chase(plain, url, None, budget)
    ensures var end := Chase(plain, url, None, budget);
            Chase(Tagging(plain), url, tag, budget)
            == if tag.Some? && end.Ok? && end.value.page.etag == tag then Err(NotModified) else end
    decreases budget
  {
    var reply := plain(url, None);
    if Follows(reply, budget) { TaggingChase(plain, reply.location.value, tag, budget - 1); }
  }

  /** The same untagged replies. */
  ghost predicate SamePlain(s: Server, t: Server) { forall url :: s(url, None) == t(url, None) }

  lemma {:induction false} SamePlainChase(s: Server, t: Server, url: string, budget: nat)
    requires SamePlain(s, t)
    ensures Chase(s, url, None, budget) == Chase(t, url, None, budget)
    decreases budget
  {
    var reply := t(url, None);
    assert s(url, None) == reply;
    if Follows(reply, budget) { SamePlainChase(s, t, reply.location.value, budget - 1); }
  }

  lemma {:induction false} SamePlainNow<D>(client: Client<D>, v: Visit, w: Visit)
    requires v.uri == w.uri && SamePlain(v.server, w.server)
    ensures End(client, v) == End(client, w) && Now(client, v) == Now(client, w)
  {
    SamePlainChase(v.server, w.server, v.uri, client.maxRedirects);
  }

  /** Where two visits do not agree, the run of the two returns a stale document. */
  lemma {:induction false} DisagreementMisleads<D(!new)>(client: Client<D>, maxEntries: nat, v: Visit, w: Visit)
    requires NeverUnchanged(v.server) && NeverUnchanged(w.server) && !Agree(client, v, w)
    ensures var run := [Visit(v.uri, Tagging(v.server)), Visit(w.uri, Tagging(w.server))];
            AllHonest(run) && Returned(client, maxEntries, run, 1) == Now(client, v) != Now(client, w)
  {
    var first, second := Visit(v.uri, Tagging(v.server)), Visit(w.uri, Tagging(w.server));
    var run, tag := [first, second], End(client, v).value.page.etag;
    TaggingChase(v.server, v.uri, None, client.maxRedirects);
    TaggingChase(w.server, w.uri, tag, client.maxRedirects);
    assert run[..1] == [first] && [first][..0] == [];
    assert CacheAfter(client, maxEntries, run[..1]).entries == map[v.uri := Cached(tag.value, Now(client, v).value)];
  }

  /** Every visit of the run is one of the pool, but for which requests get a 304. */
  ghost predicate DrawnFrom(run: seq<Visit>, pool: seq<Visit>) {
    forall k :: 0 <= k < |run| ==> exists i :: 0 <= i < |pool| && TwinOf(run[k], pool[i])
  }

  ghost predicate TwinOf(v: Visit, w: Visit) { v.uri == w.uri && SamePlain(v.server, w.server) }

  /** Every run of such visits, to honest servers, is transparent. */
  ghost predicate AlwaysTransparent<D(!new)>(client: Client<D>, maxEntries: nat, pool: seq<Visit>) {
    forall run: seq<Visit>, k: nat :: k < |run| && AllHonest(run) && DrawnFrom(run, pool) ==>
      Returned(client, maxEntries, run, k) == Now(client, run[k])
  }

  /** For every set of visits, in every order and with repetitions: the cache is transparent
      if and only if the visits agree with one another. */
  lemma {:induction false} TransparentIff<D(!new)>(client: Client<D>, maxEntries: nat, pool: seq<Visit>)
    requires forall i :: 0 <= i < |pool| ==> NeverUnchanged(pool[i].server)
    ensures AlwaysTransparent(client, maxEntries, pool) <==>
              forall i, j :: 0 <= i < |pool| && 0 <= j < |pool| ==> Agree(client, pool[i], pool[j])
  {
    if forall i, j :: 0 <= i < |pool| && 0 <= j < |pool| ==> Agree(client, pool[i], pool[j]) {
      forall run: seq<Visit>, k: nat | k < |run| && AllHonest(run) && DrawnFrom(run, pool)
        ensures Returned(client, maxEntries, run, k) == Now(client, run[k])
      {
        DrawnAgree(client, run, pool);
        CacheIsTransparent(client, maxEntries, run, k);
      }
    } else {
      var i, j :| 0 <= i < |pool| && 0 <= j < |pool| && !Agree(client, pool[i], pool[j]);
      MisleadingRun(client, maxEntries, pool, i, j);
    }
  }

  lemma {:induction false} DrawnAgree<D(!new)>(client: Client<D>, run: seq<Visit>, pool: seq<Visit>)
    requires DrawnFrom(run, pool)
    requires forall i, j :: 0 <= i < |pool| && 0 <= j < |pool| ==> Agree(client, pool[i], pool[j])
    ensures forall i, j :: 0 <= i < j < |run| ==> Agree(client, run[i], run[j])
  {
    forall i, j | 0 <= i < j < |run| ensures Agree(client, run[i], run[j]) {
      var a :| 0 <= a < |pool| && TwinOf(run[i], pool[a]);
      var b :| 0 <= b < |pool| && TwinOf(run[j], pool[b]);
      SamePlainNow(client, run[i], pool[a]);
      SamePlainNow(client, run[j], pool[b]);
      assert Agree(client, pool[a], pool[b]);
    }
  }

  lemma {:induction false} MisleadingRun<D(!new)>(client: Client<D>, maxEntries: nat, pool: seq<Visit>, i: nat, j: nat)
    requires forall k :: 0 <= k < |pool| ==> NeverUnchanged(pool[k].server)
    requires i < |pool| && j < |pool| && !Agree(client, pool[i], pool[j])
    ensures !AlwaysTransparent(client, maxEntries, pool)
  {
    var v, w := pool[i], pool[j];
    var run := [Visit(v.uri, Tagging(v.server)), Visit(w.uri, Tagging(w.server))];
    DisagreementMisleads(client, maxEntries, v, w);
    assert TwinOf(run[0], pool[i]) && TwinOf(run[1], pool[j]);
    SamePlainNow(client, run[1], w);
    assert DrawnFrom(run, pool);
  }

  /* ---------- a run in which redirects mislead the cache ---------- */

  /** https://a redirects to the target; https://b and https://c answer with their bodies. */
  function RedirectingTo(target: string): Server {
    (url: string, tag: Option<string>) =>
      if url == "https://a" then Redirect(302, Some(target))
      else if url == "https://b" then Answer(TaggedPage([1]))
      else if url == "https://c" then Answer(TaggedPage([2]))
      else NoAnswer
  }

  function TaggedPage(body: Bytes): Page { Page(200, Some(body), Some("v1"), None, None) }

  /** Honest servers whose every URL has one page for its tag: after https://a has moved its
      redirect from https://b to https://c, which uses the same tag, the cache returns the
      document of https://b. */
  lemma {:induction false} MovedRedirectMisleads<D(!new)>(client: Client<D>, maxEntries: nat)
    requires client.maxRedirects > 0 && client.maxBodyBytes > 0
    requires client.isJsonObject([1]) && client.isJsonObject([2])
    requires var d, e := client.verify("https://a", [1]), client.verify("https://a", [2]); d.Some? && e.Some? && d != e
    ensures var run := [Visit("https://a", Tagging(RedirectingTo("https://b"))),
                        Visit("https://a", Tagging(RedirectingTo("https://c")))];
            && AllHonest(run) && UrlTagsFixPages(run)
            && Returned(client, maxEntries, run, 1) == Ok(client.verify("https://a", [1]).value)
            && Now(client, run[1]) == Ok(client.verify("https://a", [2]).value)
  {
    var b, c := RedirectingTo("https://b"), RedirectingTo("https://c");
    var v, w := Visit("https://a", b), Visit("https://a", c);
    assert "https://b" != "https://a" && "https://c" != "https://a" && "https://c" != "https://b";
    assert Chase(b, "https://b", None, client.maxRedirects - 1) == Ok(Response("https://b", TaggedPage([1])));
    assert Chase(c, "https://c", None, client.maxRedirects - 1) == Ok(Response("https://c", TaggedPage([2])));
    assert End(client, v) == Ok(Response("https://b", TaggedPage([1])));
    assert End(client, w) == Ok(Response("https://c", TaggedPage([2])));
    DisagreementMisleads(client, maxEntries, v, w);
    TaggingChase(c, "https://a", None, client.maxRedirects);
  }
}
