/** What a fetch does, told by the URLs it asks for and the last reply: the scheme on the
    text of the URL, the chain of redirects, and the outcome. */
module FetchLaws {
  import opened Common
  import opened EtagCache

  /* ---------- the scheme ---------- */

  predicate SeparatorAt(url: string, k: nat) {
    k + 3 <= |url| && url[k] == ':' && url[k + 1] == '/' && url[k + 2] == '/'
  }

  /** The first "://" of the text begins at k. */
  predicate FirstSeparatorAt(url: string, k: nat) {
    SeparatorAt(url, k) && forall j: nat :: j < k ==> !SeparatorAt(url, j)
  }

  /** The word, in upper or lower case letter by letter. */
  predicate SpelledHttps(scheme: string) {
    |scheme| == 5 && forall i :: 0 <= i < 5 ==> scheme[i] == "https"[i] || scheme[i] == "HTTPS"[i]
  }

  ghost predicate HttpsText(url: string) { exists k: nat :: FirstSeparatorAt(url, k) && SpelledHttps(url[..k]) }

  /** The test of the transport: what stands before the first "://" is https. */
  lemma {:induction false} IsHttpsIff(url: string)
    ensures IsHttps(url) <==> HttpsText(url)
  {
    if IsHttps(url) {
      assert url[5..8][0] == url[5] && url[5..8][1] == url[6] && url[5..8][2] == url[7];
      assert FirstSeparatorAt(url, 5) && SpelledHttps(url[..5]);
    }
    if HttpsText(url) {
      var k: nat :| FirstSeparatorAt(url, k) && SpelledHttps(url[..k]);
      assert url[5..8] == "://";
      var scheme := url[..5];
      assert scheme[0] == url[0] && scheme[1] == url[1] && scheme[2] == url[2];
      assert scheme[3] == url[3] && scheme[4] == url[4];
    }
  }

  /* ---------- the chain of requests ---------- */

  /** Each URL redirects to the next one, which is https. */
  ghost predicate IsChain(server: Server, tag: Option<string>, urls: seq<string>) {
    |urls| <= 1 || (StepsTo(server(urls[0], tag), urls[1]) && IsChain(server, tag, urls[1..]))
  }

  ghost predicate StepsTo(reply: Reply, url: string) {
    reply.Redirect? && reply.location == Some(url) && url != "" && HttpsText(url)
  }

  /** How a fetch ends at a reply, with the redirects that are left. */
  ghost predicate EndsAs<D>(
      client: Client<D>, url: string, reply: Reply, left: nat, r: Result<Response, FetchError>)
  {
    match reply
    case Unchanged => r == Err(NotModified)
    case NoAnswer => r == Err(TransportError)
    case ErrorStatus(status) => r == Err(StatusError(status))
    case Redirect(status, location) =>
      if location in {None, Some("")} then r == Err(StatusError(status))
      else if left == 0 then r == Err(RedirectError)
      else r == Err(SchemeError) && !HttpsText(location.value)
    case Answer(page) =>
      if !(200 <= page.status <= 299) then r == Err(StatusError(page.status))
      else if page.body.None? then r == Err(TransportError)
      else if |page.body.value| > client.maxBodyBytes then r == Err(BodySizeError)
      else if !client.isJsonObject(page.body.value) then r == Err(PayloadError)
      else r == Ok(Response(url, page))
  }

  lemma {:induction false} RequestsAreAChain(server: Server, url: string, tag: Option<string>, budget: nat)
    ensures var urls := Requests(server, url, tag, budget);
            1 <= |urls| <= budget + 1 && urls[0] == url && IsChain(server, tag, urls)
    decreases budget
  {
    var reply := server(url, tag);
    if Follows(reply, budget) {
      var more := Requests(server, reply.location.value, tag, budget - 1);
      RequestsAreAChain(server, reply.location.value, tag, budget - 1);
      IsHttpsIff(reply.location.value);
      assert ([url] + more)[1..] == more;
    }
  }

  lemma {:induction false} ChainEnds<D>(
      client: Client<D>, server: Server, url: string, tag: Option<string>, budget: nat)
    ensures var urls := Requests(server, url, tag, budget);
            && 1 <= |urls| <= budget + 1
            && var last := urls[|urls| - 1];
               EndsAs(client, last, server(last, tag), budget + 1 - |urls|,
                      ChaseAndRead(client, server, url, tag, budget))
    decreases budget
  {
    var reply := server(url, tag);
    if reply.Redirect? && reply.location.Some? { IsHttpsIff(reply.location.value); }
    if Follows(reply, budget) { ChainEnds(client, server, reply.location.value, tag, budget - 1); }
  }

  /** The URLs are a chain from the first one within the redirect budget, and the last reply
      decides how the fetch ends. */
  ghost predicate Explains<D>(
      client: Client<D>, server: Server, url: string, tag: Option<string>, urls: seq<string>,
      r: Result<Response, FetchError>)
  {
    && 1 <= |urls| <= client.maxRedirects + 1 && urls[0] == url && IsChain(server, tag, urls)
    && var last := urls[|urls| - 1];
       EndsAs(client, last, server(last, tag), client.maxRedirects + 1 - |urls|, r)
  }

  /** A fetch of a URL that is not https asks for nothing; any other is explained by the
      chain of the URLs that it asks for. */
  lemma {:induction false} FetchOutcome<D>(client: Client<D>, server: Server, url: string, tag: Option<string>)
    ensures !HttpsText(url) ==> Fetch(client, server, url, tag) == Err(SchemeError)
    ensures HttpsText(url) ==>
              Explains(client, server, url, tag, Requests(server, url, tag, client.maxRedirects),
                       Fetch(client, server, url, tag))
  {
    IsHttpsIff(url);
    RequestsAreAChain(server, url, tag, client.maxRedirects);
    ChainEnds(client, server, url, tag, client.maxRedirects);
  }

  /** A chain within the budget to an acceptable page is fetched. */
  lemma {:induction false} ChainIsFetched<D>(
      client: Client<D>, server: Server, tag: Option<string>, urls: seq<string>, page: Page, budget: nat)
    requires 1 <= |urls| <= budget + 1 && IsChain(server, tag, urls)
    requires server(urls[|urls| - 1], tag) == Answer(page)
    requires 200 <= page.status <= 299 && page.body.Some? && |page.body.value| <= client.maxBodyBytes
    requires client.isJsonObject(page.body.value)
    ensures ChaseAndRead(client, server, urls[0], tag, budget) == Ok(Response(urls[|urls| - 1], page))
    decreases |urls|
  {
    if |urls| > 1 {
      IsHttpsIff(urls[1]);
      ChainIsFetched(client, server, tag, urls[1..], page, budget - 1);
    }
  }

  /** So a fetch succeeds exactly when a chain of redirects within the budget leads from an
      https URL to a 2xx page with a readable JSON object within the size limit. */
  lemma {:induction false} FetchSucceedsIff<D>(
      client: Client<D>, server: Server, url: string, tag: Option<string>, final: string, page: Page)
    ensures Fetch(client, server, url, tag) == Ok(Response(final, page)) <==>
              && HttpsText(url)
              && (exists urls :: 1 <= |urls| <= client.maxRedirects + 1 && urls[0] == url
                    && urls[|urls| - 1] == final && IsChain(server, tag, urls))
              && server(final, tag) == Answer(page)
              && 200 <= page.status <= 299 && page.body.Some? && |page.body.value| <= client.maxBodyBytes
              && client.isJsonObject(page.body.value)
  {
    IsHttpsIff(url);
    if Fetch(client, server, url, tag) == Ok(Response(final, page)) {
      FetchOutcome(client, server, url, tag);
    }
    if exists urls :: 1 <= |urls| <= client.maxRedirects + 1 && urls[0] == url
         && urls[|urls| - 1] == final && IsChain(server, tag, urls)
    {
      var urls :| 1 <= |urls| <= client.maxRedirects + 1 && urls[0] == url
                  && urls[|urls| - 1] == final && IsChain(server, tag, urls);
      if server(final, tag) == Answer(page) && 200 <= page.status <= 299 && page.body.Some?
         && |page.body.value| <= client.maxBodyBytes && client.isJsonObject(page.body.value)
      {
        ChainIsFetched(client, server, tag, urls, page, client.maxRedirects);
      }
    }
  }
}
