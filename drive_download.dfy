/**
 * The Google Drive download route, app/api/download/route.ts: the file id is
 * pulled out of the posted URL, four download URLs are tried in turn (an HTML
 * interstitial is scraped for a confirm token or a download link), a final
 * cookie-less fallback runs when none gave a body, and the bytes come back as a
 * `data:` URI whose content type the leading magic bytes decide.
 *
 * Every `fetch` is a call to a `Network` oracle, which is given the number of
 * requests already sent, so the same URL may be answered differently each time;
 * a `None` answer is a fetch that threw.
 */
module DriveDownload {
  import opened Wrappers
  import opened Text
  import opened Base64
  import SkuParser

  // ------------------------------------------------------- requests and responses

  /** The parts of a request the route varies: the URL and the `Cookie` header, if sent. */
  datatype Request = Request(url: string, cookie: Option<string>)

  /** A response: `contentType` and `setCookie` are "" when the header is absent;
      `text` is what `response.text()` gives, `body` what `arrayBuffer()` gives. */
  datatype Response = Response(ok: bool, contentType: string, setCookie: string, text: string, body: seq<Byte>)

  /** Which request of the route a call is: the direct fetch of strategy `i`, the
      confirm-token or extracted-link fetch made while scraping its HTML page, or
      the final fallback. */
  datatype Stage = Direct(strategy: nat) | Confirm(strategy: nat) | Extracted(strategy: nat) | Fallback

  datatype Call = Call(stage: Stage, request: Request, response: Option<Response>)

  /** The network: the answer to the request sent after `n` earlier ones. */
  type Network = (nat, Request) -> Option<Response>

  /** Send one request and log it. */
  function Send(calls: seq<Call>, stage: Stage, req: Request, net: Network): (r: seq<Call>)
    ensures r == calls + [Call(stage, req, net(|calls|, req))]
  {
    calls + [Call(stage, req, net(|calls|, req))]
  }

  /** The `Cookie` header is sent only when the stored string is non-empty. */
  function CookieHeader(cookies: string): Option<string> {
    if cookies == "" then None else Some(cookies)
  }

  /** `x || "image/jpeg"` for a content type. */
  function OrJpeg(contentType: string): (r: string)
    ensures r != ""
  {
    if contentType == "" then "image/jpeg" else contentType
  }

  predicate IsHtml(contentType: string) {
    Contains(contentType, "text/html")
  }

  /** The default type is not an HTML type. */
  lemma JpegIsNotHtml()
    ensures !IsHtml("image/jpeg")
  {
    var s, p := "image/jpeg", "text/html";
    assert !OccursAt(s, p, 0) by { assert s[..9][0] != p[0]; }
    assert !OccursAt(s, p, 1) by { assert s[1..10][0] != p[0]; }
    assert IndexOfFrom(s, p, 2) == None;
  }

  // ------------------------------------------------------- file id and URLs

  /** `/id=([^&]+)/`. */
  const IdParam := Pattern("id=", NoneOf({'&'}), None)

  /** `/\/d\/([^/]+)/`. */
  const PathSegment := Pattern("/d/", NoneOf({'/'}), None)

  /** The id as the route finds it: the `id=` parameter first, then a `/d/` segment. */
  function RouteFileId(url: string): (r: Option<string>)
    ensures r.Some? ==> r.value != []
    ensures r.None? <==> Capture(url, IdParam).None? && Capture(url, PathSegment).None?
  {
    match Capture(url, IdParam)
    case Some(id) => Some(id)
    case None => Capture(url, PathSegment)
  }

  /** The four strategies, in the order they are tried. */
  function StrategyUrls(fileId: string): (r: seq<string>)
    ensures |r| == 4
  {
    [ "https://lh3.googleusercontent.com/d/" + fileId,
      "https://drive.google.com/uc?export=download&id=" + fileId,
      "https://drive.google.com/uc?export=download&confirm=t&id=" + fileId,
      "https://drive.usercontent.google.com/download?id=" + fileId + "&export=download&confirm=t" ]
  }

  function ConfirmUrl(token: string, fileId: string): string {
    "https://drive.google.com/uc?export=download&confirm=" + token + "&id=" + fileId
  }

  function FallbackUrl(fileId: string): string {
    "https://drive.usercontent.google.com/download?id=" + fileId + "&export=download&authuser=0&confirm=t"
  }

  // ------------------------------------------------------- scraping an HTML page

  /** `/confirm=([^&"]+)/`. */
  const ConfirmParam := Pattern("confirm=", NoneOf({'&', '"'}), None)

  /** `/confirm=([a-zA-Z0-9_-]+)/`, tried when the first finds nothing. */
  const ConfirmWord := Pattern("confirm=", Word, None)

  function ConfirmToken(html: string): Option<string> {
    match Capture(html, ConfirmParam)
    case Some(t) => Some(t)
    case None => Capture(html, ConfirmWord)
  }

  const LinkLead := "/uc?export=download"

  /** `/href="(\/uc\?export=download[^"]+)"/`: the group keeps the `/uc?...` lead. */
  const LinkPattern := Pattern("href=\"" + LinkLead, NoneOf({'"'}), Some('"'))

  function DownloadLink(html: string): (r: Option<string>)
    ensures r.Some? ==> StartsWith(r.value, LinkLead) && |r.value| > |LinkLead|
  {
    match Capture(html, LinkPattern)
    case Some(rest) => Some(LinkLead + rest)
    case None => None
  }

  /** The extracted link, on the Drive origin, with `&amp;` turned back into `&`. */
  function ExtractedUrl(path: string): string {
    "https://drive.google.com" + ReplaceAll(path, "&amp;", "&")
  }

  /** A body and the content type it is stored under. */
  datatype Hit = Hit(body: seq<Byte>, contentType: string)

  /** The outcome of scraping a page: a hit or none, and the calls made on the way. */
  datatype Scrape = Scrape(hit: Option<Hit>, calls: seq<Call>)

  /** A confirm or extracted-link response is taken when it is ok and not HTML. */
  function TakeNonHtml(resp: Option<Response>): (r: Option<Hit>)
    ensures r.Some? ==> r.value.contentType != "" && !IsHtml(r.value.contentType)
  {
    JpegIsNotHtml();
    match resp
    case Some(c) =>
      if c.ok && !IsHtml(c.contentType) then Some(Hit(c.body, OrJpeg(c.contentType))) else None
    case None => None
  }

  /** An HTML page of strategy `i`: the confirm-token URL, then the page's download
      link; a fetch that throws ends the strategy. */
  function Interstitial(i: nat, html: string, fileId: string, cookies: string, calls: seq<Call>, net: Network): Scrape {
    match ConfirmToken(html)
    case None => ScrapeLink(i, html, cookies, calls, net)
    case Some(token) =>
      var req := Request(ConfirmUrl(token, fileId), CookieHeader(cookies));
      var sent := Send(calls, Confirm(i), req, net);
      var resp := net(|calls|, req);
      if resp.None? then Scrape(None, sent)
      else if TakeNonHtml(resp).Some? then Scrape(TakeNonHtml(resp), sent)
      else ScrapeLink(i, html, cookies, sent, net)
  }

  function ScrapeLink(i: nat, html: string, cookies: string, calls: seq<Call>, net: Network): Scrape {
    match DownloadLink(html)
    case None => Scrape(None, calls)
    case Some(path) =>
      var req := Request(ExtractedUrl(path), CookieHeader(cookies));
      Scrape(TakeNonHtml(net(|calls|, req)), Send(calls, Extracted(i), req, net))
  }

  // ------------------------------------------------------- the strategy loop

  /** The loop's variables: `imageBuffer`, `contentType`, `cookies`, and the calls made. */
  datatype Attempt = Attempt(buffer: Option<seq<Byte>>, contentType: string, cookies: string, calls: seq<Call>)

  const Start := Attempt(None, "image/jpeg", "", [])

  lemma StartTracked()
    ensures Tracked(Start) && DirectUrls(Start.calls) == []
  {
  }

  /** A direct response is taken when it is ok and an image or an octet stream. */
  predicate DirectAccepts(r: Response) {
    r.ok && (Contains(r.contentType, "image/") || Contains(r.contentType, "application/octet-stream"))
  }

  /** Direct hits and the fallback keep an `image/` type and otherwise say image/jpeg. */
  function ImageTypeOrJpeg(contentType: string): string {
    if Contains(contentType, "image/") then contentType else "image/jpeg"
  }

  /** One pass of the loop body for strategy `i`. */
  function TryStrategy(i: nat, fileId: string, a: Attempt, net: Network): Attempt
    requires i < 4
  {
    var req := Request(StrategyUrls(fileId)[i], CookieHeader(a.cookies));
    var calls := Send(a.calls, Direct(i), req, net);
    match net(|a.calls|, req)
    case None => a.(calls := calls)
    case Some(r) =>
      var cookies := if r.setCookie != "" then r.setCookie else a.cookies;
      if IsHtml(r.contentType) then
        var s := Interstitial(i, r.text, fileId, cookies, calls, net);
        match s.hit
        case Some(h) => Attempt(Some(h.body), h.contentType, cookies, s.calls)
        case None => a.(cookies := cookies, calls := s.calls)
      else if DirectAccepts(r) then
        Attempt(Some(r.body), ImageTypeOrJpeg(r.contentType), cookies, calls)
      else a.(cookies := cookies, calls := calls)
  }

  /** The loop from strategy `i` on: it stops at the first strategy that yields a body. */
  function Strategies(fileId: string, i: nat, a: Attempt, net: Network): Attempt
    requires i <= 4
    decreases 4 - i
  {
    if i == 4 then a
    else
      var next := TryStrategy(i, fileId, a, net);
      if next.buffer.Some? then next else Strategies(fileId, i + 1, next, net)
  }

  /** The fallback, without cookies, when the loop found nothing. */
  function FinalFallback(fileId: string, a: Attempt, net: Network): Attempt {
    if a.buffer.Some? then a
    else
      var req := Request(FallbackUrl(fileId), None);
      var calls := Send(a.calls, Fallback, req, net);
      match net(|a.calls|, req)
      case Some(f) =>
        if f.ok && !IsHtml(f.contentType) then
          a.(buffer := Some(f.body), contentType := ImageTypeOrJpeg(f.contentType), calls := calls)
        else a.(calls := calls)
      case None => a.(calls := calls)
  }

  /** Everything the route fetches for one file id. */
  function Fetched(fileId: string, net: Network): Attempt {
    FinalFallback(fileId, Strategies(fileId, 0, Start, net), net)
  }

  /** Lines 39-151 of the route: the strategy loop and the fallback. */
  method FetchImage(fileId: string, net: Network) returns (a: Attempt)
    ensures a == Fetched(fileId, net)
  {
    var urls := StrategyUrls(fileId);
    var imageBuffer: Option<seq<Byte>> := None;
    var contentType := "image/jpeg";
    var cookies := "";
    var calls: seq<Call> := [];
    var i := 0;
    while i < |urls|
      invariant 0 <= i <= 4
      invariant Strategies(fileId, 0, Start, net) == Strategies(fileId, i, Attempt(None, contentType, cookies, calls), net)
    {
      var req := Request(urls[i], CookieHeader(cookies));
      var resp := net(|calls|, req);
      calls := calls + [Call(Direct(i), req, resp)];
      if resp.None? {
        i := i + 1;
        continue;
      }
      var r := resp.value;
      if r.setCookie != "" {
        cookies := r.setCookie;
      }
      if IsHtml(r.contentType) {
        var s := Interstitial(i, r.text, fileId, cookies, calls, net);
        calls := s.calls;
        if s.hit.Some? {
          imageBuffer := Some(s.hit.value.body);
          contentType := s.hit.value.contentType;
          break;
        }
        i := i + 1;
        continue;
      }
      if DirectAccepts(r) {
        imageBuffer := Some(r.body);
        contentType := ImageTypeOrJpeg(r.contentType);
        break;
      }
      i := i + 1;
    }
    assert Attempt(imageBuffer, contentType, cookies, calls) == Strategies(fileId, 0, Start, net);
    if imageBuffer.None? {
      var req := Request(FallbackUrl(fileId), None);
      var resp := net(|calls|, req);
      calls := calls + [Call(Fallback, req, resp)];
      if resp.Some? && resp.value.ok && !IsHtml(resp.value.contentType) {
        imageBuffer := Some(resp.value.body);
        contentType := ImageTypeOrJpeg(resp.value.contentType);
      }
    }
    a := Attempt(imageBuffer, contentType, cookies, calls);
  }

  // ------------------------------------------------------- what the calls show

  /** The `set-cookie` value of the most recent direct response that had one, or "". */
  function LastSetCookie(calls: seq<Call>): string
    decreases |calls|
  {
    if calls == [] then ""
    else
      var c := calls[|calls| - 1];
      if c.stage.Direct? && c.response.Some? && c.response.value.setCookie != "" then c.response.value.setCookie
      else LastSetCookie(calls[..|calls| - 1])
  }

  /** The URLs of the direct fetches, in the order they were made. */
  function DirectUrls(calls: seq<Call>): seq<string>
    decreases |calls|
  {
    if calls == [] then []
    else
      var c := calls[|calls| - 1];
      DirectUrls(calls[..|calls| - 1]) + (if c.stage.Direct? then [c.request.url] else [])
  }

  /** Every request but the fallback carries exactly the most recent stored cookie
      string: each `set-cookie` replaces the last, nothing is merged. */
  predicate CookiesFollow(calls: seq<Call>) {
    forall j :: 0 <= j < |calls| && calls[j].stage != Fallback ==>
      calls[j].request.cookie == CookieHeader(LastSetCookie(calls[..j]))
  }

  predicate NoFallback(calls: seq<Call>) {
    forall j :: 0 <= j < |calls| ==> calls[j].stage != Fallback
  }

  /** What the loop keeps true: the stored cookie is the last one received, and a
      content type other than the default is set only together with a non-HTML body. */
  predicate Tracked(a: Attempt) {
    && a.cookies == LastSetCookie(a.calls)
    && CookiesFollow(a.calls)
    && NoFallback(a.calls)
    && (a.buffer.None? ==> a.contentType == "image/jpeg")
    && (a.buffer.Some? ==> a.contentType != "" && !IsHtml(a.contentType))
  }

  /** Appending one call. */
  lemma AppendCall(calls: seq<Call>, c: Call)
    ensures LastSetCookie(calls + [c]) ==
      if c.stage.Direct? && c.response.Some? && c.response.value.setCookie != "" then c.response.value.setCookie
      else LastSetCookie(calls)
    ensures DirectUrls(calls + [c]) == DirectUrls(calls) + (if c.stage.Direct? then [c.request.url] else [])
    ensures CookiesFollow(calls) && (c.stage != Fallback ==> c.request.cookie == CookieHeader(LastSetCookie(calls)))
      ==> CookiesFollow(calls + [c])
    ensures NoFallback(calls + [c]) <==> NoFallback(calls) && c.stage != Fallback
  {
    var all := calls + [c];
    assert all[..|calls|] == calls;
    assert forall j :: 0 <= j < |calls| ==> all[..j] == calls[..j] && all[j] == calls[j];
  }

  /** Scraping a page sends the stored cookie, adds no direct fetch and no fallback,
      leaves the stored cookie alone, and takes only a non-HTML type. */
  predicate ScrapeTracked(s: Scrape, cookies: string, calls: seq<Call>) {
    && LastSetCookie(s.calls) == cookies && CookiesFollow(s.calls) && NoFallback(s.calls)
    && DirectUrls(s.calls) == DirectUrls(calls)
    && (s.hit.Some? ==> s.hit.value.contentType != "" && !IsHtml(s.hit.value.contentType))
  }

  lemma ScrapeLinkTracked(i: nat, html: string, cookies: string, calls: seq<Call>, net: Network)
    requires cookies == LastSetCookie(calls) && CookiesFollow(calls) && NoFallback(calls)
    ensures ScrapeTracked(ScrapeLink(i, html, cookies, calls, net), cookies, calls)
  {
    match DownloadLink(html)
    case None =>
    case Some(path) =>
      var req := Request(ExtractedUrl(path), CookieHeader(cookies));
      AppendCall(calls, Call(Extracted(i), req, net(|calls|, req)));
  }

  lemma ConfirmTracked(i: nat, html: string, fileId: string, cookies: string, calls: seq<Call>, net: Network, token: string)
    requires ConfirmToken(html) == Some(token)
    requires cookies == LastSetCookie(calls) && CookiesFollow(calls) && NoFallback(calls)
    ensures ScrapeTracked(Interstitial(i, html, fileId, cookies, calls, net), cookies, calls)
  {
    var req := Request(ConfirmUrl(token, fileId), CookieHeader(cookies));
    var sent := Send(calls, Confirm(i), req, net);
    AppendCall(calls, Call(Confirm(i), req, net(|calls|, req)));
    var resp := net(|calls|, req);
    if resp.None? {
      assert Interstitial(i, html, fileId, cookies, calls, net) == Scrape(None, sent);
    } else if TakeNonHtml(resp).Some? {
      assert Interstitial(i, html, fileId, cookies, calls, net) == Scrape(TakeNonHtml(resp), sent);
    } else {
      ScrapeLinkTracked(i, html, cookies, sent, net);
      assert Interstitial(i, html, fileId, cookies, calls, net) == ScrapeLink(i, html, cookies, sent, net);
    }
  }

  lemma InterstitialTracked(i: nat, html: string, fileId: string, cookies: string, calls: seq<Call>, net: Network)
    requires cookies == LastSetCookie(calls) && CookiesFollow(calls) && NoFallback(calls)
    ensures ScrapeTracked(Interstitial(i, html, fileId, cookies, calls, net), cookies, calls)
  {
    match ConfirmToken(html)
    case None =>
      ScrapeLinkTracked(i, html, cookies, calls, net);
    case Some(token) =>
      ConfirmTracked(i, html, fileId, cookies, calls, net, token);
  }

  /** One strategy keeps the invariant and adds exactly its own direct fetch. */
  lemma TryStrategyTracked(i: nat, fileId: string, a: Attempt, net: Network)
    requires i < 4 && a.buffer.None? && Tracked(a)
    ensures var n := TryStrategy(i, fileId, a, net);
      && Tracked(n)
      && DirectUrls(n.calls) == DirectUrls(a.calls) + [StrategyUrls(fileId)[i]]
  {
    var req := Request(StrategyUrls(fileId)[i], CookieHeader(a.cookies));
    var calls := Send(a.calls, Direct(i), req, net);
    AppendCall(a.calls, Call(Direct(i), req, net(|a.calls|, req)));
    match net(|a.calls|, req)
    case None =>
    case Some(r) =>
      var cookies := if r.setCookie != "" then r.setCookie else a.cookies;
      if IsHtml(r.contentType) {
        InterstitialTracked(i, r.text, fileId, cookies, calls, net);
      } else if DirectAccepts(r) {
        assert Contains(r.contentType, "image/") ==> !IsHtml(ImageTypeOrJpeg(r.contentType));
        JpegIsNotHtml();
      }
  }

  lemma PrefixStep(xs: seq<string>, i: nat)
    requires i < |xs|
    ensures xs[..i] + [xs[i]] == xs[..i + 1]
  {
  }

  /** The loop from strategy `i` on keeps the invariant, makes the direct fetches in
      strategy order, and makes all four when no body was found. */
  lemma {:induction false} StrategiesTracked(fileId: string, i: nat, a: Attempt, net: Network)
    requires i <= 4 && a.buffer.None? && Tracked(a)
    requires DirectUrls(a.calls) == StrategyUrls(fileId)[..i]
    ensures var r := Strategies(fileId, i, a, net); var n := |DirectUrls(r.calls)|;
      && Tracked(r)
      && i <= n <= 4 && (i < 4 ==> i < n) && DirectUrls(r.calls) == StrategyUrls(fileId)[..n]
      && (r.buffer.None? ==> n == 4)
    decreases 4 - i
  {
    if i < 4 {
      var next := TryStrategy(i, fileId, a, net);
      TryStrategyTracked(i, fileId, a, net);
      PrefixStep(StrategyUrls(fileId), i);
      if next.buffer.None? {
        StrategiesTracked(fileId, i + 1, next, net);
      }
    }
  }

  /** The strategies are tried in their fixed order (lh3, uc export, uc export with
      confirm=t, usercontent), stopping once one yields a body; all four are tried
      when none does. */
  lemma StrategyOrder(fileId: string, net: Network)
    ensures var r := Strategies(fileId, 0, Start, net); var n := |DirectUrls(r.calls)|;
      && 1 <= n <= 4 && DirectUrls(r.calls) == StrategyUrls(fileId)[..n]
      && (r.buffer.None? ==> n == 4)
  {
    StartTracked();
    StrategiesTracked(fileId, 0, Start, net);
  }

  /** The fallback runs only when the loop found no body, as the last request,
      without a cookie; every other request carries the most recent `set-cookie`
      value of a direct response, or no cookie before the first one. */
  lemma FallbackAndCookies(fileId: string, net: Network)
    ensures var s := Strategies(fileId, 0, Start, net); var f := Fetched(fileId, net);
      && (s.buffer.Some? ==> f == s)
      && (s.buffer.None? ==>
            && f.calls[..|f.calls| - 1] == s.calls && |f.calls| == |s.calls| + 1
            && f.calls[|s.calls|].stage == Fallback
            && f.calls[|s.calls|].request == Request(FallbackUrl(fileId), None))
      && NoFallback(s.calls)
      && CookiesFollow(f.calls)
  {
    StartTracked();
    StrategiesTracked(fileId, 0, Start, net);
    var s := Strategies(fileId, 0, Start, net);
    if s.buffer.None? {
      var req := Request(FallbackUrl(fileId), None);
      AppendCall(s.calls, Call(Fallback, req, net(|s.calls|, req)));
      assert (s.calls + [Call(Fallback, req, net(|s.calls|, req))])[..|s.calls|] == s.calls;
    }
  }

  /** The fallback, too, takes only a non-HTML type. */
  lemma FinalFallbackType(fileId: string, a: Attempt, net: Network)
    requires a.buffer.None? ==> a.contentType == "image/jpeg"
    requires a.buffer.Some? ==> a.contentType != "" && !IsHtml(a.contentType)
    ensures var f := FinalFallback(fileId, a, net);
      && (f.buffer.None? ==> f.contentType == "image/jpeg")
      && (f.buffer.Some? ==> f.contentType != "" && !IsHtml(f.contentType))
  {
    JpegIsNotHtml();
  }

  /** The content type before sniffing: image/jpeg when nothing was found, and never
      empty or HTML when something was. */
  lemma FetchedContentType(fileId: string, net: Network)
    ensures var f := Fetched(fileId, net);
      && (f.buffer.None? ==> f.contentType == "image/jpeg")
      && (f.buffer.Some? ==> f.contentType != "" && !IsHtml(f.contentType))
  {
    StartTracked();
    StrategiesTracked(fileId, 0, Start, net);
    FinalFallbackType(fileId, Strategies(fileId, 0, Start, net), net);
  }

  // ------------------------------------------------------- which response a body came from

  /** A scrape's hit is the body of its last call, a confirm or extracted-link
      fetch of strategy `i` whose response was ok and not HTML, stored under that
      response's own type or image/jpeg when it had none. */
  predicate ScrapeHitFromLast(s: Scrape, i: nat) {
    s.hit.Some? ==>
      && |s.calls| > 0
      && var c := s.calls[|s.calls| - 1];
      && (c.stage == Confirm(i) || c.stage == Extracted(i))
      && c.response.Some? && c.response.value.ok && !IsHtml(c.response.value.contentType)
      && s.hit.value == Hit(c.response.value.body, OrJpeg(c.response.value.contentType))
  }

  /** A body, when there is one, is that of the last call, and its stored type
      follows the stage that produced it: a direct hit (an accepted image or octet
      stream) and the fallback keep an `image/` type and otherwise say image/jpeg;
      a confirm or extracted-link hit keeps its own non-HTML type, or image/jpeg
      when it had none. */
  predicate BodyFromLast(a: Attempt) {
    a.buffer.Some? ==>
      && |a.calls| > 0
      && var c := a.calls[|a.calls| - 1];
      && c.response.Some?
      && var r := c.response.value;
      && r.ok && !IsHtml(r.contentType) && a.buffer.value == r.body
      && match c.stage
         case Direct(_) => DirectAccepts(r) && a.contentType == ImageTypeOrJpeg(r.contentType)
         case Fallback => a.contentType == ImageTypeOrJpeg(r.contentType)
         case Confirm(_) => a.contentType == OrJpeg(r.contentType)
         case Extracted(_) => a.contentType == OrJpeg(r.contentType)
  }

  lemma ScrapeLinkHit(i: nat, html: string, cookies: string, calls: seq<Call>, net: Network)
    ensures ScrapeHitFromLast(ScrapeLink(i, html, cookies, calls, net), i)
  {
  }

  lemma InterstitialHit(i: nat, html: string, fileId: string, cookies: string, calls: seq<Call>, net: Network)
    ensures ScrapeHitFromLast(Interstitial(i, html, fileId, cookies, calls, net), i)
  {
    match ConfirmToken(html)
    case None =>
      ScrapeLinkHit(i, html, cookies, calls, net);
    case Some(token) =>
      var req := Request(ConfirmUrl(token, fileId), CookieHeader(cookies));
      var sent := Send(calls, Confirm(i), req, net);
      ScrapeLinkHit(i, html, cookies, sent, net);
  }

  lemma TryStrategyHit(i: nat, fileId: string, a: Attempt, net: Network)
    requires i < 4 && a.buffer.None?
    ensures BodyFromLast(TryStrategy(i, fileId, a, net))
  {
    var req := Request(StrategyUrls(fileId)[i], CookieHeader(a.cookies));
    var calls := Send(a.calls, Direct(i), req, net);
    match net(|a.calls|, req)
    case None =>
    case Some(r) =>
      var cookies := if r.setCookie != "" then r.setCookie else a.cookies;
      if IsHtml(r.contentType) {
        var s := Interstitial(i, r.text, fileId, cookies, calls, net);
        InterstitialHit(i, r.text, fileId, cookies, calls, net);
        if s.hit.Some? {
          ScrapeHitBody(s, i, cookies);
        }
      } else if DirectAccepts(r) {
        assert TryStrategy(i, fileId, a, net) == Attempt(Some(r.body), ImageTypeOrJpeg(r.contentType), cookies, calls);
      }
  }

  /** A scraped hit, stored, is a body from the last call. */
  lemma ScrapeHitBody(s: Scrape, i: nat, cookies: string)
    requires ScrapeHitFromLast(s, i) && s.hit.Some?
    ensures BodyFromLast(Attempt(Some(s.hit.value.body), s.hit.value.contentType, cookies, s.calls))
  {
  }

  lemma {:induction false} StrategiesHit(fileId: string, i: nat, a: Attempt, net: Network)
    requires i <= 4 && a.buffer.None?
    ensures BodyFromLast(Strategies(fileId, i, a, net))
    decreases 4 - i
  {
    if i < 4 {
      var next := TryStrategy(i, fileId, a, net);
      TryStrategyHit(i, fileId, a, net);
      if next.buffer.None? {
        StrategiesHit(fileId, i + 1, next, net);
      }
    }
  }

  /** The stored type of whatever the route fetched follows the rule of the stage
      whose response gave the body. */
  lemma FetchedTypeByStage(fileId: string, net: Network)
    ensures BodyFromLast(Fetched(fileId, net))
  {
    StrategiesHit(fileId, 0, Start, net);
  }

  /** The second confirm pattern never finds a token the first missed: a word
      character is neither `&` nor `"`. */
  lemma ConfirmWordRedundant(html: string)
    ensures ConfirmToken(html) == Capture(html, ConfirmParam)
  {
    CaptureNone(html, ConfirmParam);
    CaptureNone(html, ConfirmWord);
    forall k: nat | MatchesAt(html, k, ConfirmWord) ensures MatchesAt(html, k, ConfirmParam) {
      var from := k + |"confirm="|;
      assert InClass(html[from], Word);
      assert InClass(html[from], ConfirmParam.cls);
    }
  }

  // ------------------------------------------------------- the POST handler

  /** The `url` field of the JSON body: absent, a string, or some other JSON value
      (which is truthy unless it is `null`, `false` or `0`). */
  datatype UrlField = Absent | JsonString(text: string) | JsonOther(truthy: bool)

  /** The request body: JSON that does not parse, or an object with a `url` field. */
  datatype RequestBody = Unparsable | Body(url: UrlField)

  /** The JSON reply: `{imageData}` with status 200, or `{error}` with a status. */
  datatype Reply = ImageData(uri: string) | Failure(status: nat, error: string)

  const UrlRequired := "URL is required"
  const InvalidDriveUrl := "Invalid Google Drive URL"
  const NotShared := "Could not download file. The file may require Google account access or is not publicly shared."
  const DownloadFailed := "Download failed"

  /** Bodies shorter than this are refused. */
  const MinImageBytes := 1000

  /** `!url` in JavaScript. */
  predicate Falsy(field: UrlField) {
    match field
    case Absent => true
    case JsonString(t) => t == ""
    case JsonOther(truthy) => !truthy
  }

  /** The content type the first two bytes imply, if any: JPEG, PNG, GIF, WebP (RIFF). */
  function MagicType(b0: Byte, b1: Byte): Option<string> {
    if b0 == 0xFF && b1 == 0xD8 then Some("image/jpeg")
    else if b0 == 0x89 && b1 == 0x50 then Some("image/png")
    else if b0 == 0x47 && b1 == 0x49 then Some("image/gif")
    else if b0 == 0x52 && b1 == 0x49 then Some("image/webp")
    else None
  }

  function DataUri(contentType: string, base64: string): string {
    "data:" + contentType + ";base64," + base64
  }

  /** What the route answers. */
  function Respond(body: RequestBody, net: Network): Reply {
    match body
    case Unparsable => Failure(500, DownloadFailed)
    case Body(field) =>
      if Falsy(field) then Failure(400, UrlRequired)
      else if !field.JsonString? then Failure(500, DownloadFailed)
      else
        match RouteFileId(field.text)
        case None => Failure(400, InvalidDriveUrl)
        case Some(fileId) =>
          var f := Fetched(fileId, net);
          if f.buffer.None? || |f.buffer.value| < MinImageBytes then Failure(500, NotShared)
          else
            var bytes := f.buffer.value;
            ImageData(DataUri(MagicType(bytes[0], bytes[1]).GetOr(f.contentType), Encode(bytes)))
  }

  /** `POST`: parse the body, find the file id, fetch, check the size, encode, and
      let the magic bytes name the type. */
  method Post(body: RequestBody, net: Network) returns (reply: Reply)
    ensures reply == Respond(body, net)
  {
    if body.Unparsable? {
      return Failure(500, DownloadFailed);
    }
    var field := body.url;
    if Falsy(field) {
      return Failure(400, UrlRequired);
    }
    if !field.JsonString? {
      return Failure(500, DownloadFailed);
    }
    var fileId := RouteFileId(field.text);
    if fileId.None? {
      return Failure(400, InvalidDriveUrl);
    }
    var fetched := FetchImage(fileId.value, net);
    if fetched.buffer.None? || |fetched.buffer.value| < MinImageBytes {
      return Failure(500, NotShared);
    }
    var bytes := fetched.buffer.value;
    var base64 := ToBase64(bytes);
    var contentType := fetched.contentType;
    match MagicType(bytes[0], bytes[1]) {
      case Some(t) => contentType := t;
      case None =>
    }
    reply := ImageData(DataUri(contentType, base64));
  }

  // ------------------------------------------------------- what the route answers

  /** A missing or empty `url` is a 400; a URL with neither an `id=` parameter nor a
      `/d/` segment (a plain CDN link, say) is a 400 too. */
  lemma RejectsBadUrls(text: string, net: Network)
    ensures Respond(Body(Absent), net) == Failure(400, UrlRequired)
    ensures Respond(Body(JsonString("")), net) == Failure(400, UrlRequired)
    ensures text != [] && (forall k :: !MatchesAt(text, k, IdParam) && !MatchesAt(text, k, PathSegment)) ==>
      Respond(Body(JsonString(text)), net) == Failure(400, InvalidDriveUrl)
  {
    CaptureNone(text, IdParam);
    CaptureNone(text, PathSegment);
  }

  /** The route answers with an image exactly when the URL names a file and a body
      of at least 1000 bytes came back; the URI's payload decodes to that body and
      its type is the magic-byte type, else the fetched type, never HTML. */
  lemma RespondImage(text: string, net: Network)
    requires text != []
    ensures var r := Respond(Body(JsonString(text)), net);
      match RouteFileId(text)
      case None => r == Failure(400, InvalidDriveUrl)
      case Some(fileId) =>
        var f := Fetched(fileId, net);
        if f.buffer.None? || |f.buffer.value| < MinImageBytes then r == Failure(500, NotShared)
        else
          var bytes := f.buffer.value;
          exists ct, b64 ::
            && r == ImageData(DataUri(ct, b64))
            && Decode(b64) == Some(bytes)
            && ct != "" && !IsHtml(ct)
            && (MagicType(bytes[0], bytes[1]).Some? ==> ct == MagicType(bytes[0], bytes[1]).value)
            && (MagicType(bytes[0], bytes[1]).None? ==> ct == f.contentType)
  {
    match RouteFileId(text)
    case None =>
    case Some(fileId) =>
      var f := Fetched(fileId, net);
      FetchedContentType(fileId, net);
      if f.buffer.Some? && |f.buffer.value| >= MinImageBytes {
        var bytes := f.buffer.value;
        DecodeEncode(bytes);
        MagicTypesAreNotHtml(bytes[0], bytes[1]);
        var ct := MagicType(bytes[0], bytes[1]).GetOr(f.contentType);
        assert Respond(Body(JsonString(text)), net) == ImageData(DataUri(ct, Encode(bytes)));
      }
  }

  /** Every image the route answers is a data URI. */
  lemma RespondDataUri(body: RequestBody, net: Network)
    ensures Respond(body, net).ImageData? ==> |Respond(body, net).uri| >= 5 && Respond(body, net).uri[..5] == "data:"
  {
    if Respond(body, net).ImageData? {
      var f := Fetched(RouteFileId(body.url.text).value, net);
      var bytes := f.buffer.value;
      var uri := DataUri(MagicType(bytes[0], bytes[1]).GetOr(f.contentType), Encode(bytes));
      assert Respond(body, net).uri == uri;
      assert uri[..5] == "data:";
    }
  }

  lemma MagicTypesAreNotHtml(b0: Byte, b1: Byte)
    ensures MagicType(b0, b1).Some? ==> MagicType(b0, b1).value != "" && !IsHtml(MagicType(b0, b1).value)
  {
    JpegIsNotHtml();
    ImageTypeIsNotHtml("image/png");
    ImageTypeIsNotHtml("image/gif");
    ImageTypeIsNotHtml("image/webp");
  }

  /** A short `image/...` type is not an HTML type. */
  lemma ImageTypeIsNotHtml(t: string)
    requires |t| <= 10 && StartsWith(t, "image/")
    ensures !IsHtml(t)
  {
    var p := "text/html";
    forall k: nat ensures !OccursAt(t, p, k) {
      if k + 9 <= |t| {
        assert k <= 1;
        assert t[k] == t[..6][k] != p[0];
        assert t[k..k + 9][0] == t[k];
      }
    }
    assert IndexOfFrom(t, p, 0) == None;
  }

  /** The id is taken from an `id=` parameter before a `/d/` segment, the opposite
      order to lib/sku-parser.ts: for a Drive view link that also has `?id=`, the
      route and the parser pick different ids. */
  lemma IdOrderDiffers(a: string, b: string)
    requires a != [] && '/' !in a && '=' !in a
    requires b != [] && '&' !in b
    ensures var url := "https://drive.google.com/file/d/" + a + "/view?id=" + b;
      && RouteFileId(url) == Some(b)
      && SkuParser.ExtractGoogleDriveId(url) == Some(a)
  {
    var url := "https://drive.google.com/file/d/" + a + "/view?id=" + b;
    var host := "https://drive.google.com/";
    var lead := "https://drive.google.com/file/d/" + a + "/view?";
    assert url == lead + "id=" + b + "";
    assert url == host + "file/d/" + a + ("/view?id=" + b);
    assert url == "https://drive.google.com/file/d/" + (a + "/view?id=" + b);
    assert '=' !in lead by {
      assert lead == "https://drive.google.com/file/d/" + a + "/view?";
      assert '=' !in "https://drive.google.com/file/d/";
      assert '=' !in "/view?";
    }
    NoEqualsBefore(lead, b);
    CaptureOfShape(lead, b, "", IdParam);
    SkuParser.DriveHostFirst(a + "/view?id=" + b);
    CaptureOfShape(host, a, "/view?id=" + b, SkuParser.FileDPattern);
  }

  /** Before a lead without `=`, `id=` cannot start. */
  lemma NoEqualsBefore(lead: string, b: string)
    requires '=' !in lead
    ensures forall k: nat :: k < |lead| ==> !MatchesAt(lead + "id=" + b + "", k, IdParam)
  {
    var url := lead + "id=" + b + "";
    forall k: nat | k < |lead| ensures !OccursAt(url, "id=", k) {
      if k + 3 <= |url| {
        assert url[k..k + 3][2] == url[k + 2];
        if k + 2 < |lead| {
          assert url[k + 2] == lead[k + 2];
        } else {
          assert url[k + 2] == "id="[k + 2 - |lead|];
        }
      }
    }
  }
}
