/** The bounded documentation crawl: a breadth-first search over a link graph that may be infinite
    (internal/platform/crawler/crawler.go) under the resource budget of internal/knowledge/knowledge.go.
    URL resolution, robots answers, HTTP responses and cancellation are arbitrary functions. */
module Crawler {
  import opened Text

  datatype Error = Invalid | LimitExceeded | Unsafe | RobotsUnreadable | RobotsDenied | FetchFailed | Cancelled

  datatype Limits = Limits(maxDomains: int, maxDepth: int, maxPages: int, maxPageBytes: int, maxTotalBytes: int,
                           requestsPerMinute: int, mediaTypes: seq<string>)
  {
    predicate Valid() {
      && 1 <= maxDomains <= 16 && 0 <= maxDepth <= 8 && 1 <= maxPages <= 10_000 && 1 <= maxPageBytes
      && maxPageBytes <= maxTotalBytes && 1 <= requestsPerMinute <= 6_000 && mediaTypes != []
    }
  }

  function Domain(host: string): (d: string) { Lower(TrimSpace(host)) }

  // ----- the budget -----

  class Budget {
    const limits: Limits
    var domains: set<string>
    var pages: int
    var bytes: int

    constructor (limits: Limits)
      ensures this.limits == limits && domains == {} && pages == 0 && bytes == 0
    {
      this.limits := limits;
      domains, pages, bytes := {}, 0, 0;
    }

    predicate Malformed(host: string, depth: int, size: int, mediaType: string) {
      !limits.Valid() || Blank(host) || depth < 0 || size < 0 || Blank(mediaType)
    }

    predicate Within(depth: int, size: int, mediaType: string)
      reads this
    {
      && |domains| <= limits.maxDomains && depth <= limits.maxDepth && pages <= limits.maxPages
      && size <= limits.maxPageBytes && bytes <= limits.maxTotalBytes && mediaType in limits.mediaTypes
    }

    /** A page consumes the budget before it is judged, so a refused page stays accounted for. */
    method Accept(host: string, depth: int, size: int, mediaType: string) returns (r: Option<Error>)
      modifies this
      ensures r == Some(Invalid) <==>
                || !(1 <= limits.maxDomains <= 16 && 0 <= limits.maxDepth <= 8 && 1 <= limits.maxPages <= 10_000)
                || !(1 <= limits.maxPageBytes <= limits.maxTotalBytes && 1 <= limits.requestsPerMinute <= 6_000)
                || limits.mediaTypes == [] || Blank(host) || depth < 0 || size < 0 || Blank(mediaType)
      ensures r == Some(Invalid) ==> domains == old(domains) && pages == old(pages) && bytes == old(bytes)
      ensures r != Some(Invalid) ==>
                domains == old(domains) + {Lower(TrimSpace(host))} && pages == old(pages) + 1 && bytes == old(bytes) + size
      ensures r == None <==> && r != Some(Invalid)
                             && |domains| <= limits.maxDomains && depth <= limits.maxDepth && pages <= limits.maxPages
                             && size <= limits.maxPageBytes && bytes <= limits.maxTotalBytes && mediaType in limits.mediaTypes
      ensures r != None ==> r == Some(Invalid) || r == Some(LimitExceeded)
    {
      if Malformed(host, depth, size, mediaType) { return Some(Invalid); }
      domains := domains + {Domain(host)};
      pages := pages + 1;
      bytes := bytes + size;
      if !Within(depth, size, mediaType) { return Some(LimitExceeded); }
      return None;
    }
  }

  // ----- the world the crawl runs against -----

  /** A parsed URL; U is the type of URL texts, of which the crawl uses nothing but equality. */
  datatype Url<U> = Url(text: U, host: string)

  datatype Response<U> = Unreachable | Response(status: int, contentType: string, body: seq<bv8>, readable: bool, anchors: seq<U>)

  datatype Robots = Unreadable | Answer(allowed: bool)

  datatype Page<U> = Page(url: Url<U>, depth: int, mediaType: string, body: seq<bv8>, links: seq<U>)

  /** The part of a header before the first semicolon. */
  function BeforeSemicolon(s: string): (r: string) {
    if s == "" || s[0] == ';' then "" else [s[0]] + BeforeSemicolon(s[1..])
  }

  lemma {:induction false} BeforeSemicolonIs(s: string, rest: string)
    requires ';' !in s && (rest == "" || rest[0] == ';')
    ensures BeforeSemicolon(s + rest) == s
  {
    if s == "" {
      assert s + rest == rest;
    } else {
      assert (s + rest)[1..] == s[1..] + rest;
      BeforeSemicolonIs(s[1..], rest);
    }
  }

  datatype Site<!U(!new, ==)> = Site(resolve: U -> Option<U>, host: U -> string, allowedHosts: set<string>,
                                     robots: U -> Robots, fetch: U -> Response<U>)
  {
    /** The URL of a text; its host is part of the text. */
    function At(text: U): (u: Url<U>) { Url(text, host(text)) }

    /** `PublicURLPolicy.Validate`: an arbitrary resolution followed by the host scope. */
    function Validate(raw: U): (u: Option<Url<U>>)
      ensures u.Some? <==> resolve(raw).Some? && (allowedHosts == {} || host(resolve(raw).value) in allowedHosts)
      ensures u.Some? ==> u.value.text == resolve(raw).value && u.value == At(u.value.text)
      ensures u.Some? && allowedHosts != {} ==> u.value.host in allowedHosts
    {
      match resolve(raw)
      case None => None
      case Some(text) => if allowedHosts != {} && host(text) !in allowedHosts then None else Some(At(text))
    }

    function MediaType(text: U): (m: string) {
      match fetch(text)
      case Unreachable => ""
      case Response(_, contentType, _, _, _) => Lower(TrimSpace(BeforeSemicolon(contentType)))
    }

    /** Only HTML documents contribute links. */
    function Links(text: U): (links: seq<U>) {
      match fetch(text)
      case Unreachable => []
      case Response(_, _, _, _, anchors) => if MediaType(text) == "text/html" then anchors else []
    }

    function Body(text: U): (body: seq<bv8>) {
      match fetch(text)
      case Unreachable => []
      case Response(_, _, body, _, _) => body
    }

    /** No readable answer with a success status. */
    predicate Fails(text: U) {
      match fetch(text)
      case Unreachable => true
      case Response(status, _, _, readable, _) => status < 200 || status >= 300 || !readable
    }

    /** The page holds what the server answered with success for its URL. */
    predicate Served(p: Page<U>) {
      && !Fails(p.url.text) && p.body == Body(p.url.text)
      && p.mediaType == MediaType(p.url.text) && p.links == Links(p.url.text)
    }

    /** Served, and allowed by the robots policy. */
    predicate Admitted(p: Page<U>) { robots(p.url.text) == Answer(true) && Served(p) }

    /** `readPage`. */
    function ReadPage(url: Url<U>, depth: int, maxBytes: int): (r: Result<Page<U>, Error>)
      ensures r.Ok? ==> r.value.url == url && r.value.depth == depth && |r.value.body| <= maxBytes
      ensures r.Ok? ==> Served(r.value)
      ensures r.Ok? <==>
              var answer := fetch(url.text);
              answer.Response? && 200 <= answer.status < 300 && answer.readable && |answer.body| <= maxBytes
      ensures r.Ok? ==> r.value.body == fetch(url.text).body
      ensures r.Ok? ==> r.value.links == if r.value.mediaType == "text/html" then fetch(url.text).anchors else []
      ensures r.Err? ==> (r.error == FetchFailed && Fails(url.text)) || (r.error == LimitExceeded && |Body(url.text)| > maxBytes)
    {
      match fetch(url.text)
      case Unreachable => Err(FetchFailed)
      case Response(status, _, body, readable, _) =>
        if status < 200 || status >= 300 || !readable then Err(FetchFailed)
        else if |body| > maxBytes then Err(LimitExceeded)
        else Ok(Page(url, depth, MediaType(url.text), body, Links(url.text)))
    }

    /** The media type is what stands before the first semicolon, without the white space around it, in lower case. */
    lemma MediaTypeIs(text: U, a: string, kind: string, b: string, rest: string)
      requires fetch(text).Response? && fetch(text).contentType == a + kind + b + rest && (rest == "" || rest[0] == ';')
      requires ';' !in a + kind + b && AllSpace(a) && AllSpace(b)
      requires kind == "" || (!IsSpace(kind[0]) && !IsSpace(kind[|kind| - 1]))
      ensures MediaType(text) == Lower(kind)
    {
      BeforeSemicolonIs(a + kind + b, rest);
      TrimSpaceBetween(a, kind, b);
    }

    // ----- link distance -----

    predicate Follows(from: U, to: U) {
      Validate(from).Some? && to in Links(Validate(from).value.text)
    }

    predicate LinkAt(c: seq<U>, i: int)
      requires 0 <= i < |c| - 1
    {
      Follows(c[i], c[i + 1])
    }

    /** A chain of links that begins at a start URL. */
    ghost predicate Chain(start: seq<U>, c: seq<U>) {
      c != [] && c[0] in start && forall i :: 0 <= i < |c| - 1 ==> LinkAt(c, i)
    }

    ghost predicate Reaches(start: seq<U>, raw: U, n: nat) {
      exists c :: Chain(start, c) && |c| == n + 1 && c[n] == raw
    }

    /** The raw link, met after n links, resolves to the text. */
    ghost predicate LeadsTo(start: seq<U>, raw: U, n: nat, text: U) {
      Reaches(start, raw, n) && Validate(raw).Some? && Validate(raw).value.text == text
    }

    /** n is the length of a shortest chain of links from a start URL to the text. */
    ghost predicate Distance(start: seq<U>, text: U, n: int) {
      && n >= 0
      && (exists raw :: LeadsTo(start, raw, n, text))
      && (forall raw, m: nat :: LeadsTo(start, raw, m, text) ==> n <= m)
    }
  }

  // ----- what every returned page list satisfies, error or not -----

  function TotalBytes<U(!new, ==)>(pages: seq<Page<U>>): (n: nat) {
    if pages == [] then 0 else TotalBytes(pages[..|pages| - 1]) + |pages[|pages| - 1].body|
  }

  function Domains<U(!new, ==)>(pages: seq<Page<U>>): (d: set<string>) { set p | p in pages :: Domain(p.url.host) }

  ghost predicate DistinctUrls<U(!new)>(pages: seq<Page<U>>) {
    forall i, j :: 0 <= i < j < |pages| ==> pages[i].url.text != pages[j].url.text
  }

  ghost predicate WithinLimits<U(!new)>(limits: Limits, pages: seq<Page<U>>) {
    && |pages| <= limits.maxPages && TotalBytes(pages) <= limits.maxTotalBytes && |Domains(pages)| <= limits.maxDomains
    && forall p :: p in pages ==>
         0 <= p.depth <= limits.maxDepth && |p.body| <= limits.maxPageBytes && p.mediaType in limits.mediaTypes
  }

  /** The budget refuses a page without host or media type as malformed. */
  predicate Proper<U>(p: Page<U>) { !Blank(p.url.host) && !Blank(p.mediaType) }

  /** The page of an allowed host, as the site serves it. */
  predicate Sound<U(!new)>(site: Site<U>, p: Page<U>) {
    && p.url == site.At(p.url.text) && (site.allowedHosts != {} ==> p.url.host in site.allowedHosts)
    && site.Admitted(p) && p.links == site.Links(p.url.text) && Proper(p)
  }

  ghost predicate InScope<U(!new)>(site: Site<U>, pages: seq<Page<U>>) { forall p :: p in pages ==> Sound(site, p) }

  ghost predicate ShortestDepths<U(!new)>(site: Site<U>, start: seq<U>, pages: seq<Page<U>>) {
    forall p :: p in pages ==> site.Distance(start, p.url.text, p.depth)
  }

  ghost predicate Fetched<U(!new)>(pages: seq<Page<U>>, text: U) {
    exists p :: p in pages && p.url.text == text
  }

  /** Nothing nearer than depth d is missing. */
  ghost predicate CompleteBelow<U(!new)>(site: Site<U>, start: seq<U>, pages: seq<Page<U>>, d: int) {
    forall raw, n: nat :: n < d && site.Reaches(start, raw, n) ==>
      site.Validate(raw).Some? && Fetched(pages, site.Validate(raw).value.text)
  }

  /** Nothing within the depth limit is missing. */
  ghost predicate Complete<U(!new)>(site: Site<U>, limits: Limits, start: seq<U>, pages: seq<Page<U>>) {
    CompleteBelow(site, start, pages, limits.maxDepth + 1)
  }

  ghost predicate NearestFirst<U(!new)>(pages: seq<Page<U>>) {
    forall i, j :: 0 <= i < j < |pages| ==> pages[i].depth <= pages[j].depth
  }

  /** A prefix of a breadth-first order: nearest pages first, and none begun before everything nearer was done. */
  ghost predicate BreadthFirst<U(!new)>(site: Site<U>, start: seq<U>, pages: seq<Page<U>>) {
    NearestFirst(pages) && forall p :: p in pages ==> CompleteBelow(site, start, pages, p.depth)
  }

  // ----- why a crawl stops -----

  /** What a URL does to a budget that has counted these domains, pages and bytes. */
  ghost predicate Refuses<U(!new)>(site: Site<U>, limits: Limits, domains: set<string>, count: int, bytes: int, url: Url<U>, e: Error) {
    match e
    case RobotsUnreadable => site.robots(url.text).Unreadable?
    case RobotsDenied => site.robots(url.text) == Answer(false)
    case FetchFailed => site.Fails(url.text)
    case Invalid => Blank(url.host) || Blank(site.MediaType(url.text))
    case LimitExceeded =>
      || |site.Body(url.text)| > limits.maxPageBytes || site.MediaType(url.text) !in limits.mediaTypes
      || count + 1 > limits.maxPages || bytes + |site.Body(url.text)| > limits.maxTotalBytes
      || |domains + {Domain(url.host)}| > limits.maxDomains
    case _ => false
  }

  ghost predicate StopsAt<U(!new)>(site: Site<U>, limits: Limits, pages: seq<Page<U>>, raw: U, e: Error) {
    match site.Validate(raw)
    case None => e == Unsafe
    case Some(url) => !Fetched(pages, url.text) && Refuses(site, limits, Domains(pages), |pages|, TotalBytes(pages), url, e)
  }

  /** The error is the fault of a URL within the depth limit that had not been fetched, while everything nearer had. */
  ghost predicate Stops<U(!new)>(site: Site<U>, limits: Limits, start: seq<U>, pages: seq<Page<U>>, e: Error) {
    exists raw, n: nat ::
      n <= limits.maxDepth && site.Reaches(start, raw, n) && StopsAt(site, limits, pages, raw, e) && CompleteBelow(site, start, pages, n)
  }

  // ----- the queue -----

  datatype Queued<U> = Queued(raw: U, depth: int)

  ghost predicate Covered<U(!new)>(site: Site<U>, pages: seq<Page<U>>, queue: seq<Queued<U>>, raw: U, depth: int) {
    || (site.Validate(raw).Some? && Fetched(pages, site.Validate(raw).value.text))
    || Queued(raw, depth) in queue
  }

  /** Every start URL and every link of an expanded page has been fetched or still waits. */
  ghost predicate Covering<U(!new)>(site: Site<U>, limits: Limits, start: seq<U>, pages: seq<Page<U>>, queue: seq<Queued<U>>) {
    && (forall raw {:trigger Covered(site, pages, queue, raw, 0)} :: raw in start ==> Covered(site, pages, queue, raw, 0))
    && (forall p, raw :: p in pages && p.depth < limits.maxDepth && raw in p.links ==>
          Covered(site, pages, queue, raw, p.depth + 1))
  }

  /** The queue is ordered by depth and spans at most two levels. */
  ghost predicate Layered<U(!new)>(site: Site<U>, limits: Limits, start: seq<U>, queue: seq<Queued<U>>) {
    && (forall i, j :: 0 <= i < j < |queue| ==> queue[i].depth <= queue[j].depth <= queue[i].depth + 1)
    && (forall q :: q in queue ==> 0 <= q.depth <= limits.maxDepth && site.Reaches(start, q.raw, q.depth))
  }

  lemma FetchedPage<U(!new)>(site: Site<U>, start: seq<U>, pages: seq<Page<U>>, raw: U, m: nat) returns (p: Page<U>)
    requires ShortestDepths(site, start, pages) && InScope(site, pages)
    requires site.Reaches(start, raw, m) && site.Validate(raw).Some? && Fetched(pages, site.Validate(raw).value.text)
    ensures p in pages && p.depth <= m && p.links == site.Links(site.Validate(raw).value.text)
  {
    p :| p in pages && p.url.text == site.Validate(raw).value.text;
    assert site.LeadsTo(start, raw, m, p.url.text);
  }

  /** While everything waiting is at depth d or deeper, everything nearer than d has been fetched. */
  lemma {:induction false} NearerFetched<U(!new)>(site: Site<U>, limits: Limits, start: seq<U>, pages: seq<Page<U>>,
                                         queue: seq<Queued<U>>, d: int, chain: seq<U>)
    requires Covering(site, limits, start, pages, queue)
    requires ShortestDepths(site, start, pages) && InScope(site, pages)
    requires forall q :: q in queue ==> d <= q.depth
    requires site.Chain(start, chain) && |chain| <= d <= limits.maxDepth + 1
    ensures var u := site.Validate(chain[|chain| - 1]); u.Some? && Fetched(pages, u.value.text)
    decreases |chain|
  {
    if |chain| == 1 {
      assert Covered(site, pages, queue, chain[0], 0);
      assert Queued(chain[0], 0) !in queue;
    } else {
      hide *;
      ShorterChain(site, start, chain);
      NearerFetched(site, limits, start, pages, queue, d, chain[..|chain| - 1]);
      NextFetched(site, limits, start, pages, queue, d, chain);
    }
  }

  lemma ShorterChain<U(!new)>(site: Site<U>, start: seq<U>, chain: seq<U>)
    requires site.Chain(start, chain) && |chain| > 1
    ensures site.Chain(start, chain[..|chain| - 1])
  {
    var shorter := chain[..|chain| - 1];
    forall i | 0 <= i < |shorter| - 1 ensures site.LinkAt(shorter, i) { assert site.LinkAt(chain, i); }
  }

  /** One more link: its source page was expanded at a depth no greater than the chain is long. */
  lemma NextFetched<U(!new)>(site: Site<U>, limits: Limits, start: seq<U>, pages: seq<Page<U>>,
                             queue: seq<Queued<U>>, d: int, chain: seq<U>)
    requires Covering(site, limits, start, pages, queue)
    requires ShortestDepths(site, start, pages) && InScope(site, pages)
    requires forall q :: q in queue ==> d <= q.depth
    requires 1 < |chain| <= d <= limits.maxDepth + 1
    requires site.Chain(start, chain) && site.Chain(start, chain[..|chain| - 1])
    requires var u := site.Validate(chain[..|chain| - 1][|chain| - 2]); u.Some? && Fetched(pages, u.value.text)
    ensures var u := site.Validate(chain[|chain| - 1]); u.Some? && Fetched(pages, u.value.text)
  {
    var n := |chain| - 1;
    var raw, prev := chain[n], chain[n - 1];
    assert chain[..n][n - 1] == prev;
    assert site.LinkAt(chain, n - 1);
    assert site.Reaches(start, prev, n - 1);
    var p := FetchedPage(site, start, pages, prev, n - 1);
    assert Covered(site, pages, queue, raw, p.depth + 1);
    assert Queued(raw, p.depth + 1) !in queue;
  }

  lemma HeadDistance<U(!new)>(site: Site<U>, limits: Limits, start: seq<U>, pages: seq<Page<U>>, queue: seq<Queued<U>>)
    requires queue != [] && Layered(site, limits, start, queue) && Covering(site, limits, start, pages, queue)
    requires ShortestDepths(site, start, pages) && InScope(site, pages)
    requires site.Validate(queue[0].raw).Some? && !Fetched(pages, site.Validate(queue[0].raw).value.text)
    ensures site.Distance(start, site.Validate(queue[0].raw).value.text, queue[0].depth)
  {
    hide Site.Validate, Site.Reaches, Covering, ShortestDepths, InScope, Fetched;
    HeadComplete(site, limits, start, pages, queue);
    var next := queue[0];
    assert next in queue && site.LeadsTo(start, next.raw, next.depth, site.Validate(next.raw).value.text);
  }

  /** Dropping a head whose target is already fetched keeps the coverage. */
  lemma DropHead<U(!new)>(site: Site<U>, limits: Limits, start: seq<U>, pages: seq<Page<U>>, queue: seq<Queued<U>>)
    requires queue != [] && Layered(site, limits, start, queue) && Covering(site, limits, start, pages, queue)
    requires site.Validate(queue[0].raw).Some? && Fetched(pages, site.Validate(queue[0].raw).value.text)
    ensures Layered(site, limits, start, queue[1..]) && Covering(site, limits, start, pages, queue[1..])
    ensures Behind(pages, queue) ==> Behind(pages, queue[1..])
  {
    assert queue == [queue[0]] + queue[1..];
    forall raw, depth | Covered(site, pages, queue, raw, depth) ensures Covered(site, pages, queue[1..], raw, depth) {
      if Queued(raw, depth) in queue && Queued(raw, depth) !in queue[1..] { assert queue[0].raw == raw; }
    }
  }

  function Expand<U>(queue: seq<Queued<U>>, links: seq<U>, depth: int): (r: seq<Queued<U>>) {
    queue + seq(|links|, i requires 0 <= i < |links| => Queued(links[i], depth))
  }

  /** The queue after its head has been fetched. */
  function Advanced<U>(limits: Limits, queue: seq<Queued<U>>, page: Page<U>): (r: seq<Queued<U>>)
    requires queue != []
  {
    if page.depth >= limits.maxDepth then queue[1..] else Expand(queue[1..], page.links, page.depth + 1)
  }

  lemma ExtendChain<U(!new)>(site: Site<U>, start: seq<U>, c: seq<U>, raw: U)
    requires site.Chain(start, c) && site.Follows(c[|c| - 1], raw)
    ensures site.Reaches(start, raw, |c|)
  {
    var longer := c + [raw];
    forall i | 0 <= i < |longer| - 1 ensures site.LinkAt(longer, i) {
      if i < |c| - 1 { assert site.LinkAt(c, i); }
    }
    assert site.Chain(start, longer);
  }

  /** Queueing the links of the page at the head keeps the queue layered. */
  lemma ExpandLayered<U(!new)>(site: Site<U>, limits: Limits, start: seq<U>, queue: seq<Queued<U>>, page: Page<U>)
    requires queue != [] && Layered(site, limits, start, queue)
    requires site.Validate(queue[0].raw) == Some(page.url) && page.depth == queue[0].depth
    requires page.links == site.Links(page.url.text)
    ensures Layered(site, limits, start, Advanced(limits, queue, page))
  {
    hide Site.Links, Site.Validate, Site.Reaches, Advanced;
    ExpandOrdered(limits, queue, page);
    forall q | q in Advanced(limits, queue, page)
      ensures 0 <= q.depth <= limits.maxDepth && site.Reaches(start, q.raw, q.depth)
    {
      assert queue[0] in queue;
      if q !in queue {
        FromPage(limits, queue, page, q);
        LinkReached(site, start, queue[0], page, q.raw);
      }
    }
  }

  lemma FromPage<U>(limits: Limits, queue: seq<Queued<U>>, page: Page<U>, q: Queued<U>)
    requires queue != [] && q in Advanced(limits, queue, page) && q !in queue
    ensures page.depth < limits.maxDepth && q.depth == page.depth + 1 && q.raw in page.links
  {
    var rest, tail := Advanced(limits, queue, page), queue[1..];
    var i :| 0 <= i < |rest| && rest[i] == q;
    assert |tail| <= i;
    assert q.raw == page.links[i - |tail|];
  }

  lemma ExpandOrdered<U>(limits: Limits, queue: seq<Queued<U>>, page: Page<U>)
    requires queue != [] && page.depth == queue[0].depth
    requires forall i, j :: 0 <= i < j < |queue| ==> queue[i].depth <= queue[j].depth <= queue[i].depth + 1
    ensures var rest := Advanced(limits, queue, page);
            forall i, j :: 0 <= i < j < |rest| ==> rest[i].depth <= rest[j].depth <= rest[i].depth + 1
  {
    var rest, tail := Advanced(limits, queue, page), queue[1..];
    forall i | 0 <= i < |rest| ensures page.depth <= rest[i].depth <= page.depth + 1 {
      if i < |tail| { assert rest[i] == queue[i + 1]; }
    }
    forall i, j | 0 <= i < j < |rest| ensures rest[i].depth <= rest[j].depth {
      if j < |tail| { assert rest[i] == queue[i + 1] && rest[j] == queue[j + 1]; }
    }
  }

  lemma LinkReached<U(!new)>(site: Site<U>, start: seq<U>, head: Queued<U>, page: Page<U>, raw: U)
    requires head.depth >= 0 && site.Reaches(start, head.raw, head.depth)
    requires site.Validate(head.raw) == Some(page.url) && page.links == site.Links(page.url.text) && raw in page.links
    ensures site.Reaches(start, raw, head.depth + 1)
  {
    hide Site.Links, Site.Validate, Site.Chain;
    var c :| site.Chain(start, c) && |c| == head.depth + 1 && c[head.depth] == head.raw;
    ExtendChain(site, start, c, raw);
  }

  /** Recording the head's page and queueing its links keeps the coverage. */
  lemma TakeHead<U(!new)>(site: Site<U>, limits: Limits, start: seq<U>, pages: seq<Page<U>>, queue: seq<Queued<U>>, page: Page<U>, rest: seq<Queued<U>>)
    requires queue != [] && Covering(site, limits, start, pages, queue)
    requires site.Validate(queue[0].raw) == Some(page.url)
    requires rest == Advanced(limits, queue, page)
    ensures Covering(site, limits, start, pages + [page], rest)
  {
    var more := pages + [page];
    assert queue == [queue[0]] + queue[1..] && page in more && queue[1..] <= rest;
    forall raw, depth | Covered(site, pages, queue, raw, depth) ensures Covered(site, more, rest, raw, depth) {
      CoveredLater(site, pages, queue, page, rest, raw, depth);
    }
    forall p, raw | p in more && p.depth < limits.maxDepth && raw in p.links
      ensures Covered(site, more, rest, raw, p.depth + 1)
    {
      if p !in pages {
        var i :| 0 <= i < |page.links| && page.links[i] == raw;
        assert rest[|queue| - 1 + i] == Queued(raw, page.depth + 1);
      }
    }
  }

  lemma CoveredLater<U(!new)>(site: Site<U>, pages: seq<Page<U>>, queue: seq<Queued<U>>, page: Page<U>, rest: seq<Queued<U>>, raw: U, depth: int)
    requires queue != [] && Covered(site, pages, queue, raw, depth)
    requires site.Validate(queue[0].raw) == Some(page.url) && queue[1..] <= rest
    ensures Covered(site, pages + [page], rest, raw, depth)
  {
    var more := pages + [page];
    if Queued(raw, depth) in queue {
      var i :| 0 <= i < |queue| && queue[i] == Queued(raw, depth);
      if i == 0 { assert page in more; } else { assert rest[i - 1] == queue[1..][i - 1]; }
    } else {
      var p :| p in pages && p.url.text == site.Validate(raw).value.text;
      assert p in more;
    }
  }

  // ----- the crawl -----

  /** No page is deeper than what still waits. */
  ghost predicate Behind<U(!new)>(pages: seq<Page<U>>, queue: seq<Queued<U>>) {
    forall p, q :: p in pages && q in queue ==> p.depth <= q.depth
  }

  ghost predicate Progress<U(!new)>(site: Site<U>, limits: Limits, start: seq<U>, pages: seq<Page<U>>, queue: seq<Queued<U>>) {
    && DistinctUrls(pages) && WithinLimits(limits, pages) && InScope(site, pages) && ShortestDepths(site, start, pages)
    && Layered(site, limits, start, queue) && Covering(site, limits, start, pages, queue)
    && BreadthFirst(site, start, pages) && Behind(pages, queue)
  }

  /** One fetched page keeps everything that is claimed of pages and queue. */
  lemma Advance<U(!new)>(site: Site<U>, limits: Limits, start: seq<U>, pages: seq<Page<U>>, queue: seq<Queued<U>>, page: Page<U>)
    requires Progress(site, limits, start, pages, queue) && queue != []
    requires site.Validate(queue[0].raw) == Some(page.url) && page.depth == queue[0].depth
    requires Sound(site, page) && !Fetched(pages, page.url.text)
    requires |pages| + 1 <= limits.maxPages && TotalBytes(pages) + |page.body| <= limits.maxTotalBytes
    requires |Domains(pages) + {Domain(page.url.host)}| <= limits.maxDomains
    requires |page.body| <= limits.maxPageBytes && page.mediaType in limits.mediaTypes
    ensures Progress(site, limits, start, pages + [page], Advanced(limits, queue, page))
  {
    hide Sound, Site.Validate, Site.Links, Site.Reaches, BreadthFirst, Behind, Covering, Advanced;
    hide WithinLimits, InScope, ShortestDepths, DistinctUrls, Site.Distance;
    var more, rest := pages + [page], Advanced(limits, queue, page);
    SoundLinks(site, page);
    TakeHead(site, limits, start, pages, queue, page, rest);
    ExpandLayered(site, limits, start, queue, page);
    assert queue[0] in queue;
    HeadDistance(site, limits, start, pages, queue);
    RecordFacts(site, limits, start, pages, page);
    RecordDistinct(pages, page);
    RecordOrder(site, limits, start, pages, queue, page);
    AdvanceBehind(limits, pages, queue, page);
  }

  /** The head of the queue is the nearest of what is left, so everything nearer is done. */
  lemma NearerComplete<U(!new)>(site: Site<U>, limits: Limits, start: seq<U>, pages: seq<Page<U>>, queue: seq<Queued<U>>, d: int)
    requires Covering(site, limits, start, pages, queue) && ShortestDepths(site, start, pages) && InScope(site, pages)
    requires d <= limits.maxDepth + 1 && forall q :: q in queue ==> d <= q.depth
    ensures CompleteBelow(site, start, pages, d)
  {
    hide Covering, ShortestDepths, InScope, Site.Chain, Site.Validate;
    forall raw, n: nat | n < d && site.Reaches(start, raw, n)
      ensures site.Validate(raw).Some? && Fetched(pages, site.Validate(raw).value.text)
    {
      var c :| site.Chain(start, c) && |c| == n + 1 && c[n] == raw;
      NearerFetched(site, limits, start, pages, queue, d, c);
    }
  }

  lemma HeadComplete<U(!new)>(site: Site<U>, limits: Limits, start: seq<U>, pages: seq<Page<U>>, queue: seq<Queued<U>>)
    requires queue != [] && Layered(site, limits, start, queue) && Covering(site, limits, start, pages, queue)
    requires ShortestDepths(site, start, pages) && InScope(site, pages)
    ensures CompleteBelow(site, start, pages, queue[0].depth)
  {
    hide Covering, ShortestDepths, InScope, Site.Reaches, CompleteBelow;
    assert queue[0] in queue;
    NearerComplete(site, limits, start, pages, queue, queue[0].depth);
  }

  lemma CompleteGrows<U(!new)>(site: Site<U>, start: seq<U>, pages: seq<Page<U>>, page: Page<U>, d: int)
    requires CompleteBelow(site, start, pages, d)
    ensures CompleteBelow(site, start, pages + [page], d)
  {
    hide Site.Reaches, Site.Validate;
    forall raw, n: nat | n < d && site.Reaches(start, raw, n)
      ensures site.Validate(raw).Some? && Fetched(pages + [page], site.Validate(raw).value.text)
    {
      var p :| p in pages && p.url.text == site.Validate(raw).value.text;
      assert p in pages + [page];
    }
  }

  lemma RecordOrder<U(!new)>(site: Site<U>, limits: Limits, start: seq<U>, pages: seq<Page<U>>, queue: seq<Queued<U>>, page: Page<U>)
    requires BreadthFirst(site, start, pages) && Behind(pages, queue) && queue != [] && page.depth == queue[0].depth
    requires Layered(site, limits, start, queue) && Covering(site, limits, start, pages, queue)
    requires ShortestDepths(site, start, pages) && InScope(site, pages)
    ensures BreadthFirst(site, start, pages + [page])
  {
    hide Layered, Covering, ShortestDepths, InScope, CompleteBelow;
    assert queue[0] in queue;
    HeadComplete(site, limits, start, pages, queue);
    forall i | 0 <= i < |pages| ensures pages[i].depth <= page.depth { assert pages[i] in pages; }
    forall p | p in pages + [page] ensures CompleteBelow(site, start, pages + [page], p.depth) {
      CompleteGrows(site, start, pages, page, p.depth);
    }
  }

  lemma AdvanceBehind<U(!new)>(limits: Limits, pages: seq<Page<U>>, queue: seq<Queued<U>>, page: Page<U>)
    requires Behind(pages, queue) && queue != [] && page.depth == queue[0].depth
    requires forall i, j :: 0 <= i < j < |queue| ==> queue[i].depth <= queue[j].depth
    ensures Behind(pages + [page], Advanced(limits, queue, page))
  {
    hide Advanced;
    forall p, q | p in pages + [page] && q in Advanced(limits, queue, page) ensures p.depth <= q.depth {
      assert queue[0] in queue;
      if q in queue {
        var i :| 0 <= i < |queue| && queue[i] == q;
      } else {
        FromPage(limits, queue, page, q);
      }
    }
  }

  lemma RecordFacts<U(!new)>(site: Site<U>, limits: Limits, start: seq<U>, pages: seq<Page<U>>, page: Page<U>)
    requires WithinLimits(limits, pages) && InScope(site, pages) && ShortestDepths(site, start, pages)
    requires Sound(site, page) && site.Distance(start, page.url.text, page.depth)
    requires |pages| + 1 <= limits.maxPages && TotalBytes(pages) + |page.body| <= limits.maxTotalBytes
    requires |Domains(pages) + {Domain(page.url.host)}| <= limits.maxDomains
    requires 0 <= page.depth <= limits.maxDepth && |page.body| <= limits.maxPageBytes && page.mediaType in limits.mediaTypes
    ensures WithinLimits(limits, pages + [page]) && InScope(site, pages + [page]) && ShortestDepths(site, start, pages + [page])
  {
    hide Sound, Site.Distance, TotalBytes, Domains;
    RecordPage(pages, page);
    assert forall p :: p in pages + [page] <==> p in pages || p == page;
  }

  lemma SoundLinks<U(!new)>(site: Site<U>, page: Page<U>)
    requires Sound(site, page)
    ensures page.links == site.Links(page.url.text)
  {
  }

  lemma RecordDistinct<U(!new)>(pages: seq<Page<U>>, page: Page<U>)
    requires DistinctUrls(pages) && !Fetched(pages, page.url.text)
    ensures DistinctUrls(pages + [page])
  {
    forall i | 0 <= i < |pages| ensures pages[i].url.text != page.url.text { assert pages[i] in pages; }
  }

  /** Robots, pacing, fetch and budget for one URL. */
  method Fetch<U(!new, ==)>(site: Site<U>, budget: Budget, url: Url<U>, depth: int, cancelled: bool)
    returns (r: Result<Page<U>, Error>)
    requires budget.limits.Valid() && 0 <= depth <= budget.limits.maxDepth
    requires url == site.At(url.text) && (site.allowedHosts != {} ==> url.host in site.allowedHosts)
    modifies budget
    ensures r.Ok? ==> r.value.url == url && r.value.depth == depth && Sound(site, r.value)
    ensures r.Ok? ==> |r.value.body| <= budget.limits.maxPageBytes && r.value.mediaType in budget.limits.mediaTypes
    ensures r.Ok? ==> budget.domains == old(budget.domains) + {Domain(url.host)} && |budget.domains| <= budget.limits.maxDomains
    ensures r.Ok? ==> budget.pages == old(budget.pages) + 1 <= budget.limits.maxPages
    ensures r.Ok? ==> budget.bytes == old(budget.bytes) + |r.value.body| <= budget.limits.maxTotalBytes
    ensures r == Err(RobotsUnreadable) <==> site.robots(url.text).Unreadable?
    ensures r == Err(RobotsDenied) <==> site.robots(url.text) == Answer(false)
    ensures r.Err? ==>
              || (r.error == Cancelled && cancelled)
              || Refuses(site, budget.limits, old(budget.domains), old(budget.pages), old(budget.bytes), url, r.error)
  {
    var robots := site.robots(url.text);
    if robots.Unreadable? { return Err(RobotsUnreadable); }
    if !robots.allowed { return Err(RobotsDenied); }
    if cancelled { return Err(Cancelled); }
    r := site.ReadPage(url, depth, budget.limits.maxPageBytes);
    if r.Err? { return; }
    var refused := budget.Accept(url.host, depth, |r.value.body|, r.value.mediaType);
    if refused.Some? { return Err(refused.value); }
  }

  /** What the loop's bookkeeping says about the pages so far. */
  ghost predicate Accounts<U(!new)>(budget: Budget, seen: set<U>, pages: seq<Page<U>>)
    reads budget
  {
    && budget.pages == |pages| && budget.bytes == TotalBytes(pages) && budget.domains == Domains(pages)
    && forall text :: text in seen <==> Fetched(pages, text)
  }

  lemma HeadDepth<U(!new)>(site: Site<U>, limits: Limits, start: seq<U>, pages: seq<Page<U>>, queue: seq<Queued<U>>)
    requires queue != [] && Progress(site, limits, start, pages, queue)
    ensures 0 <= queue[0].depth <= limits.maxDepth && site.Reaches(start, queue[0].raw, queue[0].depth)
  {
    hide Covering, ShortestDepths, InScope, BreadthFirst, Site.Reaches;
    assert queue[0] in queue;
  }

  lemma StopHere<U(!new)>(site: Site<U>, limits: Limits, start: seq<U>, pages: seq<Page<U>>, queue: seq<Queued<U>>, e: Error)
    requires queue != [] && Progress(site, limits, start, pages, queue) && StopsAt(site, limits, pages, queue[0].raw, e)
    ensures Stops(site, limits, start, pages, e)
  {
    HeadDepth(site, limits, start, pages, queue);
    hide Covering, ShortestDepths, InScope, BreadthFirst, Layered, StopsAt, CompleteBelow, Site.Reaches;
    HeadComplete(site, limits, start, pages, queue);
  }

  lemma DropProgress<U(!new)>(site: Site<U>, limits: Limits, start: seq<U>, pages: seq<Page<U>>, queue: seq<Queued<U>>)
    requires queue != [] && Progress(site, limits, start, pages, queue)
    requires site.Validate(queue[0].raw).Some? && Fetched(pages, site.Validate(queue[0].raw).value.text)
    ensures Progress(site, limits, start, pages, queue[1..])
  {
    hide Covering, ShortestDepths, InScope, BreadthFirst, Layered, Behind, Site.Validate, Fetched;
    DropHead(site, limits, start, pages, queue);
  }

  /** One turn of the loop: the head of the queue is skipped, fetched or refused. */
  method Step<U(!new, ==)>(site: Site<U>, limits: Limits, ghost start: seq<U>, budget: Budget, seen: set<U>,
                           pages: seq<Page<U>>, queue: seq<Queued<U>>, cancelled: bool)
    returns (seen': set<U>, pages': seq<Page<U>>, queue': seq<Queued<U>>, error: Option<Error>)
    requires limits.Valid() && budget.limits == limits && Accounts(budget, seen, pages)
    requires queue != [] && Progress(site, limits, start, pages, queue)
    modifies budget
    ensures error.Some? ==> pages' == pages && ((error.value == Cancelled && cancelled) || Stops(site, limits, start, pages, error.value))
    ensures error.None? ==> Accounts(budget, seen', pages') && Progress(site, limits, start, pages', queue')
    ensures error.None? ==> |pages'| == |pages| + 1 || (pages' == pages && |queue'| < |queue|)
  {
    hide Progress, Sound, Fetched, Refuses, Domains, TotalBytes, Site.Validate, Stops;
    seen', pages', queue', error := seen, pages, queue[1..], None;
    var next := queue[0];
    HeadDepth(site, limits, start, pages, queue);
    var validated := site.Validate(next.raw);
    if validated.None? {
      StopHere(site, limits, start, pages, queue, Unsafe);
      error := Some(Unsafe);
      return;
    }
    var url := validated.value;
    if url.text in seen {
      DropProgress(site, limits, start, pages, queue);
      return;
    }
    seen' := seen + {url.text};
    var read := Fetch(site, budget, url, next.depth, cancelled);
    if read.Err? {
      if read.error != Cancelled || !cancelled { StopHere(site, limits, start, pages, queue, read.error); }
      error := Some(read.error);
      return;
    }
    var page := read.value;
    Advance(site, limits, start, pages, queue, page);
    RecordPage(pages, page);
    pages', queue' := pages + [page], Advanced(limits, queue, page);
  }

  /** The main loop. ctxDone answers the i-th cancellation check. */
  method Visit<U(!new, ==)>(site: Site<U>, limits: Limits, start: seq<U>, ctxDone: nat -> bool)
    returns (pages: seq<Page<U>>, error: Option<Error>)
    requires limits.Valid()
    ensures DistinctUrls(pages) && WithinLimits(limits, pages) && InScope(site, pages)
    ensures ShortestDepths(site, start, pages) && BreadthFirst(site, start, pages)
    ensures error == None ==> Complete(site, limits, start, pages)
    ensures error.Some? ==> (error.value == Cancelled && exists i :: ctxDone(i)) || Stops(site, limits, start, pages, error.value)
    ensures error != Some(Cancelled) ==> (error == None <==> Achievable(site, limits, start))
  {
    pages, error := [], None;
    var queue := Expand([], start, 0);
    var seen: set<U> := {};
    var budget := new Budget(limits);
    var checks: nat := 0;
    StartQueue(site, limits, start);
    NothingFetched(budget, seen, pages);
    assert |pages| <= limits.maxPages;
    hide *;
    while queue != []
      invariant budget.limits == limits && fresh(budget) && Accounts(budget, seen, pages)
      invariant Progress(site, limits, start, pages, queue) && |pages| <= limits.maxPages && error == None
      decreases limits.maxPages - |pages|, |queue|
    {
      if ctxDone(checks) {
        ProgressFacts(site, limits, start, pages, queue);
        return pages, Some(Cancelled);
      }
      ghost var before, waiting := pages, queue;
      // Every request but the first waits for the pacing timer, during which it can be cancelled.
      var cancelled := seen != {} && ctxDone(checks + 1);
      seen, pages, queue, error := Step(site, limits, start, budget, seen, pages, queue, cancelled);
      if error.Some? {
        ProgressFacts(site, limits, start, before, waiting);
        assert cancelled ==> ctxDone(checks + 1);
        if Achievable(site, limits, start) { AchievableNeverStops(site, limits, start, pages, error.value); }
        return;
      }
      ProgressFacts(site, limits, start, pages, queue);
      checks := checks + 2;
    }
    ProgressFacts(site, limits, start, pages, queue);
    Exhausted(site, limits, start, pages);
    Achieved(site, limits, start, pages);
  }

  lemma Achieved<U(!new)>(site: Site<U>, limits: Limits, start: seq<U>, pages: seq<Page<U>>)
    requires DistinctUrls(pages) && WithinLimits(limits, pages) && InScope(site, pages) && Complete(site, limits, start, pages)
    ensures Achievable(site, limits, start)
  {
    hide DistinctUrls, WithinLimits, InScope, Complete;
    assert FullCrawl(site, limits, start, pages);
  }

  lemma ProgressFacts<U(!new)>(site: Site<U>, limits: Limits, start: seq<U>, pages: seq<Page<U>>, queue: seq<Queued<U>>)
    requires Progress(site, limits, start, pages, queue)
    ensures DistinctUrls(pages) && WithinLimits(limits, pages) && InScope(site, pages) && ShortestDepths(site, start, pages)
    ensures Covering(site, limits, start, pages, queue) && |pages| <= limits.maxPages && BreadthFirst(site, start, pages)
  {
    hide BreadthFirst, Behind, DistinctUrls, InScope, ShortestDepths, Layered, Covering;
  }

  lemma NothingFetched<U(!new)>(budget: Budget, seen: set<U>, pages: seq<Page<U>>)
    requires budget.domains == {} && budget.pages == 0 && budget.bytes == 0 && seen == {} && pages == []
    ensures Accounts(budget, seen, pages)
  {
  }

  lemma StartQueue<U(!new)>(site: Site<U>, limits: Limits, start: seq<U>)
    requires limits.Valid()
    ensures Progress(site, limits, start, [], Expand([], start, 0))
  {
    var queue := Expand([], start, 0);
    forall q | q in queue ensures site.Reaches(start, q.raw, 0) { assert site.Chain(start, [q.raw]); }
    forall raw | raw in start ensures Covered(site, [], queue, raw, 0) {
      var i :| 0 <= i < |start| && start[i] == raw;
      assert queue[i] == Queued(raw, 0);
    }
  }

  lemma RecordPage<U(!new)>(pages: seq<Page<U>>, page: Page<U>)
    ensures TotalBytes(pages + [page]) == TotalBytes(pages) + |page.body|
    ensures Domains(pages + [page]) == Domains(pages) + {Domain(page.url.host)}
    ensures forall text :: Fetched(pages + [page], text) <==> Fetched(pages, text) || text == page.url.text
  {
    var more := pages + [page];
    assert more[..|more| - 1] == pages && page in more;
    forall p ensures p in more <==> p in pages || p == page {}
  }

  lemma Exhausted<U(!new)>(site: Site<U>, limits: Limits, start: seq<U>, pages: seq<Page<U>>)
    requires limits.Valid() && Covering(site, limits, start, pages, [])
    requires ShortestDepths(site, start, pages) && InScope(site, pages)
    ensures Complete(site, limits, start, pages)
  {
    NearerComplete(site, limits, start, pages, [], limits.maxDepth + 1);
  }

  /** A successful crawl returned exactly the URLs within the depth limit. */
  lemma SuccessIsBall<U(!new)>(site: Site<U>, limits: Limits, start: seq<U>, pages: seq<Page<U>>, text: U)
    requires Complete(site, limits, start, pages) && ShortestDepths(site, start, pages) && WithinLimits(limits, pages)
    ensures Fetched(pages, text) <==> exists raw, n: nat :: n <= limits.maxDepth && site.LeadsTo(start, raw, n, text)
  {
    if Fetched(pages, text) {
      var p :| p in pages && p.url.text == text;
      var raw :| site.LeadsTo(start, raw, p.depth, text);
    }
  }

  // ----- when a crawl succeeds -----

  /** A list of everything within the depth limit, each URL once, as the site serves it and within every limit. */
  ghost predicate FullCrawl<U(!new)>(site: Site<U>, limits: Limits, start: seq<U>, pages: seq<Page<U>>) {
    DistinctUrls(pages) && WithinLimits(limits, pages) && InScope(site, pages) && Complete(site, limits, start, pages)
  }

  ghost predicate Achievable<U(!new)>(site: Site<U>, limits: Limits, start: seq<U>) {
    exists full :: FullCrawl(site, limits, start, full)
  }

  ghost predicate HasTwin<U(!new)>(full: seq<Page<U>>, p: Page<U>) {
    exists i :: 0 <= i < |full| && full[i].url == p.url && full[i].body == p.body
  }

  lemma {:induction false} TotalConcat<U(!new)>(a: seq<Page<U>>, b: seq<Page<U>>)
    ensures TotalBytes(a + b) == TotalBytes(a) + TotalBytes(b)
  {
    if b == [] {
      assert a + b == a;
    } else {
      assert (a + b)[..|a + b| - 1] == a + b[..|b| - 1];
      TotalConcat(a, b[..|b| - 1]);
    }
  }

  lemma TotalWithout<U(!new)>(full: seq<Page<U>>, i: nat)
    requires i < |full|
    ensures TotalBytes(full[..i] + full[i + 1..]) == TotalBytes(full) - |full[i].body|
  {
    var one := [full[i]];
    assert one[..0] == [] && full == full[..i] + (one + full[i + 1..]);
    TotalConcat(full[..i], one + full[i + 1..]);
    TotalConcat(one, full[i + 1..]);
    TotalConcat(full[..i], full[i + 1..]);
  }

  /** Distinct pages that all occur in a list are no more, and no larger, than the list. */
  lemma {:induction false} PartOfFull<U(!new)>(pages: seq<Page<U>>, full: seq<Page<U>>)
    requires DistinctUrls(pages) && DistinctUrls(full) && forall i :: 0 <= i < |pages| ==> HasTwin(full, pages[i])
    ensures |pages| <= |full| && TotalBytes(pages) <= TotalBytes(full)
    decreases |pages|
  {
    if pages != [] {
      var n := |pages| - 1;
      assert HasTwin(full, pages[n]);
      var i :| 0 <= i < |full| && full[i].url == pages[n].url && full[i].body == pages[n].body;
      var rest := full[..i] + full[i + 1..];
      forall k | 0 <= k < n ensures HasTwin(rest, pages[..n][k]) {
        assert HasTwin(full, pages[k]) && pages[k].url.text != pages[n].url.text;
        TwinElsewhere(full, i, pages[k]);
      }
      PartOfFull(pages[..n], rest);
      TotalWithout(full, i);
    }
  }

  lemma TwinElsewhere<U(!new)>(full: seq<Page<U>>, i: nat, p: Page<U>)
    requires i < |full| && HasTwin(full, p) && full[i].url != p.url
    ensures HasTwin(full[..i] + full[i + 1..], p)
  {
    var rest := full[..i] + full[i + 1..];
    var j :| 0 <= j < |full| && full[j].url == p.url && full[j].body == p.body;
    assert rest[if j < i then j else j - 1] == full[j];
  }

  /** What a full crawl has fetched, it has as the site serves it. */
  lemma TwinOf<U(!new)>(site: Site<U>, full: seq<Page<U>>, p: Page<U>)
    requires InScope(site, full) && Fetched(full, p.url.text) && p.url == site.At(p.url.text) && p.body == site.Body(p.url.text)
    ensures HasTwin(full, p)
  {
    var w :| w in full && w.url.text == p.url.text;
    var i :| 0 <= i < |full| && full[i] == w;
    assert full[i].url == p.url && full[i].body == p.body;
  }

  lemma DomainsInside<U(!new)>(pages: seq<Page<U>>, full: seq<Page<U>>)
    requires forall i :: 0 <= i < |pages| ==> HasTwin(full, pages[i])
    ensures |Domains(pages)| <= |Domains(full)|
  {
    hide Domain;
    forall d | d in Domains(pages) ensures d in Domains(full) {
      var p :| p in pages && Domain(p.url.host) == d;
      var k :| 0 <= k < |pages| && pages[k] == p;
      assert HasTwin(full, pages[k]);
      var i :| 0 <= i < |full| && full[i].url == p.url && full[i].body == p.body;
      assert full[i] in full;
    }
    Subset(Domains(pages), Domains(full));
  }

  lemma Subset(a: set<string>, b: set<string>)
    requires a <= b
    ensures |a| <= |b|
  {
    assert b == a + (b - a);
  }

  /** With one page more the pages are still part of the full crawl, and so within its limits. */
  lemma RoomInFull<U(!new)>(site: Site<U>, limits: Limits, full: seq<Page<U>>, pages: seq<Page<U>>, page: Page<U>)
    requires DistinctUrls(full) && WithinLimits(limits, full) && DistinctUrls(pages) && !Fetched(pages, page.url.text)
    requires (forall i :: 0 <= i < |pages| ==> HasTwin(full, pages[i])) && HasTwin(full, page)
    ensures |pages| + 1 <= limits.maxPages && TotalBytes(pages) + |page.body| <= limits.maxTotalBytes
    ensures |Domains(pages) + {Domain(page.url.host)}| <= limits.maxDomains
  {
    hide HasTwin, DistinctUrls, TotalBytes, Domains, Domain, Fetched;
    var more := pages + [page];
    RecordDistinct(pages, page);
    RecordPage(pages, page);
    assert forall i :: 0 <= i < |more| ==> HasTwin(full, more[i]);
    PartOfFull(more, full);
    DomainsInside(more, full);
  }

  lemma PagesInFull<U(!new)>(site: Site<U>, limits: Limits, start: seq<U>, full: seq<Page<U>>, pages: seq<Page<U>>)
    requires FullCrawl(site, limits, start, full)
    requires WithinLimits(limits, pages) && InScope(site, pages) && ShortestDepths(site, start, pages)
    ensures forall i :: 0 <= i < |pages| ==> HasTwin(full, pages[i])
  {
    forall i | 0 <= i < |pages| ensures HasTwin(full, pages[i]) {
      var p := pages[i];
      assert p in pages;
      var raw :| site.LeadsTo(start, raw, p.depth, p.url.text);
      TwinOf(site, full, p);
    }
  }

  /** Where a full crawl exists nothing can stop the crawl. */
  lemma AchievableNeverStops<U(!new)>(site: Site<U>, limits: Limits, start: seq<U>, pages: seq<Page<U>>, e: Error)
    requires Achievable(site, limits, start)
    requires DistinctUrls(pages) && WithinLimits(limits, pages) && InScope(site, pages) && ShortestDepths(site, start, pages)
    ensures !Stops(site, limits, start, pages, e)
  {
    var full :| FullCrawl(site, limits, start, full);
    PagesInFull(site, limits, start, full, pages);
    forall raw, n: nat | n <= limits.maxDepth && site.Reaches(start, raw, n) ensures !StopsAt(site, limits, pages, raw, e) {
      assert site.Validate(raw).Some? && Fetched(full, site.Validate(raw).value.text);
      NeverStopsAt(site, limits, full, pages, raw, e);
    }
  }

  lemma NeverStopsAt<U(!new)>(site: Site<U>, limits: Limits, full: seq<Page<U>>, pages: seq<Page<U>>, raw: U, e: Error)
    requires DistinctUrls(full) && WithinLimits(limits, full) && InScope(site, full) && DistinctUrls(pages)
    requires forall i :: 0 <= i < |pages| ==> HasTwin(full, pages[i])
    requires site.Validate(raw).Some? && Fetched(full, site.Validate(raw).value.text)
    ensures !StopsAt(site, limits, pages, raw, e)
  {
    var url := site.Validate(raw).value;
    if !Fetched(pages, url.text) {
      var w :| w in full && w.url.text == url.text;
      var page := Page(url, 0, "", site.Body(url.text), []);
      TwinOf(site, full, page);
      RoomInFull(site, limits, full, pages, page);
    }
  }

  // ----- a condition that is easy to meet -----

  /** A URL that is safe, allowed, served, and of a permitted type and size. */
  ghost predicate Fits<U(!new)>(site: Site<U>, limits: Limits, raw: U, ball: set<U>) {
    && site.Validate(raw).Some?
    && var url := site.Validate(raw).value;
       && url.text in ball && !Blank(url.host) && site.robots(url.text) == Answer(true) && !site.Fails(url.text)
       && !Blank(site.MediaType(url.text)) && site.MediaType(url.text) in limits.mediaTypes
       && |site.Body(url.text)| <= limits.maxPageBytes
  }

  /** Everything within the depth limit fits, and there is not too much of it. */
  ghost predicate Healthy<U(!new)>(site: Site<U>, limits: Limits, start: seq<U>, ball: set<U>) {
    && |ball| <= limits.maxPages && |ball| * limits.maxPageBytes <= limits.maxTotalBytes
    && site.allowedHosts != {} && |site.allowedHosts| <= limits.maxDomains
    && forall raw, n: nat :: n <= limits.maxDepth && site.Reaches(start, raw, n) ==> Fits(site, limits, raw, ball)
  }

  lemma {:induction false} TotalAtMost<U(!new)>(pages: seq<Page<U>>, size: nat)
    requires forall p :: p in pages ==> |p.body| <= size
    ensures TotalBytes(pages) <= |pages| * size
  {
    if pages != [] {
      var n := |pages| - 1;
      assert pages[n] in pages && forall p :: p in pages[..n] ==> p in pages;
      TotalAtMost(pages[..n], size);
      assert |pages| * size == n * size + size;
    }
  }

  lemma {:induction false} DistinctInside<U(!new)>(pages: seq<Page<U>>, ball: set<U>)
    requires DistinctUrls(pages) && forall p :: p in pages ==> p.url.text in ball
    ensures |pages| <= |ball|
  {
    if pages != [] {
      var n := |pages| - 1;
      var front, last := pages[..n], pages[n];
      forall p | p in front ensures p.url.text in ball - {last.url.text} {
        var i :| 0 <= i < n && pages[i] == p;
        assert p in pages && pages[i].url.text != pages[n].url.text;
      }
      DistinctInside(front, ball - {last.url.text});
      assert last in pages;
    }
  }

  lemma {:induction false} DomainsOfHosts(domains: set<string>, hosts: set<string>)
    requires forall d :: d in domains ==> exists h :: h in hosts && Domain(h) == d
    ensures |domains| <= |hosts|
    decreases |hosts|
  {
    if domains != {} {
      var d :| d in domains;
      var h :| h in hosts && Domain(h) == d;
      forall other | other in domains - {d} ensures exists g :: g in hosts - {h} && Domain(g) == other {
        var g :| g in hosts && Domain(g) == other;
        assert g in hosts - {h};
      }
      DomainsOfHosts(domains - {d}, hosts - {h});
    }
  }

  /** The size limits hold for one page more. */
  lemma RoomForOne<U(!new)>(site: Site<U>, limits: Limits, ball: set<U>, pages: seq<Page<U>>, page: Page<U>)
    requires |ball| <= limits.maxPages && |ball| * limits.maxPageBytes <= limits.maxTotalBytes && |site.allowedHosts| <= limits.maxDomains
    requires DistinctUrls(pages) && !Fetched(pages, page.url.text) && limits.Valid()
    requires forall p :: p in pages ==> p.url.text in ball && p.url.host in site.allowedHosts && |p.body| <= limits.maxPageBytes
    requires page.url.text in ball && |page.body| <= limits.maxPageBytes && page.url.host in site.allowedHosts
    ensures |pages| + 1 <= limits.maxPages && TotalBytes(pages) + |page.body| <= limits.maxTotalBytes
    ensures |Domains(pages) + {Domain(page.url.host)}| <= limits.maxDomains
  {
    var more := pages + [page];
    assert forall p :: p in more <==> p in pages || p == page;
    RecordDistinct(pages, page);
    RecordPage(pages, page);
    HostsBound(more, site.allowedHosts);
    SizeBound(more, limits.maxPageBytes, ball);
  }

  lemma HostsBound<U(!new)>(pages: seq<Page<U>>, hosts: set<string>)
    requires forall p :: p in pages ==> p.url.host in hosts
    ensures |Domains(pages)| <= |hosts|
  {
    hide Domain;
    forall d | d in Domains(pages) ensures exists h :: h in hosts && Domain(h) == d {
      var p :| p in pages && Domain(p.url.host) == d;
      assert p.url.host in hosts;
    }
    DomainsOfHosts(Domains(pages), hosts);
  }

  lemma SizeBound<U(!new)>(pages: seq<Page<U>>, size: nat, ball: set<U>)
    requires DistinctUrls(pages) && forall p :: p in pages ==> p.url.text in ball && |p.body| <= size
    ensures |pages| <= |ball| && TotalBytes(pages) <= |ball| * size
  {
    hide TotalBytes, DistinctUrls;
    DistinctInside(pages, ball);
    TotalAtMost(pages, size);
    assert (|ball| - |pages|) * size >= 0;
  }

  /** On a healthy site no URL ever stops the crawl, so that it ends with success unless it is cancelled. */
  lemma HealthyNeverStops<U(!new)>(site: Site<U>, limits: Limits, start: seq<U>, ball: set<U>, pages: seq<Page<U>>, e: Error)
    requires Healthy(site, limits, start, ball) && limits.Valid()
    requires DistinctUrls(pages) && WithinLimits(limits, pages) && InScope(site, pages) && ShortestDepths(site, start, pages)
    ensures !Stops(site, limits, start, pages, e)
  {
    forall p | p in pages ensures p.url.text in ball {
      var raw :| site.LeadsTo(start, raw, p.depth, p.url.text);
      assert Fits(site, limits, raw, ball);
    }
    forall raw, n: nat | n <= limits.maxDepth && site.Reaches(start, raw, n) ensures !StopsAt(site, limits, pages, raw, e) {
      assert Fits(site, limits, raw, ball);
      var url := site.Validate(raw).value;
      if !Fetched(pages, url.text) {
        RoomForOne(site, limits, ball, pages, Page(url, 0, "", site.Body(url.text), []));
      }
    }
  }

  // ----- links -----

  /** On success every anchor of an HTML page above the depth limit leads to a returned page. */
  ghost predicate AnchorsFollowed<U(!new)>(site: Site<U>, limits: Limits, pages: seq<Page<U>>) {
    forall p, raw :: p in pages && p.depth < limits.maxDepth && p.mediaType == "text/html" && site.fetch(p.url.text).Response?
                     && raw in site.fetch(p.url.text).anchors ==>
      site.Validate(raw).Some? && Fetched(pages, site.Validate(raw).value.text)
  }

  lemma LinksAreAnchors<U(!new)>(site: Site<U>, p: Page<U>)
    requires Sound(site, p)
    ensures site.fetch(p.url.text).Response?
    ensures p.links == if p.mediaType == "text/html" then site.fetch(p.url.text).anchors else []
  {
  }

  lemma AllFollowed<U(!new)>(site: Site<U>, limits: Limits, start: seq<U>, pages: seq<Page<U>>)
    requires Complete(site, limits, start, pages) && ShortestDepths(site, start, pages) && InScope(site, pages)
    ensures AnchorsFollowed(site, limits, pages)
  {
    hide Sound, Site.Validate, Site.Reaches, Site.Links;
    forall p, raw | p in pages && p.depth < limits.maxDepth && p.mediaType == "text/html" && site.fetch(p.url.text).Response?
                    && raw in site.fetch(p.url.text).anchors
      ensures site.Validate(raw).Some? && Fetched(pages, site.Validate(raw).value.text)
    {
      assert Sound(site, p);
      LinksAreAnchors(site, p);
      SoundLinks(site, p);
      OneFurther(site, start, p, raw);
    }
  }

  /** A link of a page is one step farther than the page. */
  lemma OneFurther<U(!new)>(site: Site<U>, start: seq<U>, p: Page<U>, raw: U)
    requires site.Distance(start, p.url.text, p.depth) && raw in site.Links(p.url.text)
    ensures site.Reaches(start, raw, p.depth + 1)
  {
    hide Site.Links, Site.Validate, Site.Chain;
    var from :| site.LeadsTo(start, from, p.depth, p.url.text);
    var c :| site.Chain(start, c) && |c| == p.depth + 1 && c[p.depth] == from;
    ExtendChain(site, start, c, raw);
  }

  /** A page below the roots is the target of an anchor of a returned HTML page one level up. */
  ghost predicate HasParent<U(!new)>(site: Site<U>, pages: seq<Page<U>>, p: Page<U>) {
    exists q, raw :: q in pages && q.depth == p.depth - 1 && q.mediaType == "text/html" && site.fetch(q.url.text).Response?
                     && raw in site.fetch(q.url.text).anchors && site.Validate(raw) == Some(p.url)
  }

  /** A chain to a link passes through the URL that carries it. */
  lemma LastLink<U(!new)>(site: Site<U>, start: seq<U>, raw: U, n: nat) returns (from: U)
    requires n > 0 && site.Reaches(start, raw, n)
    ensures site.Reaches(start, from, n - 1) && site.Follows(from, raw)
  {
    hide Site.Follows;
    var c :| site.Chain(start, c) && |c| == n + 1 && c[n] == raw;
    ShorterChain(site, start, c);
    from := c[n - 1];
    assert c[..n][n - 1] == from && site.LinkAt(c, n - 1);
  }

  lemma ParentOf<U(!new)>(site: Site<U>, start: seq<U>, pages: seq<Page<U>>, p: Page<U>)
    requires p in pages && p.depth > 0
    requires ShortestDepths(site, start, pages) && InScope(site, pages) && BreadthFirst(site, start, pages)
    ensures HasParent(site, pages, p)
  {
    hide Site.Links, Site.Validate, Site.Reaches, Sound;
    var raw :| site.LeadsTo(start, raw, p.depth, p.url.text);
    var from := LastLink(site, start, raw, p.depth);
    assert CompleteBelow(site, start, pages, p.depth);
    var q :| q in pages && q.url.text == site.Validate(from).value.text;
    assert Sound(site, p) && Sound(site, q);
    LinksAreAnchors(site, q);
    SoundLinks(site, q);
    SoundUrl(site, p, raw);
    ParentDepth(site, start, p, q, from, raw);
  }

  lemma ParentDepth<U(!new)>(site: Site<U>, start: seq<U>, p: Page<U>, q: Page<U>, from: U, raw: U)
    requires site.Distance(start, p.url.text, p.depth) && site.Distance(start, q.url.text, q.depth) && p.depth > 0
    requires site.LeadsTo(start, from, p.depth - 1, q.url.text) && raw in site.Links(q.url.text)
    requires site.Validate(raw).Some? && site.Validate(raw).value.text == p.url.text
    ensures q.depth == p.depth - 1
  {
    hide Site.Links, Site.Validate, Site.Reaches;
    OneFurther(site, start, q, raw);
    assert site.LeadsTo(start, raw, q.depth + 1, p.url.text);
  }

  lemma SoundUrl<U(!new)>(site: Site<U>, p: Page<U>, raw: U)
    requires Sound(site, p) && site.Validate(raw).Some? && site.Validate(raw).value.text == p.url.text
    ensures site.Validate(raw) == Some(p.url)
  {
  }

  // ----- roots -----

  /** The validated roots, or None when one is refused. */
  function RootUrls<U(!new)>(base: Site<U>, roots: seq<U>): (r: Option<seq<Url<U>>>)
    ensures r.Some? ==> |r.value| == |roots| && forall i :: 0 <= i < |roots| ==> base.Validate(roots[i]) == Some(r.value[i])
    ensures r.None? ==> exists raw :: raw in roots && base.Validate(raw).None?
  {
    if roots == [] then Some([])
    else
      var last := |roots| - 1;
      match (RootUrls(base, roots[..last]), base.Validate(roots[last]))
      case (Some(urls), Some(u)) => Some(urls + [u])
      case _ => None
  }

  function Texts<U>(urls: seq<Url<U>>): (r: seq<U>) { seq(|urls|, i requires 0 <= i < |urls| => urls[i].text) }

  function Hosts<U(==)>(urls: seq<Url<U>>): (h: set<string>) { set u | u in urls :: u.host }

  lemma OneMoreRoot<U(!new)>(base: Site<U>, roots: seq<U>, raw: U)
    ensures RootUrls(base, roots + [raw]) ==
            if RootUrls(base, roots).Some? && base.Validate(raw).Some? then Some(RootUrls(base, roots).value + [base.Validate(raw).value]) else None
  {
    hide Site.Validate;
    assert (roots + [raw])[..|roots|] == roots;
  }

  /** `crawlPolicy`: the configured roots become the only eligible hosts. */
  method CrawlPolicy<U(!new, ==)>(base: Site<U>, roots: seq<U>) returns (r: Result<(Site<U>, seq<U>), Error>)
    ensures r.Ok? <==> RootUrls(base, roots).Some?
    ensures r.Ok? <==> forall raw :: raw in roots ==> base.Validate(raw).Some?
    ensures r.Err? ==> r.error == Unsafe
    ensures r.Ok? ==> r.value == (base.(allowedHosts := Hosts(RootUrls(base, roots).value)), Texts(RootUrls(base, roots).value))
  {
    hide Site.Validate;
    var hosts: set<string>, canonical: seq<U> := {}, [];
    for i := 0 to |roots|
      invariant RootUrls(base, roots[..i]).Some?
      invariant hosts == Hosts(RootUrls(base, roots[..i]).value) && canonical == Texts(RootUrls(base, roots[..i]).value)
    {
      var u := base.Validate(roots[i]);
      OneMoreRoot(base, roots[..i], roots[i]);
      assert roots[..i + 1] == roots[..i] + [roots[i]];
      if u.None? {
        assert roots[i] in roots;
        return Err(Unsafe);
      }
      hosts := hosts + {u.value.host};
      canonical := canonical + [u.value.text];
    }
    assert roots[..|roots|] == roots;
    return Ok((base.(allowedHosts := hosts), canonical));
  }

  /** The crawl never leaves the hosts of its roots, and what it returns is a truthful prefix of a breadth-first
      order even when it stops early. */
  method Crawl<U(!new, ==)>(base: Site<U>, limits: Limits, roots: seq<U>, ctxDone: nat -> bool)
    returns (pages: seq<Page<U>>, error: Option<Error>)
    ensures !limits.Valid() || roots == [] ==> error == Some(Invalid)
    ensures error == None ==> RootUrls(base, roots).Some?
    ensures pages != [] || error == None ==>
              && RootUrls(base, roots).Some?
              && var urls := RootUrls(base, roots).value;
                 var site := base.(allowedHosts := Hosts(urls));
                 && DistinctUrls(pages) && WithinLimits(limits, pages) && ShortestDepths(site, Texts(urls), pages)
                 && BreadthFirst(site, Texts(urls), pages)
                 && (forall p :: p in pages ==> p.url.host in Hosts(urls) && site.Admitted(p))
                 && (error == None ==> Complete(site, limits, Texts(urls), pages) && AnchorsFollowed(site, limits, pages))
                 && (forall p :: p in pages && p.depth > 0 ==> HasParent(site, pages, p))
    ensures error.Some? ==>
              || (error.value == Invalid && (!limits.Valid() || roots == []))
              || (error.value == Unsafe && RootUrls(base, roots).None?)
              || (error.value == Cancelled && exists i :: ctxDone(i))
              || (RootUrls(base, roots).Some?
                  && var urls := RootUrls(base, roots).value;
                     Stops(base.(allowedHosts := Hosts(urls)), limits, Texts(urls), pages, error.value))
    ensures error != Some(Cancelled) ==>
              (error == None <==>
                 && limits.Valid() && roots != [] && RootUrls(base, roots).Some?
                 && var urls := RootUrls(base, roots).value;
                    Achievable(base.(allowedHosts := Hosts(urls)), limits, Texts(urls)))
  {
    if !limits.Valid() || roots == [] { return [], Some(Invalid); }
    var policy := CrawlPolicy(base, roots);
    if policy.Err? { return [], Some(policy.error); }
    assert RootUrls(base, roots).value[0].host in Hosts(RootUrls(base, roots).value);
    pages, error := Visit(policy.value.0, limits, policy.value.1, ctxDone);
    if error == None { AllFollowed(policy.value.0, limits, policy.value.1, pages); }
    forall p | p in pages && p.depth > 0 ensures HasParent(policy.value.0, pages, p) {
      ParentOf(policy.value.0, policy.value.1, pages, p);
    }
  }
}
