/**
 * The request handler given to `Deno.serve`, as a function of the request
 * and of what the outside world answers: the Hacker News API for `/hn`, and
 * for every other path the store's entries as read back after this visit
 * was recorded.
 */
module Server {
  import opened Wrappers
  import opened Text
  import opened LazyPattern
  import opened Summary
  import opened Stories
  import opened Report

  /** The parts of an incoming request the handler reads; `n` already parsed. */
  datatype Request = Request(pathname: string, n: Option<nat>, userAgent: Option<string>)

  datatype Route = HackerNews | Visits

  const HackerNewsPath := "/hn"
  const DefaultLimit: nat := 4
  const UnknownAgent := "unknown"

  /** Only the path `/hn` exactly selects the story report. */
  function RouteOf(pathname: string): (r: Route)
    ensures r == HackerNews <==> pathname == HackerNewsPath
    ensures r == Visits <==> pathname != HackerNewsPath
  {
    if pathname == HackerNewsPath then HackerNews else Visits
  }

  /** `url.searchParams.get("n") ?? "4"`: how many stories to show. */
  function Limit(n: Option<nat>): (r: nat)
    ensures n.None? ==> r == DefaultLimit
    ensures n.Some? ==> r == n.value
  {
    n.GetOr(DefaultLimit)
  }

  /** The record stored for a visit: the timestamp as key, the user agent (or `"unknown"`) as value. */
  function VisitRecord(now: string, userAgent: Option<string>): (r: (string, string))
    ensures r.0 == now
    ensures userAgent.Some? ==> r.1 == userAgent.value
    ensures userAgent.None? ==> r.1 == UnknownAgent
  {
    (now, userAgent.GetOr(UnknownAgent))
  }

  /** The response body for `req`. */
  function Respond(req: Request, api: Api, visits: seq<(string, string)>): (body: string)
    ensures RouteOf(req.pathname) == HackerNews ==> ReportHeader <= body
    ensures RouteOf(req.pathname) == Visits ==> DumpHeader <= body
  {
    match RouteOf(req.pathname)
    case HackerNews => Render(TopStories(api, Limit(req.n)))
    case Visits =>
      DumpStartsWithHeader(visits);
      Dump(visits)
  }

  /**
   * `/hn` answers with the report of the top `n` stories (4 without `n`),
   * or of all of them when fewer are ranked, in rank order.
   */
  lemma HackerNewsResponse(req: Request, api: Api)
    requires req.pathname == HackerNewsPath
    ensures forall visits :: Respond(req, api, visits) == Render(TopStories(api, Limit(req.n)))
    ensures |TopStories(api, Limit(req.n))| == Min(req.n.GetOr(DefaultLimit), |api.topStories|)
  {
  }

  /**
   * Any other path answers with the dump of the entries read back from the
   * store, whatever the request asks for.
   */
  lemma VisitsResponse(req: Request, api: Api, visits: seq<(string, string)>)
    requires req.pathname != HackerNewsPath
    ensures Respond(req, api, visits) == Dump(visits)
    ensures forall api' :: Respond(req, api', visits) == Respond(req, api, visits)
    ensures visits == [] ==> Respond(req, api, visits) == DumpHeader
  {
  }

  /**
   * Any other path answers with the dump; when the entries read back hold
   * this visit's record, its `key: value` line is in the body.
   */
  lemma VisitShown(req: Request, api: Api, visits: seq<(string, string)>, i: nat, now: string)
    requires req.pathname != HackerNewsPath
    requires i < |visits| && visits[i] == VisitRecord(now, req.userAgent)
    ensures Dump(visits[..i + 1]) <= Respond(req, api, visits)
    ensures Dump(visits[..i + 1]) == Dump(visits[..i]) + "\n" + now + ": " + req.userAgent.GetOr(UnknownAgent)
  {
    VisitsResponse(req, api, visits);
    DumpPrefix(visits, i + 1);
    TakeOneMore(visits, i);
    DumpAppend(visits[..i], visits[i]);
  }

  /** A single story with link `http://x`, summary `D` and no comments. */
  lemma SingleStoryReport()
    ensures Render([Story("T", "http://x", "D", [])])
      == "=== Hacker News Top Stories ===\n\n1. T\n   http://x\n   D\n"
  {
    var s := Story("T", "http://x", "D", []);
    assert Decimal(1) == "1";
    assert Blocks([s], 1) == [Block(1, s)];
    assert CommentLines([]) == [];
  }

  /** The page whose only content is `<meta name="description" content="D">`. */
  const ExamplePage := "<meta name=\"description\" content=\"D\">"

  /** That page is summarised as `D`. */
  lemma ExamplePageSummary()
    ensures Summarize(ExamplePage) == "D"
  {
    var html := ExamplePage;
    var open := MetaDescription.open;
    assert html[..|open|] == open;
    assert LiteralAt(html, 0, open);
    assert html[|open| + 1..|open| + 2] == "\"";
    assert CloseAt(MetaDescription, html, |open|, 1);
    assert NoLineTerminator(html[|open|..|open| + 1]);
    assert MatchAt(MetaDescription, html, 0, 1);
    assert !CloseAt(MetaDescription, html, |open|, 0) by {
      QuoteAt(html, |open|);
    }
    assert IsFirstMatch(MetaDescription, html, 0, 1);
    var i: nat, k: nat :| IsFirstMatch(MetaDescription, html, i, k) && Summarize(html) == Capture(MetaDescription, html, i, k);
    FirstMatchUnique(MetaDescription, html, i, k, 0, 1);
    assert Capture(MetaDescription, html, 0, 1) == html[|open|..|open| + 1];
  }

  /**
   * End to end: `GET /hn?n=1` with one ranked story 42, titled `T` with link
   * `http://x` and no comments, whose page carries the meta description `D`.
   */
  lemma ExampleRequest()
    ensures Respond(Request("/hn", Some(1), None),
                    Api([42], _ => Item("T", Some("http://x"), Some([]), None), _ => Some(ExamplePage)),
                    [])
      == "=== Hacker News Top Stories ===\n\n1. T\n   http://x\n   D\n"
  {
    var api := Api([42], _ => Item("T", Some("http://x"), Some([]), None), _ => Some(ExamplePage));
    var stories := TopStories(api, 1);
    ExamplePageSummary();
    assert KidIds(api.item(42)) == [];
    assert stories == [BuildStory(42, api)];
    assert BuildStory(42, api) == Story("T", "http://x", "D", []);
    SingleStoryReport();
  }
}
