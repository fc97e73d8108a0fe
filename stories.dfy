/**
 * `fetchTopHNStories` with the network taken out. The Hacker News API and
 * the page fetch are given as an `Api` value; `Promise.all` over `map`
 * keeps the input order, so the fan-out is a sequential map here.
 */
module Stories {
  import opened Wrappers
  import opened Text
  import opened Tags
  import opened Summary

  /** The fields of a Hacker News item (story or comment) that the aggregator reads. */
  datatype Item = Item(title: string, url: Option<string>, kids: Option<seq<nat>>, text: Option<string>)

  /**
   * What the network answers: the ranked story ids, the item stored under
   * each id, and each page's HTML (`None` when fetching or reading it threw).
   */
  datatype Api = Api(topStories: seq<nat>, item: nat -> Item, page: string -> Option<string>)

  /** One story of the report. */
  datatype Story = Story(title: string, url: string, content: string, comments: seq<string>)

  const CommentsPerStory: nat := 3
  const ItemUrlPrefix := "https://news.ycombinator.com/item?id="

  function Min(a: nat, b: nat): nat {
    if a <= b then a else b
  }

  /** `s.slice(0, n)` with `n` a non-negative integer: the first `n` elements, or all of them. */
  function Take<T>(s: seq<T>, n: nat): (r: seq<T>)
    ensures |r| == Min(n, |s|)
    ensures r == s[..|r|]
  {
    if n <= |s| then s[..n] else s
  }

  /** `story.kids?.slice(0, 3) || []`: the ids of the comments to show. */
  function KidIds(story: Item): (r: seq<nat>)
    ensures |r| <= CommentsPerStory
    ensures story.kids.None? ==> r == []
    ensures story.kids.Some? ==> |r| == Min(CommentsPerStory, |story.kids.value|) && r == story.kids.value[..|r|]
  {
    match story.kids
    case None => []
    case Some(kids) => Take(kids, CommentsPerStory)
  }

  /** `story.url || "https://news.ycombinator.com/item?id=" + id` */
  function ResolveUrl(id: nat, url: Option<string>): (r: string)
    ensures r != []
    ensures url.Some? && url.value != [] ==> r == url.value
    ensures url.None? || url.value == [] ==> r == ItemUrlPrefix + Decimal(id)
  {
    if url.Some? && url.value != [] then url.value else ItemUrlPrefix + Decimal(id)
  }

  /** The discussion-page fallback names the story: its id reads back from the URL. */
  lemma FallbackUrlNamesStory(id: nat, url: Option<string>)
    requires url.None? || url.value == []
    ensures var r := ResolveUrl(id, url);
      && r[..|ItemUrlPrefix|] == ItemUrlPrefix
      && (forall i | |ItemUrlPrefix| <= i < |r| :: IsDigit(r[i]))
      && ParseDecimal(r[|ItemUrlPrefix|..]) == id
  {
    var r := ResolveUrl(id, url);
    assert r[|ItemUrlPrefix|..] == Decimal(id);
    DecimalRoundTrip(id);
  }

  /** Two stories without a link of their own never share a fallback URL. */
  lemma FallbackUrlsDistinct(id1: nat, id2: nat)
    requires ResolveUrl(id1, None) == ResolveUrl(id2, None)
    ensures id1 == id2
  {
    FallbackUrlNamesStory(id1, None);
    FallbackUrlNamesStory(id2, None);
  }

  /** The rendered comments, one per kid id and in the same order. */
  function RenderComments(kids: seq<nat>, item: nat -> Item): (r: seq<string>)
    ensures |r| == |kids|
    ensures forall j | 0 <= j < |kids| :: r[j] == RenderComment(item(kids[j]).text)
  {
    seq(|kids|, j requires 0 <= j < |kids| => RenderComment(item(kids[j]).text))
  }

  /**
   * The record `fetchTopHNStories` builds for one id: the item's title, the
   * resolved link, the summary of the page at that link, and the rendered
   * comments.
   */
  function BuildStory(id: nat, api: Api): (s: Story)
    ensures s.title == api.item(id).title
    ensures s.url == ResolveUrl(id, api.item(id).url)
    ensures s.content == ArticleContent(api.page(s.url))
    ensures |s.comments| <= CommentsPerStory
    ensures forall j | 0 <= j < |s.comments| :: s.comments[j] != [] && TagFree(s.comments[j])
  {
    var story := api.item(id);
    var url := ResolveUrl(id, story.url);
    Story(story.title, url, ArticleContent(api.page(url)), RenderComments(KidIds(story), api.item))
  }

  /**
   * A story without a link of its own shows its discussion page, and the
   * story's id reads back from that URL; the summary is that page's.
   */
  lemma StoryWithoutUrl(id: nat, api: Api)
    requires api.item(id).url.None? || api.item(id).url.value == []
    ensures var s := BuildStory(id, api);
      && s.url == ItemUrlPrefix + Decimal(id)
      && ParseDecimal(s.url[|ItemUrlPrefix|..]) == id
      && s.content == ArticleContent(api.page(ItemUrlPrefix + Decimal(id)))
  {
    FallbackUrlNamesStory(id, api.item(id).url);
  }

  /** The stories for `ids`, in the order of `ids`. */
  function BuildStories(ids: seq<nat>, api: Api): (r: seq<Story>)
    ensures |r| == |ids|
    ensures forall i | 0 <= i < |ids| :: r[i] == BuildStory(ids[i], api)
  {
    seq(|ids|, i requires 0 <= i < |ids| => BuildStory(ids[i], api))
  }

  /** `fetchTopHNStories(limit)`: one story per id among the first `limit` ranked ids, in rank order. */
  function TopStories(api: Api, limit: nat): (r: seq<Story>)
    ensures |r| == Min(limit, |api.topStories|)
    ensures forall i | 0 <= i < |r| :: r[i] == BuildStory(api.topStories[i], api)
  {
    BuildStories(Take(api.topStories, limit), api)
  }

  /**
   * The comments of the story for `id` are those of its first three kids,
   * rendered one by one and in order; a story without kids has none.
   */
  lemma StoryComments(id: nat, api: Api)
    ensures var kids := api.item(id).kids;
      var comments := BuildStory(id, api).comments;
      && (kids.None? ==> comments == [])
      && (kids.Some? ==> |comments| == Min(CommentsPerStory, |kids.value|))
      && (kids.Some? ==> forall j | 0 <= j < |comments| :: comments[j] == RenderComment(api.item(kids.value[j]).text))
  {
    var kids := api.item(id).kids;
    if kids.Some? {
      var shown := KidIds(api.item(id));
      forall j | 0 <= j < |shown|
        ensures shown[j] == kids.value[j]
      {
        assert shown[j] == kids.value[..|shown|][j];
      }
    }
  }

  /** Asking for fewer stories gives a prefix of the longer report's stories. */
  lemma TopStoriesMonotone(api: Api, m: nat, n: nat)
    requires m <= n
    ensures TopStories(api, m) <= TopStories(api, n)
  {
    var short, long := TopStories(api, m), TopStories(api, n);
    assert forall i | 0 <= i < |short| :: short[i] == long[i];
  }
}
