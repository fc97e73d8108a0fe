# hndn: the string logic of the Hacker News digest server

`main.ts` is a small Deno server. On `/hn` it fetches the top Hacker News stories, up to three comments per story, and a short summary scraped from each story's page, and renders them as a plain-text report. On every other path it records the visitor's user agent under a timestamp key in a Redis store and dumps the whole store. The network, the store and the runtime only feed and consume a layer of pure string logic. That layer is modelled here as Dafny functions over `string` (`seq<char>`), with lemmas about it:

- `LazyPattern` is the one regular-expression shape the summary extractor uses, `/OPEN(.*?)CLOSE/i`. It is a scanner for the leftmost start and the shortest capture, specified against an "exists a split" predicate (`MatchAt`, `IsFirstMatch`).
- `Summary` is `fetchArticleContent` without the fetch. It tries the meta description first, then the first paragraph, then the placeholder `"(content not found)"`. A failed fetch gives `"(failed to fetch content)"`.
- `Tags` is the global tag removal `replace(/<[^>]*>/g, "")` and the `"(no comment)"` fallback.
- `Stories` is `fetchTopHNStories` with the Hacker News API given as an `Api` value: the ranked ids, an item for every id, and the page (or a fetch failure) for every URL. It covers story selection, the first three kids, URL resolution and the sequential equivalent of `Promise.all` over `map`.
- `Report` renders the `/hn` report and the visit dump.
- `Server` holds the handler: routing on the pathname, the default limit of 4, the record written for a visit, and the worked example of a `/hn` request.
- `Text` holds `Array.prototype.join`, the decimal rendering of an id or a story number, and its inverse.
- `Wrappers` holds `Option`, which stands in for `undefined`.

Modelling decisions:

- Case-insensitive matching folds ASCII letters only. A non-Unicode JavaScript regular expression never folds a non-ASCII character onto an ASCII one, so this is exact for the two ASCII patterns.
- `.` matches every character except `\n`, `\r`, U+2028 and U+2029.
- Strings are sequences of Unicode scalar values, where JavaScript uses UTF-16 code units. No result changes: the literals are ASCII, and `.` accepts both halves of a surrogate pair.
- Ids are `nat`. For an integer below 10^21, which covers every Hacker News id, `${id}` is its plain decimal digits (see "Left out" for larger numbers).

One behaviour described for the repository differs from its code: a non-numeric `n` is said to fall back to the default of 4. In the code, `parseInt` yields `NaN`, which is passed on to `ids.slice(0, NaN)`: the report then holds no stories at all. The model takes `n` already parsed (see "Left out"); a non-numeric `n` behaves as `Limit(Some(0))` does, because `slice(0, NaN)` is `slice(0, 0)`.

## Model

| member | source | states |
|---|---|---|
| `Text.Join` | main.ts:58-60 | `Array.prototype.join`: no parts give "", and the first part opens the result |
| `Text.JoinLength` | main.ts:58-60 | the joined text is as long as all parts plus one separator between each two neighbours |
| `Text.JoinAppend` | main.ts:57-60 | joining one more part appends the separator and that part and leaves everything before it unchanged; a single part joins to itself |
| `Text.Decimal` | main.ts:37 | the rendering of a number is a non-empty run of decimal digits with no leading zero |
| `Text.DecimalRoundTrip` | main.ts:37 | reading the decimal rendering back gives the number |
| `Text.DecimalInjective` | main.ts:37 | distinct numbers render as distinct strings |
| `LazyPattern.ShortestBody` | main.ts:15 | the lazy `(.*?)CLOSE` step: the shortest capture length from `k` on whose text has no line terminator and is followed by CLOSE, or none when no length works |
| `LazyPattern.FirstMatchFrom` | main.ts:15 | the leftmost start at or after `i` where the pattern matches, with the shortest capture there; none exactly when no start from `i` on matches |
| `LazyPattern.Find` | main.ts:15-17 | `String.prototype.match`: a capture exactly when some split matches, and then the capture of the first match (leftmost start, shortest capture) |
| `LazyPattern.FirstMatchUnique` | main.ts:15-17 | the first match is unique |
| `LazyPattern.CaptureStopsAtFirstClose` | main.ts:15-17 | the first capture has no line terminator, and CLOSE starts nowhere inside it |
| `LazyPattern.CaptureHasNoClose` | main.ts:15-17 | for a non-empty CLOSE, the first capture holds no complete case-insensitive occurrence of CLOSE |
| `LazyPattern.FoundCaptureShape` | main.ts:15-17 | whenever the pattern matches, `Find` returns a capture without line terminators and without CLOSE |
| `LazyPattern.LineBreakBlocksMatch` | main.ts:15 | a line terminator reached before any CLOSE rules out every match at that start |
| `Summary.Summarize` | main.ts:15-18 | the first meta-description capture when the page has one, whatever precedes it; else the first paragraph's capture; else exactly `"(content not found)"` |
| `Summary.ArticleContent` | main.ts:11-21 | a failed fetch gives `"(failed to fetch content)"`; a fetched page gives its summary |
| `Summary.QuoteAt` | main.ts:15 | the closing literal of the meta pattern matches exactly the character `"` |
| `Summary.MetaDescriptionShape` | main.ts:15-16 | a summary taken from the meta description contains no `"` and no line terminator |
| `Summary.LineBreakBeforeQuote` | main.ts:15 | a meta prefix whose text reaches a line terminator before any `"` gives no match at that position |
| `Summary.ParagraphShape` | main.ts:17-18 | without a meta description, a summary taken from a paragraph has no line terminator and no `</p>` in any letter case |
| `Tags.FirstClose` | main.ts:34 | the position of the first `>`, with no `>` before it |
| `Tags.StripTags` | main.ts:34 | stripping never lengthens the text and introduces no character that was not in it |
| `Tags.StripTagsIsSubsequence` | main.ts:34 | stripping only deletes: the output is a subsequence of the input |
| `Tags.StripTagsIsTagFree` | main.ts:34 | no `<` in the output is followed anywhere later by `>` |
| `Tags.StripTagFreeUnchanged` | main.ts:34 | text with no `<` followed later by `>` is returned unchanged |
| `Tags.StripTagsFixpoint` | main.ts:34 | stripping returns its input exactly when the input is tag-free |
| `Tags.StripTagsIdempotent` | main.ts:34 | stripping twice equals stripping once |
| `Tags.StripOneTag` | main.ts:34 | one step of the replace: with no `<` before it, the first `<` whose following text reaches a `>` is deleted through that first `>`, the text before it is kept unchanged, and stripping continues after it; with `StripTagFreeUnchanged` this fixes the result on every input |
| `Tags.NothingToStrip` | main.ts:34 | text with no `<`, or with no `>` after its first `<`, is returned unchanged |
| `Tags.RenderComment` | main.ts:34 | a rendered comment is never empty and is tag-free; absent text, and text that strips to "", give exactly `"(no comment)"`; otherwise the stripped text |
| `Stories.Take` | main.ts:26 | `slice(0, n)`: the first min(n, length) elements, in order |
| `Stories.KidIds` | main.ts:32 | at most three kid ids: the first min(3, length) kids in order, or none when `kids` is absent |
| `Stories.ResolveUrl` | main.ts:37 | a non-empty `url` is used as is; otherwise the link is `https://news.ycombinator.com/item?id=` followed by the decimal id |
| `Stories.FallbackUrlNamesStory` | main.ts:37 | the id can be read back from a fallback discussion URL |
| `Stories.FallbackUrlsDistinct` | main.ts:37 | two stories never share a fallback URL |
| `Stories.RenderComments` | main.ts:31-36 | one rendered comment per kid id, in the kids' order |
| `Stories.BuildStory` | main.ts:29-45 | a story carries the item's title, the resolved link and the summary of the page at that link (or the fetch-failure text); it has at most three comments, each non-empty and tag-free |
| `Stories.StoryWithoutUrl` | main.ts:37-38 | a story without a link of its own shows `https://news.ycombinator.com/item?id=<id>`, its id reads back from that URL, and its summary is that page's |
| `Stories.BuildStories` | main.ts:28-46 | one story per id, in the order of the ids |
| `Stories.TopStories` | main.ts:24-49 | exactly min(limit, number of ranked ids) stories, the i-th built from the i-th ranked id |
| `Stories.StoryComments` | main.ts:32-36 | a story's comments correspond one to one, in order, to its first min(3, kids) kids; absent `kids` gives no comments |
| `Stories.TopStoriesMonotone` | main.ts:26 | a smaller limit gives a prefix of the stories a larger limit gives |
| `Report.CommentLines` | main.ts:58 | one `"    - "` line per comment, in order |
| `Report.BlockHead` | main.ts:59 | the head of a block opens with `"<number>. "`, the title and a newline, has the fixed length of its three indented lines, and ends in a newline |
| `Report.Block` | main.ts:58-59 | a block opens with its head; without comments it is the head alone, otherwise the head is followed by the first comment's bullet line |
| `Report.BlockLines` | main.ts:59 | after the number and title line, the block's next two lines are `"   "` plus the link and `"   "` plus the summary, each ending in a newline |
| `Report.StoryWithoutUrlBlock` | main.ts:59 | the block of a story without a link of its own shows `"   https://news.ycombinator.com/item?id=<id>"` as its second line |
| `Report.Blocks` | main.ts:57-60 | one block per story, in order, the i-th numbered `first + i` |
| `Report.BlocksAppend` | main.ts:57-60 | one more story adds one more block at the end, numbered after the others |
| `Report.BlockShape` | main.ts:59 | a block opens with `"<number>. "` and the title; a story without comments gives a block ending in a newline |
| `Report.CommentAppended` | main.ts:58-59 | one more comment adds exactly one bullet line at the end of its block |
| `Report.Render` | main.ts:57-62 | the report of no stories is the header alone; otherwise the header is followed by story 1's block |
| `Report.RenderAppend` | main.ts:57-62 | the report of no stories is the header alone; one more story adds its block, numbered after the others, behind `"\n\n"` |
| `Report.RenderPrefix` | main.ts:57-62 | the report for the first k stories is a prefix of the full report |
| `Report.EntryLine` | main.ts:74 | an entry's line is its key, `": "`, then its value |
| `Report.EntryLines` | main.ts:72-75 | one `key: value` line per entry, in the order given |
| `Report.Dump` | main.ts:77-80 | the dump of no entries is the header line alone; otherwise the header line is followed by a newline and the first entry's line |
| `Report.DumpAppend` | main.ts:77-80 | the dump of no entries is the header line; each further entry adds one line at the end |
| `Report.DumpStartsWithHeader` | main.ts:77-80 | the dump always opens with its header line |
| `Report.DumpPrefix` | main.ts:77-80 | the dump of the first k entries is a prefix of the full dump |
| `Server.RouteOf` | main.ts:54 | the report is selected exactly when the pathname is `/hn` |
| `Server.Limit` | main.ts:55-56 | a missing `n` means 4 stories |
| `Server.VisitRecord` | main.ts:67-69 | a visit is stored under its timestamp, with the user agent or `"unknown"` as the value |
| `Server.Respond` | main.ts:51-87 | the `/hn` body opens with the report header; any other path's body opens with the dump header |
| `Server.HackerNewsResponse` | main.ts:54-62 | `/hn` answers with the report of the first `n` (default 4) ranked stories, or of all of them when fewer are ranked |
| `Server.VisitsResponse` | main.ts:67-82 | every path other than `/hn` answers with exactly the dump of the entries read back, whatever the Hacker News API holds; no entries give the header line alone |
| `Server.VisitShown` | main.ts:67-80 | when the entries read back contain this visit's record, its `timestamp: user-agent` line is in the body |
| `Server.SingleStoryReport` | main.ts:57-62 | the one story (T, http://x, D, no comments) renders exactly as `"=== Hacker News Top Stories ===\n\n1. T\n   http://x\n   D\n"` |
| `Server.ExamplePageSummary` | main.ts:15-16 | the page `<meta name="description" content="D">` is summarised as `D` |
| `Server.ExampleRequest` | main.ts:51-64 | `GET /hn?n=1` over a single ranked story 42 with that page gives exactly the body above |

## Left out

- Fetching is left out: the top-story list, the items, the pages and their JSON decoding (main.ts:13-14, 25, 30, 33). These are network I/O, so the model takes the ranked ids, the item records and each page's outcome as inputs (`Api`). An item that comes back `null`, so that reading its fields throws, is not modelled.
- `Promise.all` fan-out (main.ts:28, 31, 72) is concurrency. Its only observable effect is an order-preserving `map`, which is how it is modelled.
- `parseInt` of `n` and `slice` with `NaN` or a negative limit (main.ts:55, 26) follow JavaScript number semantics. `n` is taken as an optional `nat`.
- An `undefined` title renders as `"undefined"` in JavaScript. That is JavaScript-specific, so the title is a string.
- The Redis client is left out: `set`, `keys` and `get` (main.ts:4-7, 69-73). It is a foreign remote store with an unspecified key order. The dump is rendered from a given sequence of pairs, and a `null` value from `get` is not modelled.
- `new Date().toISOString()`, `Deno.env`, and the construction of `Deno.serve` and `Response` are left out. They are clock, environment and runtime plumbing: the timestamp is a parameter, and headers and content type are not modelled.
- src/main.ts is not part of this model. It is an older visit logger made only of Redis calls around the same header-and-entries join.
- Text.Decimal: renders every `nat` as plain decimal digits. JavaScript writes numbers of 10^21 and above in exponent form and holds integers above 2^53 only approximately, so the model agrees with `${id}` only below those bounds. Hacker News ids are far below both.
- A general regular-expression engine is not modelled. Only the shape `/OPEN(.*?)CLOSE/i` of the two summary patterns, and the tag pattern, are.
