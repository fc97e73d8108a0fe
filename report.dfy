/** The two plain-text bodies the server answers with. */
module Report {
  import opened Text
  import opened Stories

  const ReportHeader := "=== Hacker News Top Stories ===\n\n"
  const StorySeparator := "\n\n"
  const CommentBullet := "    - "
  const DumpHeader := "=== Saved User-Agents === could you see change?"

  /** `s.comments.map(c => "    - " + c)` */
  function CommentLines(comments: seq<string>): (r: seq<string>)
    ensures |r| == |comments|
    ensures forall j | 0 <= j < |r| :: r[j] == CommentBullet + comments[j]
  {
    seq(|comments|, j requires 0 <= j < |comments| => CommentBullet + comments[j])
  }

  /** The first three lines of a block: its number and title, then the link and the summary, indented. */
  function BlockHead(number: nat, s: Story): (r: string)
    ensures Decimal(number) + ". " + s.title + "\n" <= r
    ensures |r| == |Decimal(number)| + |s.title| + |s.url| + |s.content| + 11
    ensures r[|r| - 1] == '\n'
  {
    Decimal(number) + ". " + s.title + "\n   " + s.url + "\n   " + s.content + "\n"
  }

  /** The block for the story numbered `number`: its head, then one bullet line per comment. */
  function Block(number: nat, s: Story): (r: string)
    ensures BlockHead(number, s) <= r
    ensures s.comments == [] ==> r == BlockHead(number, s)
    ensures s.comments != [] ==> BlockHead(number, s) + CommentBullet + s.comments[0] <= r
  {
    BlockHead(number, s) + Join(CommentLines(s.comments), "\n")
  }

  /** The blocks of `stories`, numbered from `first` on. */
  function Blocks(stories: seq<Story>, first: nat): (r: seq<string>)
    ensures |r| == |stories|
    ensures forall i | 0 <= i < |r| :: r[i] == Block(first + i, stories[i])
  {
    seq(|stories|, i requires 0 <= i < |stories| => Block(first + i, stories[i]))
  }

  /** The `/hn` body: the header, then the stories' blocks numbered from 1 and separated by a blank line. */
  function Render(stories: seq<Story>): (r: string)
    ensures stories == [] ==> r == ReportHeader
    ensures stories != [] ==> ReportHeader + Block(1, stories[0]) <= r
  {
    ReportHeader + Join(Blocks(stories, 1), StorySeparator)
  }

  /** A block opens with `"<number>. "` and the title, and a story without comments ends its block with a newline. */
  lemma BlockShape(number: nat, s: Story)
    ensures Decimal(number) + ". " + s.title + "\n" <= Block(number, s)
    ensures s.comments == [] ==> Block(number, s) == BlockHead(number, s)
    ensures s.comments == [] ==> Block(number, s)[|Block(number, s)| - 1] == '\n'
  {
    var prefix := Decimal(number) + ". " + s.title + "\n";
    assert BlockHead(number, s) == prefix + ("   " + s.url + "\n   " + s.content + "\n");
  }

  lemma BlockHeadSplit(number: nat, s: Story)
    ensures BlockHead(number, s)
      == (Decimal(number) + ". " + s.title + "\n") + (("   " + s.url + "\n") + ("   " + s.content + "\n"))
  {
  }

  /** After the number and title line, a block's next two lines are the link and the summary, indented by three spaces. */
  lemma BlockLines(number: nat, s: Story)
    ensures var k := |Decimal(number)| + |s.title| + 3;
      && k + |s.url| + 4 <= |Block(number, s)|
      && "   " + s.url + "\n" <= Block(number, s)[k..]
      && "   " + s.content + "\n" <= Block(number, s)[k + |s.url| + 4..]
  {
    var titleLine := Decimal(number) + ". " + s.title + "\n";
    var urlLine, contentLine := "   " + s.url + "\n", "   " + s.content + "\n";
    BlockHeadSplit(number, s);
    ThreeLines(titleLine, urlLine, contentLine, Block(number, s));
  }

  lemma UrlLine(number: nat, s: Story, title: string, url: string)
    requires s.title == title && s.url == url
    ensures var k := |Decimal(number)| + |title| + 3;
      k <= |Block(number, s)| && "   " + url + "\n" <= Block(number, s)[k..]
  {
    BlockLines(number, s);
  }

  /**
   * The block of a story without a link of its own shows, as its second
   * line, the discussion page `https://news.ycombinator.com/item?id=<id>`.
   */
  lemma StoryWithoutUrlBlock(number: nat, id: nat, api: Api)
    requires api.item(id).url.None? || api.item(id).url.value == []
    ensures var k := |Decimal(number)| + |api.item(id).title| + 3;
      k <= |Block(number, BuildStory(id, api))|
      && "   " + (ItemUrlPrefix + Decimal(id)) + "\n" <= Block(number, BuildStory(id, api))[k..]
  {
    UrlLine(number, BuildStory(id, api), api.item(id).title, ItemUrlPrefix + Decimal(id));
  }

  /** One more comment adds one more bullet line after the others. */
  lemma {:induction false} CommentAppended(number: nat, s: Story, c: string)
    ensures s.comments != [] ==>
      Block(number, s.(comments := s.comments + [c])) == Block(number, s) + "\n" + CommentBullet + c
    ensures s.comments == [] ==>
      Block(number, s.(comments := s.comments + [c])) == Block(number, s) + CommentBullet + c
  {
    var lines := CommentLines(s.comments);
    var longer := CommentLines(s.comments + [c]);
    assert longer == lines + [CommentBullet + c];
    JoinAppend(lines, CommentBullet + c, "\n");
    var head := BlockHead(number, s);
    if lines != [] {
      AppendLine(head, Join(lines, "\n"), "\n", CommentBullet, c);
    }
  }

  /** One more story adds one more block, numbered after the others. */
  lemma BlocksAppend(stories: seq<Story>, s: Story, first: nat)
    ensures Blocks(stories + [s], first) == Blocks(stories, first) + [Block(first + |stories|, s)]
  {
    var longer, extended := Blocks(stories + [s], first), Blocks(stories, first) + [Block(first + |stories|, s)];
    forall i | 0 <= i < |longer|
      ensures longer[i] == extended[i]
    {
      if i < |stories| {
        assert (stories + [s])[i] == stories[i];
      }
    }
  }

  /**
   * The report of no stories is the header alone; one more story adds its
   * block, numbered after the others, behind a blank line.
   */
  lemma {:induction false} RenderAppend(stories: seq<Story>, s: Story)
    ensures Render([]) == ReportHeader
    ensures stories == [] ==> Render(stories + [s]) == ReportHeader + Block(1, s)
    ensures stories != [] ==> Render(stories + [s]) == Render(stories) + StorySeparator + Block(|stories| + 1, s)
  {
    var blocks, last := Blocks(stories, 1), Block(|stories| + 1, s);
    BlocksAppend(stories, s, 1);
    JoinAppend(blocks, last, StorySeparator);
    Associate(ReportHeader, Join(blocks, StorySeparator), StorySeparator, last);
  }

  lemma RenderExtends(stories: seq<Story>, s: Story)
    ensures Render(stories) <= Render(stories + [s])
  {
    RenderAppend(stories, s);
  }

  /** The report for the first `k` stories is a prefix of the report for all of them. */
  lemma {:induction false} RenderPrefix(stories: seq<Story>, k: nat)
    requires k <= |stories|
    ensures Render(stories[..k]) <= Render(stories)
    decreases |stories| - k
  {
    if k < |stories| {
      RenderPrefix(stories, k + 1);
      TakeOneMore(stories, k);
      RenderExtends(stories[..k], stories[k]);
      PrefixTransitive(Render(stories[..k]), Render(stories[..k + 1]), Render(stories));
    } else {
      assert stories[..k] == stories;
    }
  }

  lemma TakeOneMore<T>(s: seq<T>, k: nat)
    requires k < |s|
    ensures s[..k + 1] == s[..k] + [s[k]]
  {
  }

  /** The second and third of three leading pieces of `text`, found at their offsets. */
  lemma ThreeLines(first: string, second: string, third: string, text: string)
    requires first + (second + third) <= text
    ensures |first| + |second| + |third| <= |text|
    ensures second <= text[|first|..]
    ensures third <= text[|first| + |second|..]
  {
    PrefixDrop(first, second + third, text);
    PrefixDrop(second, third, text[|first|..]);
    PrefixTransitive(second, second + third, text[|first|..]);
    assert text[|first|..][|second|..] == text[|first| + |second|..];
  }

  lemma Associate(a: string, b: string, c: string, d: string)
    ensures a + (b + c + d) == a + b + c + d
  {
  }

  lemma AppendLine(head: string, body: string, sep: string, bullet: string, c: string)
    ensures head + (body + sep + (bullet + c)) == head + body + sep + bullet + c
  {
  }

  lemma PrefixDrop(a: string, b: string, c: string)
    requires a + b <= c
    ensures |a| <= |c| && b <= c[|a|..]
  {
    assert c[|a|..][..|b|] == (a + b)[|a|..];
  }

  lemma PrefixTransitive(a: string, b: string, c: string)
    requires a <= b && b <= c
    ensures a <= c
  {
    assert a == b[..|a|] && b == c[..|b|];
  }

  /** `key + ": " + value` */
  function EntryLine(entry: (string, string)): (r: string)
    ensures entry.0 + ": " <= r
    ensures |r| == |entry.0| + 2 + |entry.1| && r[|entry.0| + 2..] == entry.1
  {
    entry.0 + ": " + entry.1
  }

  function EntryLines(entries: seq<(string, string)>): (r: seq<string>)
    ensures |r| == |entries|
    ensures forall i | 0 <= i < |r| :: r[i] == EntryLine(entries[i])
  {
    seq(|entries|, i requires 0 <= i < |entries| => EntryLine(entries[i]))
  }

  /** The visit dump: the header line, then one `key: value` line per entry, in the order given. */
  function Dump(entries: seq<(string, string)>): (r: string)
    ensures entries == [] ==> r == DumpHeader
    ensures entries != [] ==> DumpHeader + "\n" + EntryLine(entries[0]) <= r
  {
    Join([DumpHeader] + EntryLines(entries), "\n")
  }

  /** The dump of no entries is the header, and each further entry adds one line at the end. */
  lemma {:induction false} DumpAppend(entries: seq<(string, string)>, e: (string, string))
    ensures Dump([]) == DumpHeader
    ensures Dump(entries + [e]) == Dump(entries) + "\n" + EntryLine(e)
  {
    assert [DumpHeader] + EntryLines(entries + [e]) == ([DumpHeader] + EntryLines(entries)) + [EntryLine(e)];
    JoinAppend([DumpHeader] + EntryLines(entries), EntryLine(e), "\n");
  }

  /** The dump always opens with the header line. */
  lemma DumpStartsWithHeader(entries: seq<(string, string)>)
    ensures DumpHeader <= Dump(entries)
  {
    var lines := [DumpHeader] + EntryLines(entries);
    if |lines| > 1 {
      assert Dump(entries) == DumpHeader + "\n" + Join(lines[1..], "\n");
    }
  }

  /** The dump of the first `k` entries is a prefix of the dump of all of them. */
  lemma {:induction false} DumpPrefix(entries: seq<(string, string)>, k: nat)
    requires k <= |entries|
    ensures Dump(entries[..k]) <= Dump(entries)
    decreases |entries| - k
  {
    if k < |entries| {
      DumpPrefix(entries, k + 1);
      assert entries[..k + 1] == entries[..k] + [entries[k]];
      DumpAppend(entries[..k], entries[k]);
    } else {
      assert entries[..k] == entries;
    }
  }
}
