/**
 * Comment text as `fetchTopHNStories` renders it: `text.replace(/<[^>]*>/g, "")`,
 * then `"(no comment)"` when the text is absent or strips to "".
 */
module Tags {
  import opened Wrappers

  const NoComment := "(no comment)"

  /** No `<` in `s` has a `>` anywhere after it: nothing the tag pattern could match is left. */
  predicate TagFree(s: string) {
    forall i, j | 0 <= i < j < |s| :: !(s[i] == '<' && s[j] == '>')
  }

  /** `a` is `b` with some characters deleted. */
  ghost predicate IsSubsequence(a: string, b: string)
    decreases |b|
  {
    a == [] || (b != [] && ((a[0] == b[0] && IsSubsequence(a[1..], b[1..])) || IsSubsequence(a, b[1..])))
  }

  /** The position of the first `>` in `s`. */
  function FirstClose(s: string): (r: nat)
    requires '>' in s
    ensures r < |s| && s[r] == '>' && '>' !in s[..r]
  {
    if s[0] == '>' then 0 else
      assert '>' in s[1..];
      var r := 1 + FirstClose(s[1..]);
      assert s[..r] == [s[0]] + s[1..][..r - 1];
      r
  }

  /** The first `>` is the one with no `>` before it. */
  lemma FirstCloseAt(s: string, k: nat)
    requires k < |s| && s[k] == '>' && '>' !in s[..k]
    ensures FirstClose(s) == k
  {
    var r := FirstClose(s);
    forall j | 0 <= j < k
      ensures s[j] != '>'
    {
      assert s[j] == s[..k][j];
    }
    forall j | 0 <= j < r
      ensures s[j] != '>'
    {
      assert s[j] == s[..r][j];
    }
  }

  /**
   * The global tag replacement. Scanning left to right, a `<` with a `>`
   * somewhere after it starts a match that ends at the first such `>`, and
   * the whole match is deleted; every other character is kept.
   */
  function StripTags(s: string): (r: string)
    ensures |r| <= |s|
    ensures forall c | c in r :: c in s
    decreases |s|
  {
    if s == [] then []
    else if s[0] == '<' && '>' in s then StripTags(s[FirstClose(s) + 1..])
    else [s[0]] + StripTags(s[1..])
  }

  /** A subsequence of a suffix is a subsequence of the whole. */
  lemma {:induction false} SubsequenceOfSuffix(a: string, b: string, k: nat)
    requires k <= |b| && IsSubsequence(a, b[k..])
    ensures IsSubsequence(a, b)
    decreases k
  {
    if k > 0 {
      assert b[k - 1..][1..] == b[k..];
      SubsequenceOfSuffix(a, b, k - 1);
    }
  }

  /** Stripping only deletes characters: the output is a subsequence of the input. */
  lemma {:induction false} StripTagsIsSubsequence(s: string)
    ensures IsSubsequence(StripTags(s), s)
    decreases |s|
  {
    if s == [] {
    } else if s[0] == '<' && '>' in s {
      StripTagsIsSubsequence(s[FirstClose(s) + 1..]);
      SubsequenceOfSuffix(StripTags(s), s, FirstClose(s) + 1);
    } else {
      StripTagsIsSubsequence(s[1..]);
      assert ([s[0]] + StripTags(s[1..]))[1..] == StripTags(s[1..]);
    }
  }

  /** After stripping, no `<` is followed anywhere later by `>`. */
  lemma {:induction false} StripTagsIsTagFree(s: string)
    ensures TagFree(StripTags(s))
    decreases |s|
  {
    if s == [] {
    } else if s[0] == '<' && '>' in s {
      StripTagsIsTagFree(s[FirstClose(s) + 1..]);
    } else {
      var rest := StripTags(s[1..]);
      StripTagsIsTagFree(s[1..]);
      var r := [s[0]] + rest;
      forall i, j | 0 <= i < j < |r|
        ensures !(r[i] == '<' && r[j] == '>')
      {
        if i == 0 && s[0] == '<' {
          assert r[j] == rest[j - 1];
          assert rest[j - 1] in s[1..];
        } else if i > 0 {
          assert r[i] == rest[i - 1] && r[j] == rest[j - 1];
        }
      }
    }
  }

  /** Text with nothing to strip comes back unchanged. */
  lemma {:induction false} StripTagFreeUnchanged(s: string)
    requires TagFree(s)
    ensures StripTags(s) == s
    decreases |s|
  {
    if s != [] {
      assert TagFree(s[1..]) by {
        forall i, j | 0 <= i < j < |s[1..]|
          ensures !(s[1..][i] == '<' && s[1..][j] == '>')
        {
          assert s[1..][i] == s[i + 1] && s[1..][j] == s[j + 1];
        }
      }
      StripTagFreeUnchanged(s[1..]);
    }
  }

  /** Stripping leaves its input alone exactly when that input is tag-free. */
  lemma StripTagsFixpoint(s: string)
    ensures StripTags(s) == s <==> TagFree(s)
  {
    StripTagsIsTagFree(s);
    if TagFree(s) {
      StripTagFreeUnchanged(s);
    }
  }

  /** A tag at the very start is deleted through its `>`. */
  lemma StripLeadingTag(g: string, v: string)
    requires '>' !in g
    ensures StripTags("<" + g + ">" + v) == StripTags(v)
  {
    var s := "<" + g + ">" + v;
    assert s[..|g| + 1] == "<" + g;
    FirstCloseAt(s, |g| + 1);
    assert s[|g| + 2..] == v;
  }

  /**
   * One step of the global replace: a tag `<g>` whose inner text `g` holds no
   * `>`, reached with no `<` before it, is deleted, the text before it is
   * kept, and stripping goes on after its `>`.
   */
  lemma {:induction false} StripOneTag(u: string, g: string, v: string)
    requires '<' !in u && '>' !in g
    ensures StripTags(u + "<" + g + ">" + v) == u + StripTags(v)
    decreases |u|
  {
    var s := u + "<" + g + ">" + v;
    if u == [] {
      assert s == "<" + g + ">" + v;
      StripLeadingTag(g, v);
    } else {
      assert s[0] == u[0] && s[1..] == u[1..] + "<" + g + ">" + v;
      assert StripTags(s) == [u[0]] + StripTags(s[1..]);
      StripOneTag(u[1..], g, v);
      assert [u[0]] + (u[1..] + StripTags(v)) == u + StripTags(v);
    }
  }

  /** Stripping twice is stripping once. */
  lemma StripTagsIdempotent(s: string)
    ensures StripTags(StripTags(s)) == StripTags(s)
  {
    StripTagsIsTagFree(s);
    StripTagFreeUnchanged(StripTags(s));
  }

  /** Text with no `<`, or with no `>` after its first `<`, is returned unchanged. */
  lemma NothingToStrip(s: string)
    requires '<' !in s || exists f | 0 <= f < |s| :: s[f] == '<' && '<' !in s[..f] && '>' !in s[f + 1..]
    ensures StripTags(s) == s
  {
    if '<' in s {
      var f :| 0 <= f < |s| && s[f] == '<' && '<' !in s[..f] && '>' !in s[f + 1..];
      forall i, j | 0 <= i < j < |s| && s[i] == '<'
        ensures s[j] != '>'
      {
        assert s[j] == s[f + 1..][j - f - 1];
      }
    }
    StripTagFreeUnchanged(s);
  }

  /** `comment.text?.replace(/<[^>]*>/g, "") || "(no comment)"` */
  function RenderComment(text: Option<string>): (r: string)
    ensures r != []
    ensures TagFree(r)
    ensures text.None? ==> r == NoComment
    ensures text.Some? ==> r == if StripTags(text.value) == [] then NoComment else StripTags(text.value)
  {
    match text
    case None => NoComment
    case Some(t) =>
      var stripped := StripTags(t);
      StripTagsIsTagFree(t);
      if stripped == [] then NoComment else stripped
  }
}
