/**
 * The one regular-expression shape the summary extractor uses:
 * `/OPEN(.*?)CLOSE/i` with OPEN and CLOSE fixed literals, evaluated the way
 * `String.prototype.match` does without the `g` flag: the leftmost start at
 * which the pattern can match, and at that start the shortest capture.
 *
 * Case-insensitive comparison folds ASCII letters only. In a non-Unicode
 * JavaScript regular expression a non-ASCII character never folds onto an
 * ASCII one, so for ASCII literals this is exact. The capture `.` matches
 * every character except the four line terminators.
 */
module LazyPattern {
  import opened Wrappers

  /** OPEN(.*?)CLOSE, matched case-insensitively. */
  datatype Pattern = Pattern(open: string, close: string)

  function FoldAscii(c: char): char {
    if 'A' <= c <= 'Z' then (c as int - 'A' as int + 'a' as int) as char else c
  }

  predicate SameIgnoringCase(a: string, b: string) {
    |a| == |b| && forall i | 0 <= i < |a| :: FoldAscii(a[i]) == FoldAscii(b[i])
  }

  /** The characters `.` refuses to match. */
  predicate IsLineTerminator(c: char) {
    c == '\n' || c == '\r' || c == '\U{2028}' || c == '\U{2029}'
  }

  predicate NoLineTerminator(t: string) {
    forall i | 0 <= i < |t| :: !IsLineTerminator(t[i])
  }

  /** `lit` occurs, up to ASCII case, at position `j` of `s`. */
  predicate LiteralAt(s: string, j: nat, lit: string) {
    j + |lit| <= |s| && SameIgnoringCase(s[j..j + |lit|], lit)
  }

  /** CLOSE occurs `m` characters after position `j`. */
  predicate CloseAt(p: Pattern, s: string, j: nat, m: nat) {
    LiteralAt(s, j + m, p.close)
  }

  /** Starting at `j`, `(.*?)CLOSE` can match with a capture of length `k`. */
  predicate BodyAt(p: Pattern, s: string, j: nat, k: nat) {
    j + k <= |s| && NoLineTerminator(s[j..j + k]) && CloseAt(p, s, j, k)
  }

  /** Where the capture begins for a match starting at `i`. */
  function BodyStart(p: Pattern, i: nat): nat {
    i + |p.open|
  }

  /** The whole pattern matches at `i` with a capture of length `k`. */
  predicate MatchAt(p: Pattern, s: string, i: nat, k: nat) {
    LiteralAt(s, i, p.open) && BodyAt(p, s, BodyStart(p, i), k)
  }

  /** Some split of `s` matches the pattern. */
  ghost predicate Matches(p: Pattern, s: string) {
    exists i: nat, k: nat :: MatchAt(p, s, i, k)
  }

  /** `(i, k)` is the match JavaScript reports: leftmost start, shortest capture there. */
  ghost predicate IsFirstMatch(p: Pattern, s: string, i: nat, k: nat) {
    && MatchAt(p, s, i, k)
    && (forall i': nat, k': nat :: i' < i ==> !MatchAt(p, s, i', k'))
    && (forall k': nat :: k' < k ==> !MatchAt(p, s, i, k'))
  }

  /** The text captured by the group at the split `(i, k)`. */
  function Capture(p: Pattern, s: string, i: nat, k: nat): string
    requires MatchAt(p, s, i, k)
  {
    s[BodyStart(p, i)..BodyStart(p, i) + k]
  }

  /** The shortest capture length `>= k` with which the body matches at `j`, trying lengths in order. */
  function ShortestBody(p: Pattern, s: string, j: nat, k: nat): (r: Option<nat>)
    requires j + k <= |s| && NoLineTerminator(s[j..j + k])
    ensures r.Some? ==> r.value >= k && BodyAt(p, s, j, r.value)
    ensures r.Some? ==> forall k': nat :: k <= k' < r.value ==> !BodyAt(p, s, j, k')
    ensures r.None? ==> forall k': nat :: k <= k' ==> !BodyAt(p, s, j, k')
    decreases |s| - (j + k)
  {
    if LiteralAt(s, j + k, p.close) then Some(k)
    else if j + k < |s| && !IsLineTerminator(s[j + k]) then
      assert s[j..j + k + 1] == s[j..j + k] + [s[j + k]];
      ShortestBody(p, s, j, k + 1)
    else
      None
  }

  /** The first match at a start `>= i`, as `(start, capture length)`. */
  function FirstMatchFrom(p: Pattern, s: string, i: nat): (r: Option<(nat, nat)>)
    ensures r.Some? ==> i <= r.value.0 && MatchAt(p, s, r.value.0, r.value.1)
    ensures r.Some? ==> forall i': nat, k': nat :: i <= i' < r.value.0 ==> !MatchAt(p, s, i', k')
    ensures r.Some? ==> forall k': nat :: k' < r.value.1 ==> !MatchAt(p, s, r.value.0, k')
    ensures r.None? ==> forall i': nat, k': nat :: i <= i' ==> !MatchAt(p, s, i', k')
    decreases |s| - i
  {
    if i + |p.open| > |s| then
      None
    else if LiteralAt(s, i, p.open) then
      match ShortestBody(p, s, BodyStart(p, i), 0)
      case Some(k) => Some((i, k))
      case None =>
        assert forall k': nat :: !MatchAt(p, s, i, k');
        FirstMatchFrom(p, s, i + 1)
    else
      assert forall k': nat :: !MatchAt(p, s, i, k');
      FirstMatchFrom(p, s, i + 1)
  }

  /** `s.match(p)`: the first match's capture, or `None` when nothing matches. */
  function Find(p: Pattern, s: string): (r: Option<string>)
    ensures r.Some? <==> Matches(p, s)
    ensures r.Some? ==> exists i: nat, k: nat :: IsFirstMatch(p, s, i, k) && r.value == Capture(p, s, i, k)
  {
    match FirstMatchFrom(p, s, 0)
    case Some((i, k)) =>
      assert IsFirstMatch(p, s, i, k);
      Some(Capture(p, s, i, k))
    case None => None
  }

  /** There is only one first match. */
  lemma FirstMatchUnique(p: Pattern, s: string, i: nat, k: nat, i': nat, k': nat)
    requires IsFirstMatch(p, s, i, k) && IsFirstMatch(p, s, i', k')
    ensures i == i' && k == k'
  {
  }

  /**
   * The first capture holds no line terminator, and CLOSE does not begin
   * anywhere inside it: the capture stops at the first CLOSE after OPEN.
   */
  lemma CaptureStopsAtFirstClose(p: Pattern, s: string, i: nat, k: nat)
    requires IsFirstMatch(p, s, i, k)
    ensures NoLineTerminator(Capture(p, s, i, k))
    ensures forall m: nat :: m < k ==> !CloseAt(p, s, BodyStart(p, i), m)
  {
    var j := BodyStart(p, i);
    forall m: nat | m < k
      ensures !CloseAt(p, s, j, m)
    {
      assert s[j..j + m] == s[j..j + k][..m];
      assert !MatchAt(p, s, i, m);
    }
  }

  /** The first capture holds no complete occurrence of CLOSE. */
  lemma CaptureHasNoClose(p: Pattern, s: string, i: nat, k: nat)
    requires |p.close| > 0 && IsFirstMatch(p, s, i, k)
    ensures forall m: nat :: !LiteralAt(Capture(p, s, i, k), m, p.close)
  {
    var j := BodyStart(p, i);
    CaptureStopsAtFirstClose(p, s, i, k);
    var c := Capture(p, s, i, k);
    forall m: nat
      ensures !LiteralAt(c, m, p.close)
    {
      if LiteralAt(c, m, p.close) {
        LiteralInSlice(s, j, k, m, p.close);
        assert CloseAt(p, s, j, m);
      }
    }
  }

  /**
   * Whenever the pattern matches somewhere, `Find` reports a capture that
   * holds no line terminator and no complete occurrence of CLOSE.
   */
  lemma FoundCaptureShape(p: Pattern, s: string)
    requires |p.close| > 0 && Matches(p, s)
    ensures Find(p, s).Some?
    ensures NoLineTerminator(Find(p, s).value)
    ensures forall m: nat :: !LiteralAt(Find(p, s).value, m, p.close)
  {
    var c := Find(p, s).value;
    assert exists i: nat, k: nat :: IsFirstMatch(p, s, i, k) && c == Capture(p, s, i, k);
    var i: nat, k: nat :| IsFirstMatch(p, s, i, k) && c == Capture(p, s, i, k);
    CaptureStopsAtFirstClose(p, s, i, k);
    CaptureHasNoClose(p, s, i, k);
  }

  /** A literal found inside the slice `s[j..j + k]` is found in `s`, shifted by `j`. */
  lemma LiteralInSlice(s: string, j: nat, k: nat, m: nat, lit: string)
    requires j + k <= |s| && LiteralAt(s[j..j + k], m, lit)
    ensures LiteralAt(s, j + m, lit)
  {
    var inner, outer := s[j..j + k][m..m + |lit|], s[j + m..j + m + |lit|];
    assert forall t | 0 <= t < |lit| :: inner[t] == outer[t];
    assert inner == outer;
  }

  /**
   * A line terminator reached before any CLOSE rules out every match at
   * this start: `.` cannot step over it.
   */
  lemma LineBreakBlocksMatch(p: Pattern, s: string, i: nat, t: nat)
    requires LiteralAt(s, i, p.open)
    requires BodyStart(p, i) + t < |s| && IsLineTerminator(s[BodyStart(p, i) + t])
    requires forall m: nat :: m <= t ==> !CloseAt(p, s, BodyStart(p, i), m)
    ensures forall k: nat :: !MatchAt(p, s, i, k)
  {
  }
}
