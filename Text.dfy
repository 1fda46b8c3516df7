/** The string operations the injected page scripts rely on, written out over `seq<char>`:
    `String.prototype.indexOf`, the `/\/event\/([^?]+)/` match, `split('/')` followed by
    "last part", and `String.prototype.trim`. Each function computes its result the way the
    operation is defined; a lemma beside it states what the result means. */
module Text {
  import opened Common

  /** `pat` occurs in `s` starting at index `i`. */
  predicate OccursAt(s: string, pat: string, i: nat) {
    i + |pat| <= |s| && s[i..i + |pat|] == pat
  }

  /** The first index at or after `i` where `pat` occurs, or -1. */
  function IndexFrom(s: string, pat: string, i: nat): (r: int)
    ensures r == -1 || i <= r <= |s|
    decreases |s| - i
  {
    if i + |pat| > |s| then -1
    else if OccursAt(s, pat, i) then i
    else IndexFrom(s, pat, i + 1)
  }

  lemma {:induction false} IndexFromMeaning(s: string, pat: string, i: nat)
    ensures IndexFrom(s, pat, i) == -1 || OccursAt(s, pat, IndexFrom(s, pat, i))
    ensures IndexFrom(s, pat, i) == -1 ==> forall j: nat :: i <= j ==> !OccursAt(s, pat, j)
    ensures forall j: nat :: i <= j < IndexFrom(s, pat, i) ==> !OccursAt(s, pat, j)
    decreases |s| - i
  {
    if i + |pat| <= |s| && !OccursAt(s, pat, i) {
      IndexFromMeaning(s, pat, i + 1);
    }
  }

  /** JavaScript's `s.indexOf(pat)`. */
  function IndexOf(s: string, pat: string): (r: int)
    ensures -1 <= r <= |s|
  {
    IndexFrom(s, pat, 0)
  }

  /** `indexOf` returns -1 exactly when `pat` does not occur in `s`, and otherwise the
      first index where it occurs. */
  lemma IndexOfMeaning(s: string, pat: string)
    ensures IndexOf(s, pat) == -1 || OccursAt(s, pat, IndexOf(s, pat))
    ensures IndexOf(s, pat) == -1 <==> forall j: nat :: !OccursAt(s, pat, j)
    ensures forall j: nat :: j < IndexOf(s, pat) ==> !OccursAt(s, pat, j)
  {
    IndexFromMeaning(s, pat, 0);
  }

  const EventMarker: string := "/event/"

  /** The pattern `/\/event\/([^?]+)/` matches at index `i`: the marker is there and is
      followed by at least one character that is not `?`. */
  predicate MatchesAt(s: string, i: nat) {
    OccursAt(s, EventMarker, i) && i + |EventMarker| < |s| && s[i + |EventMarker|] != '?'
  }

  /** The leftmost match position at or after `i`. */
  function FirstMatchFrom(s: string, i: nat): (r: Option<nat>)
    ensures r.Some? ==> i <= r.value && MatchesAt(s, r.value)
    decreases |s| - i
  {
    if i >= |s| then None
    else if MatchesAt(s, i) then Some(i)
    else FirstMatchFrom(s, i + 1)
  }

  lemma {:induction false} FirstMatchFromMeaning(s: string, i: nat)
    ensures FirstMatchFrom(s, i).Some? ==> forall j: nat :: i <= j < FirstMatchFrom(s, i).value ==> !MatchesAt(s, j)
    ensures FirstMatchFrom(s, i).None? ==> forall j: nat :: i <= j ==> !MatchesAt(s, j)
    decreases |s| - i
  {
    if i < |s| && !MatchesAt(s, i) {
      FirstMatchFromMeaning(s, i + 1);
    }
  }

  /** The end of the longest run of characters other than `?` that starts at `i`
      (the greedy `[^?]+`). */
  function RunEnd(s: string, i: nat): (r: nat)
    requires i <= |s|
    ensures i <= r <= |s|
    decreases |s| - i
  {
    if i == |s| || s[i] == '?' then i else RunEnd(s, i + 1)
  }

  lemma {:induction false} RunEndMeaning(s: string, i: nat)
    requires i <= |s|
    ensures forall k :: i <= k < RunEnd(s, i) ==> s[k] != '?'
    ensures RunEnd(s, i) == |s| || s[RunEnd(s, i)] == '?'
    decreases |s| - i
  {
    if i < |s| && s[i] != '?' {
      RunEndMeaning(s, i + 1);
    }
  }

  /** The capture of a match at `i`: the greedy run after the marker. */
  function CaptureAt(href: string, i: nat): string
    requires MatchesAt(href, i)
  {
    href[i + |EventMarker|..RunEnd(href, i + |EventMarker|)]
  }

  /** The capture is a non-empty run without `?` right after the marker, and it ends at the
      end of the href or at a `?`. */
  lemma CaptureAtMeaning(href: string, i: nat)
    requires MatchesAt(href, i)
    ensures |CaptureAt(href, i)| > 0 && '?' !in CaptureAt(href, i)
    ensures OccursAt(href, EventMarker + CaptureAt(href, i), i)
    ensures var stop := i + |EventMarker| + |CaptureAt(href, i)|; stop == |href| || href[stop] == '?'
  {
    var start := i + |EventMarker|;
    var stop := RunEnd(href, start);
    RunEndMeaning(href, start);
    var r := href[start..stop];
    assert r == CaptureAt(href, i);
    assert href[i..start] == EventMarker;
    assert href[i..stop] == href[i..start] + href[start..stop];
    forall k | 0 <= k < |r| ensures r[k] != '?' {
      assert r[k] == href[start + k];
    }
  }

  /** `href.match(/\/event\/([^?]+)/)[1]`, or None when the pattern does not match. */
  function EventPath(href: string): Option<string> {
    match FirstMatchFrom(href, 0)
    case None => None
    case Some(i) => Some(CaptureAt(href, i))
  }

  /** `path` is what the pattern captures when its leftmost match is at `i`: the marker at `i`
      is followed by `path`, which runs up to the next `?` or the end of the href. */
  ghost predicate CapturedAt(href: string, path: string, i: nat) {
    && MatchesAt(href, i)
    && (forall j: nat :: j < i ==> !MatchesAt(href, j))
    && OccursAt(href, EventMarker + path, i)
    && (i + |EventMarker| + |path| == |href| || href[i + |EventMarker| + |path|] == '?')
  }

  /** The capture is None exactly when no position matches; otherwise it is the non-empty,
      `?`-free text after the leftmost `/event/` that is followed by a non-`?` character, and
      it runs up to the next `?` or the end of the href. */
  lemma EventPathMeaning(href: string)
    ensures EventPath(href).None? <==> forall j: nat :: !MatchesAt(href, j)
    ensures EventPath(href).Some? ==> |EventPath(href).value| > 0 && '?' !in EventPath(href).value
    ensures EventPath(href).Some? ==> exists i: nat :: CapturedAt(href, EventPath(href).value, i)
  {
    FirstMatchFromMeaning(href, 0);
    match FirstMatchFrom(href, 0)
    case None =>
    case Some(i) =>
      CaptureAtMeaning(href, i);
      assert CapturedAt(href, CaptureAt(href, i), i);
  }

  /** Where the last `/`-separated part of `s[..n]` starts: just after its last `/`, or 0. */
  function SegmentStart(s: string, n: nat): (r: nat)
    requires n <= |s|
    ensures r <= n
  {
    if n == 0 || s[n - 1] == '/' then n else SegmentStart(s, n - 1)
  }

  /** The part of `s[..n]` from `SegmentStart` on holds no `/`, and the character before it,
      if any, is a `/`. */
  lemma {:induction false} SegmentStartMeaning(s: string, n: nat)
    requires n <= |s|
    ensures forall i :: SegmentStart(s, n) <= i < n ==> s[i] != '/'
    ensures SegmentStart(s, n) > 0 ==> s[SegmentStart(s, n) - 1] == '/'
  {
    if n > 0 && s[n - 1] != '/' {
      SegmentStartMeaning(s, n - 1);
    }
  }

  /** `s.split('/')` followed by taking the last part. */
  function LastSegment(s: string): string {
    s[SegmentStart(s, |s|)..]
  }

  /** The last part is the longest suffix of `s` without `/`: a suffix without `/` that is
      the whole of `s` or is preceded by a `/`. */
  lemma LastSegmentMeaning(s: string)
    ensures |LastSegment(s)| <= |s| && LastSegment(s) == s[|s| - |LastSegment(s)|..]
    ensures '/' !in LastSegment(s)
    ensures |LastSegment(s)| < |s| ==> s[|s| - |LastSegment(s)| - 1] == '/'
  {
    var start := SegmentStart(s, |s|);
    SegmentStartMeaning(s, |s|);
    var r := s[start..];
    assert |s| - |r| == start;
    forall k | 0 <= k < |r| ensures r[k] != '/' {
      assert r[k] == s[start + k];
    }
  }

  /** The characters JavaScript's `trim` removes: WhiteSpace and LineTerminator of ECMA-262. */
  predicate IsJsSpace(c: char) {
    || c == ' ' || c == '\t' || c == '\n' || c == '\r'
    || c == '\U{B}' || c == '\U{C}' || c == '\U{A0}' || c == '\U{FEFF}' || c == '\U{1680}'
    || ('\U{2000}' <= c <= '\U{200A}')
    || c == '\U{2028}' || c == '\U{2029}' || c == '\U{202F}' || c == '\U{205F}' || c == '\U{3000}'
  }

  /** `s` with its leading white space removed. */
  function TrimStart(s: string): string {
    if s != [] && IsJsSpace(s[0]) then TrimStart(s[1..]) else s
  }

  lemma {:induction false} TrimStartMeaning(s: string)
    ensures |TrimStart(s)| <= |s| && TrimStart(s) == s[|s| - |TrimStart(s)|..]
    ensures TrimStart(s) != [] ==> !IsJsSpace(TrimStart(s)[0])
    ensures forall k :: 0 <= k < |s| - |TrimStart(s)| ==> IsJsSpace(s[k])
  {
    if s != [] && IsJsSpace(s[0]) {
      TrimStartMeaning(s[1..]);
      forall k | 1 <= k < |s| - |TrimStart(s)| ensures IsJsSpace(s[k]) {
        assert s[k] == s[1..][k - 1];
      }
    }
  }

  /** `s` with its trailing white space removed. */
  function TrimEnd(s: string): string {
    if s != [] && IsJsSpace(s[|s| - 1]) then TrimEnd(s[..|s| - 1]) else s
  }

  lemma {:induction false} TrimEndMeaning(s: string)
    ensures |TrimEnd(s)| <= |s| && TrimEnd(s) == s[..|TrimEnd(s)|]
    ensures TrimEnd(s) != [] ==> !IsJsSpace(TrimEnd(s)[|TrimEnd(s)| - 1])
    ensures forall k :: |TrimEnd(s)| <= k < |s| ==> IsJsSpace(s[k])
  {
    if s != [] && IsJsSpace(s[|s| - 1]) {
      TrimEndMeaning(s[..|s| - 1]);
      forall k | |TrimEnd(s)| <= k < |s| - 1 ensures IsJsSpace(s[k]) {
        assert s[k] == s[..|s| - 1][k];
      }
    }
  }

  /** `r` is the slice of `s` starting at `a`, and everything before and after it is white space. */
  predicate TrimmedAt(s: string, r: string, a: nat) {
    && a + |r| <= |s|
    && r == s[a..a + |r|]
    && (forall k :: 0 <= k < a ==> IsJsSpace(s[k]))
    && (forall k :: a + |r| <= k < |s| ==> IsJsSpace(s[k]))
  }

  /** JavaScript's `s.trim()`. */
  function Trim(s: string): string {
    TrimEnd(TrimStart(s))
  }

  /** `trim` returns a slice of `s` that neither starts nor ends with white space, and
      everything cut off on either side is white space. */
  lemma TrimMeaning(s: string)
    ensures Trim(s) != [] ==> !IsJsSpace(Trim(s)[0]) && !IsJsSpace(Trim(s)[|Trim(s)| - 1])
    ensures exists a: nat :: TrimmedAt(s, Trim(s), a)
  {
    var t := TrimStart(s);
    TrimStartMeaning(s);
    TrimEndMeaning(t);
    var r := TrimEnd(t);
    TrimSlices(s, t, r);
    if r != [] {
      assert r[0] == t[0];
    }
  }

  lemma TrimSlices(s: string, t: string, r: string)
    requires |t| <= |s| && t == s[|s| - |t|..]
    requires forall k :: 0 <= k < |s| - |t| ==> IsJsSpace(s[k])
    requires |r| <= |t| && r == t[..|r|]
    requires forall k :: |r| <= k < |t| ==> IsJsSpace(t[k])
    ensures TrimmedAt(s, r, |s| - |t|)
  {
    var a := |s| - |t|;
    forall k | a + |r| <= k < |s| ensures IsJsSpace(s[k]) {
      assert s[k] == t[k - a];
    }
  }
}
