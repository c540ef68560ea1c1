/** Video identity: the identifier the playback store extracts from a
    YouTube-family link, and the embed URL the mini player builds from it.

    The extractor is the unanchored regular expression
      (?:youtu\.be\/|youtube\.com\/watch\?v=|youtube\.com\/embed\/|music\.youtube\.com\/watch\?v=)([^&?\s]+)
    written out as a search: the leftmost position at which one of the four
    prefixes is followed by at least one identifier character, the first such
    prefix at that position, and the longest run of identifier characters
    after it. */
module YouTube {
  import opened Records
  import opened Text

  /** JavaScript's `\s`: the ECMAScript white space and line terminators. */
  predicate IsJsWhitespace(c: char) {
    c == ' ' || c == '\t' || c == '\n' || c == '\r' || c == '\U{000B}' || c == '\U{000C}'
    || c == '\U{00A0}' || c == '\U{1680}' || ('\U{2000}' <= c <= '\U{200A}')
    || c == '\U{2028}' || c == '\U{2029}' || c == '\U{202F}' || c == '\U{205F}'
    || c == '\U{3000}' || c == '\U{FEFF}'
  }

  /** A character of the class `[^&?\s]`. */
  predicate IsIdChar(c: char) {
    c != '&' && c != '?' && !IsJsWhitespace(c)
  }

  /** A string the capture group can produce: non-empty, identifier characters only. */
  predicate ValidId(id: string) {
    |id| > 0 && forall i :: 0 <= i < |id| ==> IsIdChar(id[i])
  }

  /** The four alternatives of the non-capturing group, in the order they are tried. */
  const Prefixes: seq<string> :=
    ["youtu.be/", "youtube.com/watch?v=", "youtube.com/embed/", "music.youtube.com/watch?v="]

  /** The regular expression can match at `i` through alternative `k`. */
  predicate MatchesAt(s: string, i: nat, k: nat)
    requires k < |Prefixes|
  {
    StartsAt(s, i, Prefixes[k]) && i + |Prefixes[k]| < |s| && IsIdChar(s[i + |Prefixes[k]|])
  }

  /** Length of the longest run of identifier characters starting at `j`. */
  function IdRun(s: string, j: nat): (n: nat)
    requires j <= |s|
    ensures j + n <= |s|
    ensures forall m :: j <= m < j + n ==> IsIdChar(s[m])
    ensures j + n == |s| || !IsIdChar(s[j + n])
    decreases |s| - j
  {
    if j < |s| && IsIdChar(s[j]) then 1 + IdRun(s, j + 1) else 0
  }

  /** The alternative the regular expression takes at position `i`, if any. */
  function AlternativeAt(s: string, i: nat): (k: Option<nat>)
    ensures k.Some? ==> k.value < |Prefixes| && MatchesAt(s, i, k.value)
    ensures k.Some? ==> forall k' :: 0 <= k' < k.value ==> !MatchesAt(s, i, k')
    ensures k.None? ==> forall k' :: 0 <= k' < |Prefixes| ==> !MatchesAt(s, i, k')
  {
    if MatchesAt(s, i, 0) then Some(0)
    else if MatchesAt(s, i, 1) then Some(1)
    else if MatchesAt(s, i, 2) then Some(2)
    else if MatchesAt(s, i, 3) then Some(3)
    else None
  }

  /** The capture group's text for a match at `i` through alternative `k`. */
  function Capture(s: string, i: nat, k: nat): (id: string)
    requires k < |Prefixes| && MatchesAt(s, i, k)
    ensures ValidId(id)
    ensures i + |Prefixes[k]| + |id| <= |s|
    ensures id == s[i + |Prefixes[k]|..i + |Prefixes[k]| + |id|]
    ensures i + |Prefixes[k]| + |id| == |s| || !IsIdChar(s[i + |Prefixes[k]| + |id|])
  {
    var j := i + |Prefixes[k]|;
    s[j..j + IdRun(s, j)]
  }

  /** The position and alternative of the regular expression's match when the
      search starts at `i`: the leftmost position, and at it the first
      alternative that matches. */
  function FindMatch(s: string, i: nat): (r: Option<(nat, nat)>)
    ensures r.Some? ==> i <= r.value.0 < |s| && r.value.1 < |Prefixes| && MatchesAt(s, r.value.0, r.value.1)
    ensures r.Some? ==> forall j, k' :: i <= j < r.value.0 && 0 <= k' < |Prefixes| ==> !MatchesAt(s, j, k')
    ensures r.Some? ==> forall k' :: 0 <= k' < r.value.1 ==> !MatchesAt(s, r.value.0, k')
    ensures r.None? ==> forall j, k' :: i <= j < |s| && 0 <= k' < |Prefixes| ==> !MatchesAt(s, j, k')
    decreases |s| - i
  {
    if i >= |s| then None
    else match AlternativeAt(s, i)
      case Some(k) => Some((i, k))
      case None => FindMatch(s, i + 1)
  }

  /** `extractYouTubeId`: null for a falsy URL, otherwise the capture of the
      first match, or null when there is none. */
  function ExtractYouTubeId(url: Option<string>): (r: Option<string>)
    ensures !Truthy(url) ==> r.None?
    ensures r.Some? ==> ValidId(r.value)
  {
    if !Truthy(url) then None
    else match FindMatch(url.value, 0)
      case Some((i, k)) => Some(Capture(url.value, i, k))
      case None => None
  }

  /** A match at `i` through `k` is the one the regular expression reports:
      no alternative matches further left, and no earlier alternative at `i`. */
  ghost predicate LeftmostMatch(s: string, i: nat, k: nat) {
    && i < |s| && k < |Prefixes| && MatchesAt(s, i, k)
    && (forall j, k' :: 0 <= j < i && 0 <= k' < |Prefixes| ==> !MatchesAt(s, j, k'))
    && (forall k' :: 0 <= k' < k ==> !MatchesAt(s, i, k'))
  }

  /** Two leftmost matches are the same match. */
  lemma LeftmostMatchUnique(s: string, i: nat, k: nat, i': nat, k': nat)
    requires LeftmostMatch(s, i, k) && LeftmostMatch(s, i', k')
    ensures i == i' && k == k'
  {
  }

  /** The extractor reports exactly the leftmost match of the regular
      expression, and nothing when the expression cannot match anywhere. */
  lemma ExtractIsLeftmostMatch(url: string)
    requires url != ""
    ensures ExtractYouTubeId(Some(url)).None? <==>
      forall i, k :: 0 <= i < |url| && 0 <= k < |Prefixes| ==> !MatchesAt(url, i, k)
    ensures ExtractYouTubeId(Some(url)).Some? ==>
      exists i: nat, k: nat :: LeftmostMatch(url, i, k) && ExtractYouTubeId(Some(url)).value == Capture(url, i, k)
    ensures forall i: nat, k: nat :: LeftmostMatch(url, i, k) ==> ExtractYouTubeId(Some(url)) == Some(Capture(url, i, k))
  {
    var r := FindMatch(url, 0);
    if r.Some? {
      var (i, k) := r.value;
      assert LeftmostMatch(url, i, k);
      forall i': nat, k': nat | LeftmostMatch(url, i', k')
        ensures ExtractYouTubeId(Some(url)) == Some(Capture(url, i', k'))
      {
        LeftmostMatchUnique(url, i, k, i', k');
      }
    }
  }

  /** Every alternative starts with `y` or `m`. */
  lemma PrefixHeads(k: nat)
    requires k < |Prefixes|
    ensures |Prefixes[k]| > 0 && (Prefixes[k][0] == 'y' || Prefixes[k][0] == 'm')
  {
  }

  /** At most one alternative can occur at a given position. */
  lemma PrefixesExclusive(s: string, i: nat, a: nat, b: nat)
    requires a < b < |Prefixes|
    ensures StartsAt(s, i, Prefixes[a]) ==> !StartsAt(s, i, Prefixes[b])
  {
    var pa, pb := Prefixes[a], Prefixes[b];
    var d := if b == 3 then 0 else if a == 0 then 5 else 12;
    assert d < |pa| && d < |pb| && pa[d] != pb[d];
    if StartsAt(s, i, pa) && i + |pb| <= |s| {
      assert s[i..i + |pa|][d] == s[i + d];
      assert s[i..i + |pb|][d] == s[i + d];
    }
  }

  lemma {:induction false} IdRunIs(s: string, j: nat, n: nat)
    requires j + n <= |s|
    requires forall m :: j <= m < j + n ==> IsIdChar(s[m])
    requires j + n == |s| || !IsIdChar(s[j + n])
    ensures IdRun(s, j) == n
    decreases n
  {
    if n > 0 {
      IdRunIs(s, j + 1, n - 1);
    }
  }

  /** A URL made of a head without `y` or `m`, one of the four prefixes, an
      identifier and a tail that does not continue it yields that identifier. */
  lemma ExtractFromCanonical(head: string, k: nat, id: string, tail: string)
    requires k < |Prefixes|
    requires forall j :: 0 <= j < |head| ==> head[j] != 'y' && head[j] != 'm'
    requires ValidId(id)
    requires tail == [] || !IsIdChar(tail[0])
    ensures ExtractYouTubeId(Some(head + Prefixes[k] + id + tail)) == Some(id)
  {
    var p := Prefixes[k];
    var url := head + p + id + tail;
    var at := |head|;
    var start := at + |p|;
    assert url[at..start] == p;
    assert url[start] == id[0];
    assert MatchesAt(url, at, k);
    forall j, k' | 0 <= j < at && 0 <= k' < |Prefixes|
      ensures !MatchesAt(url, j, k')
    {
      PrefixHeads(k');
      assert url[j] == head[j];
      assert j + |Prefixes[k']| <= |url| ==> url[j..j + |Prefixes[k']|][0] == url[j];
    }
    forall k' | 0 <= k' < k
      ensures !MatchesAt(url, at, k')
    {
      PrefixesExclusive(url, at, k', k);
    }
    forall m | start <= m < start + |id|
      ensures IsIdChar(url[m])
    {
      assert url[m] == id[m - start];
    }
    assert start + |id| == |url| || url[start + |id|] == tail[0];
    IdRunIs(url, start, |id|);
    assert url[start..start + |id|] == id;
    assert LeftmostMatch(url, at, k);
    ExtractIsLeftmostMatch(url);
  }

  /** The query of the embed URL: autoplay on, controls off, minimal
      branding, no related videos, JavaScript API on. */
  const EmbedQuery: string := "?autoplay=1" + "&controls=0" + "&modestbranding=1" + "&rel=0" + "&enablejsapi=1"

  /** The embed URL the mini player loads for a video. */
  function EmbedUrl(id: string): string {
    "https://www.youtube.com/embed/" + id + EmbedQuery
  }

  lemma EmbedHeadSplits()
    ensures "https://www.youtube.com/embed/" == "https://www." + Prefixes[2]
  {
    assert Prefixes[2] == "youtube.com/embed/";
  }

  /** The identifier survives a round trip through the mini player's embed URL. */
  lemma EmbedUrlRoundTrip(id: string)
    requires ValidId(id)
    ensures ExtractYouTubeId(Some(EmbedUrl(id))) == Some(id)
  {
    EmbedHeadSplits();
    assert EmbedUrl(id) == "https://www." + Prefixes[2] + id + EmbedQuery;
    assert EmbedQuery[0] == '?';
    ExtractFromCanonical("https://www.", 2, id, EmbedQuery);
  }

  /** The identifier survives a round trip through a YouTube Music watch link. */
  lemma MusicUrlRoundTrip(id: string)
    requires ValidId(id)
    ensures ExtractYouTubeId(Some("https://music.youtube.com/watch?v=" + id)) == Some(id)
  {
    assert "https://music.youtube.com/watch?v=" + id == "https://" + Prefixes[3] + id + "";
    ExtractFromCanonical("https://", 3, id, "");
  }
}
