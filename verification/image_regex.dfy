/** The Cloudinary public-id extractor of the extension's content script
    (entrypoints/content/utils/imageUtils.ts): a null/empty guard, a
    'cloudinary.com' guard, then the regular expression `/\/v\d+\/([^/]+)\./`
    whose first group is the public id. The regular expression is modelled
    by the set of its matches (`MatchAt`) and a search that finds the match
    JavaScript's backtracking engine reports: leftmost start, and at that
    start the greedy `[^/]+` that backs off to the last '.' of the run. */
module CloudinaryRegex {
  import opened Types
  import opened Strings

  predicate IsDigit(ch: char) {
    '0' <= ch <= '9'
  }

  /** The pattern matches `url` from index `i`: "/v" at `i`, one or more
      digits up to `e`, '/' at `e`, a non-empty run without '/' from `e + 1`
      up to `k` (the captured group), and '.' at `k`. */
  ghost predicate MatchAt(url: string, i: int, e: int, k: int) {
    0 <= i && i + 2 < e && e + 1 < k < |url|
    && url[i] == '/' && url[i + 1] == 'v'
    && (forall j :: i + 2 <= j < e ==> IsDigit(url[j]))
    && url[e] == '/'
    && (forall j :: e < j < k ==> url[j] != '/')
    && url[k] == '.'
  }

  /** The first index at or after `j` that does not hold a digit. */
  function DigitRunEnd(url: string, j: nat): (e: nat)
    requires j <= |url|
    ensures j <= e <= |url|
    ensures forall m :: j <= m < e ==> IsDigit(url[m])
    ensures e < |url| ==> !IsDigit(url[e])
    decreases |url| - j
  {
    if j == |url| || !IsDigit(url[j]) then j else DigitRunEnd(url, j + 1)
  }

  /** The first index at or after `j` that holds '/', or `|url|`. */
  function SlashFrom(url: string, j: nat): (f: nat)
    requires j <= |url|
    ensures j <= f <= |url|
    ensures forall m :: j <= m < f ==> url[m] != '/'
    ensures f < |url| ==> url[f] == '/'
    decreases |url| - j
  {
    if j == |url| || url[j] == '/' then j else SlashFrom(url, j + 1)
  }

  /** The last index strictly between `lo` and `hi` that holds '.'. */
  function LastDot(url: string, lo: nat, hi: nat): (r: Option<nat>)
    requires hi <= |url|
    ensures r.Some? ==> lo < r.value < hi && url[r.value] == '.'
    ensures r.Some? ==> forall m :: r.value < m < hi ==> url[m] != '.'
    ensures r.None? ==> forall m :: lo < m < hi ==> url[m] != '.'
    decreases hi
  {
    if hi <= lo + 1 then None
    else if url[hi - 1] == '.' then Some(hi - 1)
    else LastDot(url, lo, hi - 1)
  }

  /** Any match from `i` ends its digits where the maximal digit run ends,
      and its group stops before the next '/'. */
  lemma MatchForced(url: string, i: nat, e: int, k: int)
    requires MatchAt(url, i, e, k)
    ensures e == DigitRunEnd(url, i + 2) && k < SlashFrom(url, e + 1)
  {
  }

  /** Every match from `i` is forced in the same way. */
  lemma AllMatchesForced(url: string, i: nat)
    ensures forall e, k :: MatchAt(url, i, e, k) ==>
      e == DigitRunEnd(url, i + 2) && k < SlashFrom(url, e + 1)
  {
    forall e, k | MatchAt(url, i, e, k)
      ensures e == DigitRunEnd(url, i + 2) && k < SlashFrom(url, e + 1)
    {
      MatchForced(url, i, e, k);
    }
  }

  /** The match the engine reports when it tries start `i`: the digit run
      must be maximal (a digit is not '/'), and the greedy group backs off
      to the last '.' before the next '/'. */
  function CaptureAt(url: string, i: nat): (r: Option<(nat, nat)>)
    ensures r.Some? ==> MatchAt(url, i, r.value.0, r.value.1)
    ensures r.Some? ==> forall e, k :: MatchAt(url, i, e, k) ==> e == r.value.0 && k <= r.value.1
    ensures r.None? ==> forall e, k :: !MatchAt(url, i, e, k)
  {
    AllMatchesForced(url, i);
    if i + 1 < |url| && url[i] == '/' && url[i + 1] == 'v' then
      var e := DigitRunEnd(url, i + 2);
      if e > i + 2 && e < |url| && url[e] == '/' then
        match LastDot(url, e + 1, SlashFrom(url, e + 1))
        case None => None
        case Some(k) => Some((e, k))
      else None
    else None
  }

  /** The leftmost start at or after `from` where the pattern matches,
      with the match reported there. */
  function FirstMatch(url: string, from: nat): (r: Option<(nat, nat, nat)>)
    ensures r.Some? ==> from <= r.value.0 && MatchAt(url, r.value.0, r.value.1, r.value.2)
    ensures r.Some? ==> forall i, e, k :: from <= i && MatchAt(url, i, e, k) ==>
      r.value.0 <= i && (i == r.value.0 ==> e == r.value.1 && k <= r.value.2)
    ensures r.None? ==> forall i, e, k :: from <= i ==> !MatchAt(url, i, e, k)
    decreases |url| - from
  {
    if from >= |url| then None
    else match CaptureAt(url, from)
      case Some((e, k)) => Some((from, e, k))
      case None => FirstMatch(url, from + 1)
  }

  /** `extractPublicIdFromUrl`, with `null` as `None`. */
  function ExtractPublicId(url: string): (r: Option<string>)
    ensures |url| == 0 ==> r.None?
    ensures !Contains(url, "cloudinary.com") ==> r.None?
    ensures r.Some? ==> |url| > 0 && Contains(url, "cloudinary.com")
  {
    if |url| == 0 then None
    else if !Contains(url, "cloudinary.com") then None
    else match FirstMatch(url, 0)
      case None => None
      case Some((i, e, k)) => Some(url[e + 1..k])
  }

  /** On a Cloudinary URL the result is null exactly when the pattern
      matches nowhere. */
  lemma NullIffNoMatch(url: string)
    requires Contains(url, "cloudinary.com")
    ensures ExtractPublicId(url).None? <==> forall i, e, k :: !MatchAt(url, i, e, k)
  {
    if FirstMatch(url, 0).Some? {
      var m := FirstMatch(url, 0).value;
      assert MatchAt(url, m.0, m.1, m.2);
    }
  }

  /** A public id is the group of the leftmost match, and of the longest
      match at that start. */
  lemma ReportsLeftmostLongest(url: string)
    requires ExtractPublicId(url).Some?
    ensures exists i, e, k ::
      MatchAt(url, i, e, k) && ExtractPublicId(url).value == url[e + 1..k] &&
      forall i', e', k' :: MatchAt(url, i', e', k') ==> i <= i' && (i' == i ==> e' == e && k' <= k)
  {
    var m := FirstMatch(url, 0).value;
    assert ExtractPublicId(url).value == url[m.1 + 1..m.2];
  }

  /** The group of a match is non-empty, holds no '/', and is followed in the
      URL by '.'. */
  lemma GroupShape(url: string, i: int, e: int, k: int)
    requires MatchAt(url, i, e, k)
    ensures var id := url[e + 1..k];
      |id| > 0 && '/' !in id && OccursAt(url, id, e + 1) && e + 1 + |id| < |url| && url[e + 1 + |id|] == '.'
  {
    var id := url[e + 1..k];
    assert forall m :: 0 <= m < |id| ==> id[m] == url[e + 1 + m];
  }

  /** A public id is non-empty, holds no '/', and is followed in the URL by
      '.' (the file extension). */
  lemma PublicIdShape(url: string)
    requires ExtractPublicId(url).Some?
    ensures var id := ExtractPublicId(url).value;
      |id| > 0 && '/' !in id && exists j :: OccursAt(url, id, j) && j + |id| < |url| && url[j + |id|] == '.'
  {
    var m := FirstMatch(url, 0).value;
    var id := url[m.1 + 1..m.2];
    assert ExtractPublicId(url).value == id;
    GroupShape(url, m.0, m.1, m.2);
    assert OccursAt(url, id, m.1 + 1);
  }

  /** After a host without '/', the only matches in "/v1/abc.def.jpg" are
      the ones starting at its first '/' and ending at one of its dots. */
  lemma MatchesAfterHost(host: string, i: int, e: int, k: int)
    requires '/' !in host && MatchAt(host + "/v1/abc.def.jpg", i, e, k)
    ensures i == |host| && e == |host| + 3 && (k == |host| + 7 || k == |host| + 11)
  {
    var tail := "/v1/abc.def.jpg";
    var url := host + tail;
    var n := |host|;
    assert forall m :: 0 <= m < n ==> url[m] == host[m];
    assert forall m :: n <= m < |url| ==> url[m] == tail[m - n];
    assert n <= i;
    assert i + 1 - n !in {3, 7, 11} by {
      assert tail[i + 1 - n] == 'v';
    }
    assert i == n;
    assert url[n + 3] == '/' && url[n + 2] == '1';
    assert e == n + 3;
    assert tail[k - n] == '.';
  }

  /** The leftmost, then longest, match determines the public id: the
      search reports exactly that match. */
  lemma LeftmostLongestIsReported(url: string, i: int, e: int, k: int)
    requires Contains(url, "cloudinary.com") && MatchAt(url, i, e, k)
    requires forall i', e', k' :: MatchAt(url, i', e', k') ==> i <= i' && (i' == i ==> e' == e && k' <= k)
    ensures ExtractPublicId(url) == Some(url[e + 1..k])
  {
    FirstMatchIs(url, i, e, k);
  }

  /** The search finds the leftmost, then longest, match. */
  lemma FirstMatchIs(url: string, i: int, e: int, k: int)
    requires MatchAt(url, i, e, k)
    requires forall i', e', k' :: MatchAt(url, i', e', k') ==> i <= i' && (i' == i ==> e' == e && k' <= k)
    ensures FirstMatch(url, 0) == Some((i, e, k))
  {
    var m := FirstMatch(url, 0);
    assert m.Some?;
    assert m.value.0 == i && m.value.1 == e && m.value.2 == k;
  }

  /** The group is greedy: a name with several dots keeps all but the
      extension ('abc.def.jpg' gives 'abc.def'), whatever Cloudinary host
      precedes it. */
  lemma DottedNameKeepsInnerDots(host: string)
    requires Contains(host, "cloudinary.com") && '/' !in host
    ensures ExtractPublicId(host + "/v1/abc.def.jpg") == Some("abc.def")
  {
    var url := host + "/v1/abc.def.jpg";
    var n := |host|;
    var j :| 0 <= j <= |host| - 14 && OccursAt(host, "cloudinary.com", j);
    assert url[j..j + 14] == host[j..j + 14];
    assert OccursAt(url, "cloudinary.com", j);
    TailMatch(host);
    forall i', e', k' | MatchAt(url, i', e', k')
      ensures n <= i' && (i' == n ==> e' == n + 3 && k' <= n + 11)
    {
      MatchesAfterHost(host, i', e', k');
    }
    LeftmostLongestIsReported(url, n, n + 3, n + 11);
  }

  /** The match after the host: "/v1/" then the group "abc.def" up to the
      last dot. */
  lemma TailMatch(host: string)
    ensures var n := |host|;
      MatchAt(host + "/v1/abc.def.jpg", n, n + 3, n + 11)
      && (host + "/v1/abc.def.jpg")[n + 4..n + 11] == "abc.def"
  {
    var tail := "/v1/abc.def.jpg";
    var url := host + tail;
    var n := |host|;
    assert url[n..] == tail;
    assert url[n + 4..n + 11] == tail[4..11];
    assert tail[4..11] == "abc.def";
  }
}
