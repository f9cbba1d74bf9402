/** The older Cloudinary public-id extractor
    (src/pages/Content/utils/imageUtils.ts): take the text after '/upload/',
    drop a leading version component, and cut at the first '.'.
    `ExtractPublicIdAsWritten` follows the code, whose version test is "the
    segment contains a 'v' anywhere"; `ExtractPublicId` is the corrected
    extractor that drops the first component only when it is a version
    (`v` followed by digits), the shape the regular-expression extractor
    looks for. */
module CloudinarySplit {
  import opened Types
  import opened Strings
  import CloudinaryRegex

  const Upload: string := "/upload/"

  /** An occurrence inside a prefix is an occurrence in the whole. */
  lemma OccursInPrefix(s: string, j: nat, pat: string, m: int)
    requires j <= |s| && OccursAt(s[..j], pat, m)
    ensures OccursAt(s, pat, m)
  {
    assert s[..j][m..m + |pat|] == s[m..m + |pat|];
  }

  /** An occurrence that ends within a prefix is an occurrence in it. */
  lemma OccursWithinPrefix(s: string, j: nat, pat: string, m: int)
    requires j <= |s| && OccursAt(s, pat, m) && m + |pat| <= j
    ensures OccursAt(s[..j], pat, m)
  {
    assert s[..j][m..m + |pat|] == s[m..m + |pat|];
  }

  /** '/upload/' cannot start where there is no '/'. */
  lemma NoSlashNoUpload(s: string, from: nat)
    requires forall m :: from <= m < |s| ==> s[m] != '/'
    ensures forall p :: from <= p ==> !OccursAt(s, Upload, p)
  {
    forall p | from <= p ensures !OccursAt(s, Upload, p) {
      if p + |Upload| <= |s| {
        assert s[p..p + |Upload|][0] == s[p];
      }
    }
  }

  /** In `prefix + "/upload/" + name`, with no '/upload/' inside
      `prefix + "/upload"`, the first '/upload/' is the one after `prefix`. */
  lemma FirstUploadAfterPrefix(prefix: string, name: string)
    requires !Contains(prefix + "/upload", Upload)
    ensures IndexOf(prefix + Upload + name, Upload) == Some(|prefix|)
  {
    var url := prefix + Upload + name;
    var n := |prefix|;
    assert url[n..n + |Upload|] == Upload;
    assert OccursAt(url, Upload, n);
    assert url[..n + 7] == prefix + "/upload";
    forall m | 0 <= m < n ensures !OccursAt(url, Upload, m) {
      if OccursAt(url, Upload, m) {
        OccursWithinPrefix(url, n + 7, Upload, m);
      }
    }
  }

  /** A URL `prefix + "/upload/" + name` whose prefix holds no earlier
      '/upload/' and whose name holds no '/' has `name` as its segment. */
  lemma SegmentOfUpload(prefix: string, name: string)
    requires !Contains(prefix + "/upload", Upload) && '/' !in name
    ensures Contains(prefix + Upload + name, Upload)
    ensures AfterUpload(prefix + Upload + name) == name
  {
    var url := prefix + Upload + name;
    var start := |prefix| + |Upload|;
    FirstUploadAfterPrefix(prefix, name);
    assert url[start..] == name;
    assert forall m :: start <= m < |url| ==> url[m] == name[m - start];
    NoSlashNoUpload(url, start);
  }

  /** An occurrence in a suffix is an occurrence in the whole, shifted. */
  lemma OccursInSuffix(s: string, start: nat, pat: string, j: int)
    requires start <= |s| && OccursAt(s[start..], pat, j)
    ensures OccursAt(s, pat, start + j)
  {
    assert s[start..][j..j + |pat|] == s[start + j..start + j + |pat|];
  }

  /** Before the leftmost occurrence of a non-empty `pat` there is none. */
  lemma NoneBeforeFirst(s: string, pat: string, j: nat)
    requires |pat| > 0 && j <= |s| && forall m :: 0 <= m < j ==> !OccursAt(s, pat, m)
    ensures !Contains(s[..j], pat)
  {
    forall m | 0 <= m <= j - |pat| ensures !OccursAt(s[..j], pat, m) {
      if OccursAt(s[..j], pat, m) {
        OccursInPrefix(s, j, pat, m);
      }
    }
  }

  /** `url.split('/upload/')[1]`: the text after the first '/upload/' up to
      the next one, or to the end when there is no next one. */
  function AfterUpload(url: string): (seg: string)
    requires Contains(url, Upload)
    ensures var start := IndexOf(url, Upload).value + |Upload|;
      start + |seg| <= |url| && url[start..start + |seg|] == seg
      && (start + |seg| == |url| || OccursAt(url, Upload, start + |seg|))
      && !Contains(seg, Upload)
  {
    var start := IndexOf(url, Upload).value + |Upload|;
    var rest := url[start..];
    match IndexOf(rest, Upload)
    case None => rest
    case Some(j) =>
      OccursInSuffix(url, start, Upload, j);
      NoneBeforeFirst(rest, Upload, j);
      rest[..j]
  }

  /** `extractPublicIdFromUrl` as written. A URL without '/upload/' makes
      the code dereference `undefined`, so it is outside the domain. */
  function ExtractPublicIdAsWritten(url: string): (id: string)
    requires Contains(url, Upload)
    ensures '.' !in id
  {
    var seg := AfterUpload(url);
    var withoutVersion := if 'v' in seg then Join(Split(seg, '/')[1..], '/') else seg;
    Split(withoutVersion, '.')[0]
  }

  /** The split/slice/join pipeline in prefix/suffix terms: with a 'v' in
      the segment, everything up to its first '/' goes; the id is then the
      text before the first '.'. */
  lemma AsWrittenCharacterised(url: string)
    requires Contains(url, Upload)
    ensures var seg := AfterUpload(url);
      ExtractPublicIdAsWritten(url)
        == BeforeFirst(if 'v' in seg then AfterFirst(seg, '/') else seg, '.')
  {
    var seg := AfterUpload(url);
    JoinSplitTail(seg, '/');
    var withoutVersion := if 'v' in seg then AfterFirst(seg, '/') else seg;
    SplitHead(withoutVersion, '.');
  }

  /** A segment with neither 'v' nor '.' is the public id itself. */
  lemma PlainSegmentIsId(url: string)
    requires Contains(url, Upload)
    requires 'v' !in AfterUpload(url) && '.' !in AfterUpload(url)
    ensures ExtractPublicIdAsWritten(url) == AfterUpload(url)
  {
    AsWrittenCharacterised(url);
    var seg := AfterUpload(url);
    assert BeforeFirst(seg, '.') == seg[..|seg|];
  }

  /** As written, a single-component segment that happens to contain a 'v'
      ('vacation.jpg', 'avatar.png') loses its only component: the id is "". */
  lemma SingleComponentWithVIsEmpty(url: string)
    requires Contains(url, Upload)
    requires 'v' in AfterUpload(url) && '/' !in AfterUpload(url)
    ensures ExtractPublicIdAsWritten(url) == ""
  {
    AsWrittenCharacterised(url);
  }

  /** The concrete instance: an unversioned upload named 'vacation.jpg'
      after any prefix, such as "https://res.cloudinary.com/demo/image". */
  lemma VacationLosesItsName(prefix: string)
    requires !Contains(prefix + "/upload", Upload)
    ensures Contains(prefix + Upload + "vacation.jpg", Upload)
    ensures ExtractPublicIdAsWritten(prefix + Upload + "vacation.jpg") == ""
  {
    SegmentOfUpload(prefix, "vacation.jpg");
    SingleComponentWithVIsEmpty(prefix + Upload + "vacation.jpg");
  }

  /** A Cloudinary version component: 'v' followed by one or more digits. */
  predicate IsVersion(c: string) {
    |c| >= 2 && c[0] == 'v' && forall j :: 1 <= j < |c| ==> CloudinaryRegex.IsDigit(c[j])
  }

  /** The segment starts with a version component followed by '/'. */
  predicate Versioned(seg: string) {
    '/' in seg && IsVersion(BeforeFirst(seg, '/'))
  }

  /** The corrected extractor: drop the first component only when it is a
      version, then cut at the first '.'. */
  function ExtractPublicId(url: string): (id: string)
    requires Contains(url, Upload)
    ensures '.' !in id
  {
    var seg := AfterUpload(url);
    var withoutVersion := if Versioned(seg) then AfterFirst(seg, '/') else seg;
    BeforeFirst(withoutVersion, '.')
  }

  /** The intended behaviour, for a versioned segment: the version goes and
      the rest up to the first '.' is the id. */
  lemma VersionIsDropped(url: string, version: string, rest: string)
    requires Contains(url, Upload) && IsVersion(version)
    requires AfterUpload(url) == version + "/" + rest
    ensures ExtractPublicId(url) == BeforeFirst(rest, '.')
  {
    assert '/' !in version by {
      assert forall j :: 0 <= j < |version| ==> version[j] == 'v' || CloudinaryRegex.IsDigit(version[j]);
    }
    BeforeFirstOfJoined(version, '/', rest);
  }

  /** The intended behaviour, for an unversioned segment: nothing is
      dropped, whatever letters the name contains. */
  lemma UnversionedKeepsWholeName(url: string)
    requires Contains(url, Upload) && !Versioned(AfterUpload(url))
    ensures ExtractPublicId(url) == BeforeFirst(AfterUpload(url), '.')
  {
  }

  /** The corrected extractor keeps 'vacation' from 'vacation.jpg'. */
  lemma VacationKeepsItsName(prefix: string)
    requires !Contains(prefix + "/upload", Upload)
    ensures Contains(prefix + Upload + "vacation.jpg", Upload)
    ensures ExtractPublicId(prefix + Upload + "vacation.jpg") == "vacation"
  {
    SegmentOfUpload(prefix, "vacation.jpg");
    VacationStem();
  }

  /** 'vacation.jpg' is not versioned, and its text before the first '.' is
      'vacation'. */
  lemma VacationStem()
    ensures !Versioned("vacation.jpg")
    ensures BeforeFirst("vacation.jpg", '.') == "vacation"
  {
    VacationHasNoSlash();
    VacationBeforeDot();
  }

  lemma VacationHasNoSlash()
    ensures '/' !in "vacation.jpg"
  {
    var name := "vacation.jpg";
    assert forall m :: 0 <= m < |name| ==> name[m] != '/';
  }

  lemma VacationBeforeDot()
    ensures BeforeFirst("vacation.jpg", '.') == "vacation"
  {
    var stem := "vacation";
    assert forall m :: 0 <= m < |stem| ==> stem[m] != '.';
    assert "vacation.jpg" == stem + ['.'] + "jpg";
    BeforeFirstOfJoined(stem, '.', "jpg");
  }

  /** On versioned segments the corrected extractor agrees with the code as
      written, so the correction changes only unversioned uploads. */
  lemma CorrectionAgreesOnVersionedUrls(url: string)
    requires Contains(url, Upload) && Versioned(AfterUpload(url))
    ensures ExtractPublicId(url) == ExtractPublicIdAsWritten(url)
  {
    AsWrittenCharacterised(url);
    var seg := AfterUpload(url);
    var first := BeforeFirst(seg, '/');
    assert seg[0] == first[0] == 'v';
  }

  /** Splitting `a + [c] + b` at its first `c` when `a` has none. */
  lemma BeforeFirstOfJoined(a: string, c: char, b: string)
    requires c !in a
    ensures BeforeFirst(a + [c] + b, c) == a
    ensures AfterFirst(a + [c] + b, c) == b
  {
    var s := a + [c] + b;
    var r := BeforeFirst(s, c);
    assert s[..|a|] == a && s[|a|] == c;
    assert forall m :: 0 <= m < |a| ==> s[m] == a[m];
    assert |r| == |a|;
    assert s[|a| + 1..] == b;
  }
}
