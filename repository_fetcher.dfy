/**
 * Detail extraction for one repository page: the repository name from its URL, the README
 * excerpt, the feature bullets, the topics, the last-updated date and the contributor count,
 * and the rule that any failure yields no details at all rather than an error.
 */
module RepositoryFetcher {
  import opened Wrappers
  import opened Text
  import opened Sequences
  import Scraper

  const UnknownRepo: string := "未知仓库"
  const Unknown: string := "未知"
  const GithubMarker: string := "github.com/"
  const Ellipsis: string := "..."
  const ExcerptLength: nat := 200
  const ItemsPerList: nat := 3
  const MaxFeatures: nat := 5

  // ---------------------------------------------------------------------------------------
  // extractRepoName: the first match of /github\.com\/([^/]+\/[^/]+)/

  predicate NotSlash(c: char) {
    c != '/'
  }

  /**
   * The `owner/repo` capture when `marker` followed by two slash-free segments matches at
   * index `i` (the pattern's marker is `github.com/`).
   */
  function MatchRepoAt(url: string, i: nat, marker: string): (r: Option<string>)
    requires i + |marker| <= |url|
    ensures r.Some? ==> IsRepoPath(r.value) && i + |marker| + |r.value| <= |url|
    ensures r.Some? ==> url[i..i + |marker|] == marker
    ensures r.Some? ==> url[i + |marker|..i + |marker| + |r.value|] == r.value
  {
    if url[i..i + |marker|] != marker then None
    else
      var a := i + |marker|;
      var n1 := Span(url, a, NotSlash);
      if n1 == 0 || a + n1 == |url| then None
      else
        var b := a + n1 + 1;
        var n2 := Span(url, b, NotSlash);
        if n2 == 0 then None
        else
          SpanIsRun(url, a, NotSlash);
          SpanIsRun(url, b, NotSlash);
          RepoPathAt(url, a, n1, n2);
          Some(url[a..a + n1 + 1 + n2])
  }

  /** The leftmost match at or after index `i`. */
  function SearchRepo(url: string, i: nat, marker: string): Option<string>
    decreases |url| - i
  {
    if i + |marker| > |url| then None
    else if MatchRepoAt(url, i, marker).Some? then MatchRepoAt(url, i, marker)
    else SearchRepo(url, i + 1, marker)
  }

  /**
   * `owner/repo`: exactly one '/', neither first nor last, so two non-empty segments
   * without '/' joined by it.
   */
  predicate IsRepoPath(s: string) {
    |s| >= 3 && s[0] != '/' && s[|s| - 1] != '/' && CountChar(s, '/') == 1
  }

  lemma RepoPathOf(owner: string, repo: string)
    requires owner != [] && repo != [] && '/' !in owner && '/' !in repo
    ensures IsRepoPath(owner + "/" + repo)
  {
    var r := owner + "/" + repo;
    CountCharAppend(owner + "/", repo, '/');
    CountCharAppend(owner, "/", '/');
    assert CountChar("/", '/') == 1 by {
      assert "/"[1..] == [];
    }
    assert r[0] == owner[0] && r[|r| - 1] == repo[|repo| - 1];
    assert owner[0] in owner && repo[|repo| - 1] in repo;
  }

  /** The characters of a slice, read in `s`. */
  lemma NoSlashIn(s: string, lo: nat, hi: nat)
    requires lo <= hi <= |s|
    requires forall k :: lo <= k < hi ==> s[k] != '/'
    ensures '/' !in s[lo..hi]
  {
    forall k | 0 <= k < hi - lo ensures s[lo..hi][k] != '/' {
      assert s[lo..hi][k] == s[lo + k];
    }
  }

  /** Two slash-free runs separated by '/' form a repository path. */
  lemma RepoPathAt(url: string, a: nat, n1: nat, n2: nat)
    requires a + n1 + 1 + n2 <= |url| && n1 > 0 && n2 > 0
    requires url[a + n1] == '/'
    requires forall k :: a <= k < a + n1 ==> url[k] != '/'
    requires forall k :: a + n1 + 1 <= k < a + n1 + 1 + n2 ==> url[k] != '/'
    ensures IsRepoPath(url[a..a + n1 + 1 + n2])
  {
    var b := a + n1 + 1;
    NoSlashIn(url, a, a + n1);
    NoSlashIn(url, b, b + n2);
    RepoPathOf(url[a..a + n1], url[b..b + n2]);
    assert url[a..b + n2] == url[a..a + n1] + "/" + url[b..b + n2];
  }

  /** `marker` starts at index `j` of `url` and `v` follows it. */
  predicate MarkedAt(url: string, j: nat, marker: string, v: string) {
    j + |marker| + |v| <= |url| && url[j..j + |marker|] == marker
    && url[j + |marker|..j + |marker| + |v|] == v
  }

  /** `v` occurs in `url` right after an occurrence of `marker`. */
  ghost predicate FollowsMarker(url: string, marker: string, v: string) {
    exists j: nat :: MarkedAt(url, j, marker, v)
  }

  lemma {:induction false} SearchRepoFinds(url: string, i: nat, marker: string)
    requires SearchRepo(url, i, marker).Some?
    ensures IsRepoPath(SearchRepo(url, i, marker).value)
    ensures FollowsMarker(url, marker, SearchRepo(url, i, marker).value)
    decreases |url| - i
  {
    if MatchRepoAt(url, i, marker).None? {
      SearchRepoFinds(url, i + 1, marker);
    } else {
      var v := MatchRepoAt(url, i, marker).value;
      assert MarkedAt(url, i, marker, v);
    }
  }

  /**
   * `extractRepoName`: the first `owner/repo` after `github.com/`, or the sentinel.
   * A name that is not the sentinel has exactly one '/' between two non-empty segments.
   */
  function ExtractRepoName(url: string): (name: string)
    ensures name == UnknownRepo || (IsRepoPath(name) && FollowsMarker(url, GithubMarker, name))
  {
    var m := SearchRepo(url, 0, GithubMarker);
    if m.Some? then SearchRepoFinds(url, 0, GithubMarker); m.value else UnknownRepo
  }

  /** The search from `i` finds the match at `j0` when no position from `i` up to `j0` matches. */
  lemma {:induction false} SearchRepoLeftmost(url: string, i: nat, j0: nat, marker: string)
    requires i <= j0 && j0 + |marker| <= |url| && MatchRepoAt(url, j0, marker).Some?
    requires forall j :: i <= j < j0 ==> MatchRepoAt(url, j, marker).None?
    ensures SearchRepo(url, i, marker) == MatchRepoAt(url, j0, marker)
    decreases j0 - i
  {
    if i < j0 {
      SearchRepoLeftmost(url, i + 1, j0, marker);
    }
  }

  /** The search from `i` finds nothing exactly when the pattern matches at no position from `i` on. */
  lemma {:induction false} SearchRepoNoneIff(url: string, i: nat, marker: string)
    ensures SearchRepo(url, i, marker).None? <==>
              forall j :: i <= j && j + |marker| <= |url| ==> MatchRepoAt(url, j, marker).None?
    decreases |url| - i
  {
    if i + |marker| <= |url| {
      SearchRepoNoneIff(url, i + 1, marker);
    }
  }

  /** The name is the match at the first position where the pattern matches. */
  lemma ExtractRepoNameFirstMatch(url: string, j0: nat)
    requires j0 + |GithubMarker| <= |url| && MatchRepoAt(url, j0, GithubMarker).Some?
    requires forall j :: 0 <= j < j0 ==> MatchRepoAt(url, j, GithubMarker).None?
    ensures ExtractRepoName(url) == MatchRepoAt(url, j0, GithubMarker).value
  {
    SearchRepoLeftmost(url, 0, j0, GithubMarker);
  }

  /** The sentinel comes back exactly when the pattern matches nowhere in the URL. */
  lemma ExtractRepoNameUnknownIff(url: string)
    ensures ExtractRepoName(url) == UnknownRepo <==>
              forall j: nat :: j + |GithubMarker| <= |url| ==> MatchRepoAt(url, j, GithubMarker).None?
  {
    SearchRepoNoneIff(url, 0, GithubMarker);
    var m := SearchRepo(url, 0, GithubMarker);
    if m.Some? {
      SearchRepoFinds(url, 0, GithubMarker);
      assert '/' !in UnknownRepo;
      assert m.value != UnknownRepo;
    }
  }

  /** No match can start where the marker's first character is absent. */
  lemma {:induction false} SearchRepoSkips(url: string, i: nat, j: nat, marker: string)
    requires marker != [] && i <= j && j + |marker| <= |url|
    requires forall k :: i <= k < j ==> url[k] != marker[0]
    ensures SearchRepo(url, i, marker) == SearchRepo(url, j, marker)
    decreases j - i
  {
    if i < j {
      var w := url[i..i + |marker|];
      assert w[0] == url[i];
      SearchRepoSkips(url, i + 1, j, marker);
    }
  }

  /** The pieces of `owner + "/" + repo`, by position. */
  lemma PathParts(owner: string, repo: string)
    ensures var path := owner + "/" + repo;
      && |path| == |owner| + 1 + |repo|
      && path[..|owner|] == owner && path[|owner|] == '/' && path[|owner| + 1..] == repo
  {
  }

  /** The pattern matches at `i` when the marker, then `owner + "/" + repo`, start there. */
  lemma MatchRepoAtSegments(url: string, i: nat, marker: string, owner: string, repo: string)
    requires owner != [] && repo != [] && '/' !in owner && '/' !in repo
    requires i + |marker| + |owner| + 1 + |repo| <= |url|
    requires url[i..i + |marker|] == marker
    requires url[i + |marker|..i + |marker| + |owner| + 1 + |repo|] == owner + "/" + repo
    requires var e := i + |marker| + |owner| + 1 + |repo|; e == |url| || url[e] == '/'
    ensures MatchRepoAt(url, i, marker) == Some(owner + "/" + repo)
  {
    PathRuns(url, i + |marker|, owner, repo);
    MatchRepoAtRuns(url, i, marker, |owner|, |repo|);
  }

  /** Where `owner + "/" + repo` stands in `url`, the two slash-free runs are the two segments. */
  lemma PathRuns(url: string, a: nat, owner: string, repo: string)
    requires owner != [] && repo != [] && '/' !in owner && '/' !in repo
    requires a + |owner| + 1 + |repo| <= |url|
    requires url[a..a + |owner| + 1 + |repo|] == owner + "/" + repo
    requires var e := a + |owner| + 1 + |repo|; e == |url| || url[e] == '/'
    ensures Span(url, a, NotSlash) == |owner|
    ensures Span(url, a + |owner| + 1, NotSlash) == |repo|
  {
    var path := owner + "/" + repo;
    PathParts(owner, repo);
    SliceOfPiece(url, a, path, 0, |owner|);
    SliceOfPiece(url, a, path, |owner| + 1, |path|);
    assert url[a + |owner|] == path[|owner|];
    SpanOfPiece(url, a, owner, NotSlash);
    SpanOfPiece(url, a + |owner| + 1, repo, NotSlash);
  }

  /** The match at `i` once both runs after the marker are measured. */
  lemma MatchRepoAtRuns(url: string, i: nat, marker: string, n1: nat, n2: nat)
    requires i + |marker| + n1 + 1 + n2 <= |url| && url[i..i + |marker|] == marker
    requires n1 > 0 && Span(url, i + |marker|, NotSlash) == n1
    requires n2 > 0 && Span(url, i + |marker| + n1 + 1, NotSlash) == n2
    ensures MatchRepoAt(url, i, marker) == Some(url[i + |marker|..i + |marker| + n1 + 1 + n2])
  {
  }

  /** The pieces of `w + x + y + z`, by position. */
  lemma FourParts(w: string, x: string, y: string, z: string)
    ensures var u := w + x + y + z;
      && u[..|w|] == w && u[|w|..|w| + |x|] == x && u[|w| + |x|..|w| + |x| + |y|] == y
      && u[|w| + |x| + |y|..] == z
  {
  }

  /** On a repository URL as the listing builds them, the name is exactly `owner/repo`. */
  lemma RepoNameOfRepositoryUrl(owner: string, repo: string, rest: string)
    requires owner != [] && repo != [] && '/' !in owner && '/' !in repo
    requires rest == [] || rest[0] == '/'
    ensures ExtractRepoName(Scraper.SiteOrigin + "/" + owner + "/" + repo + rest) == owner + "/" + repo
  {
    var scheme := "https://";
    var path := owner + "/" + repo;
    var url := Scraper.SiteOrigin + "/" + owner + "/" + repo + rest;
    assert url == scheme + GithubMarker + path + rest;
    FourParts(scheme, GithubMarker, path, rest);
    var e := |scheme| + |GithubMarker| + |path|;
    assert e < |url| ==> url[e] == rest[0];
    assert forall k :: 0 <= k < |scheme| ==> url[k] != GithubMarker[0];
    SearchRepoSkips(url, 0, |scheme|, GithubMarker);
    MatchRepoAtSegments(url, |scheme|, GithubMarker, owner, repo);
  }

  // ---------------------------------------------------------------------------------------
  // extractReadmeExcerpt

  function Min(a: nat, b: nat): nat {
    if a <= b then a else b
  }

  /**
   * `extractReadmeExcerpt` over the text of the page's first article: empty for an empty text,
   * otherwise the trimmed first 200 characters followed by "...".
   */
  function ExtractReadmeExcerpt(articleText: string): (r: string)
    ensures r == "" <==> articleText == ""
    ensures r != "" ==> |Ellipsis| <= |r| <= ExcerptLength + |Ellipsis| && r[|r| - |Ellipsis|..] == Ellipsis
    ensures r != "" ==> IsTrimmed(r[..|r| - |Ellipsis|])
  {
    if articleText == "" then ""
    else
      var r := Trim(articleText[..Min(ExcerptLength, |articleText|)]) + Ellipsis;
      assert r[..|r| - |Ellipsis|] == Trim(articleText[..Min(ExcerptLength, |articleText|)]);
      r
  }

  /** A short, already trimmed text is kept whole; only the marker is added. */
  lemma ExcerptOfShortText(t: string)
    requires 0 < |t| <= ExcerptLength && IsTrimmed(t)
    ensures ExtractReadmeExcerpt(t) == t + Ellipsis
  {
    assert t[..Min(ExcerptLength, |t|)] == t;
    TrimOfTrimmed(t);
  }

  /** The kept text is a piece of the first 200 characters of the article. */
  lemma ExcerptComesFromPrefix(t: string)
    requires t != ""
    ensures var r := ExtractReadmeExcerpt(t);
      IsInfix(r[..|r| - |Ellipsis|], t[..Min(ExcerptLength, |t|)])
  {
    var p := t[..Min(ExcerptLength, |t|)];
    var s := TrimStart(p);
    var e := TrimEnd(s);
    assert Trim(p) == e;
    assert e <= p[|p| - |s|..];
    var r := ExtractReadmeExcerpt(t);
    assert r[..|r| - |Ellipsis|] == e;
  }

  /**
   * Only white space is dropped: the kept text is the first 200 characters of the article
   * without a run of white space at their start and one at their end.
   */
  lemma ExcerptDropsOnlySpace(t: string)
    requires t != ""
    ensures exists kept: string, lo: nat, hi: nat ::
      ExtractReadmeExcerpt(t) == kept + Ellipsis && SpaceAround(t[..Min(ExcerptLength, |t|)], lo, hi, kept)
  {
    var p := t[..Min(ExcerptLength, |t|)];
    TrimDropsOnlySpace(p);
    var lo: nat, hi: nat :| SpaceAround(p, lo, hi, Trim(p));
    assert ExtractReadmeExcerpt(t) == Trim(p) + Ellipsis;
  }

  // ---------------------------------------------------------------------------------------
  // extractFeatures

  /** An `h2`/`h3` heading of the README and the items of the `ul` right after it, if any. */
  datatype Heading = Heading(text: string, nextList: Option<seq<string>>)

  /** The lower-cased heading mentions a feature keyword in English, Chinese or Korean. */
  predicate IsFeatureHeading(text: string) {
    var lower := ToLower(text);
    Contains(lower, "feature") || Contains(lower, "功能") || Contains(lower, "특성")
  }

  function TrimmedIfPresent(t: string): (r: seq<string>)
    ensures |r| <= 1
  {
    var f := Trim(t);
    if f == "" then [] else [f]
  }

  /** The trimmed texts that are not empty, in order (`if (text) list.push(text)`). */
  function NonBlank(texts: seq<string>): seq<string> {
    FlatMap(texts, TrimmedIfPresent)
  }

  lemma NonBlankElements(texts: seq<string>)
    ensures |NonBlank(texts)| <= |texts|
    ensures forall f :: f in NonBlank(texts) ==> f != "" && IsTrimmed(f)
  {
    FlatMapShorter(texts, TrimmedIfPresent);
    forall f | f in NonBlank(texts) ensures f != "" && IsTrimmed(f) {
      FlatMapMember(texts, TrimmedIfPresent, f);
    }
  }

  /** The features one heading contributes: its list's first three non-blank items. */
  function HeadingFeatures(h: Heading): seq<string> {
    if IsFeatureHeading(h.text) && h.nextList.Some? then
      NonBlank(h.nextList.value[..Min(ItemsPerList, |h.nextList.value|)])
    else []
  }

  /** All features of the README, in document order, before the cap of five. */
  function AllFeatures(hs: seq<Heading>): seq<string> {
    FlatMap(hs, HeadingFeatures)
  }

  /** A heading contributes at most three features, all trimmed and non-empty. */
  lemma HeadingFeaturesBound(h: Heading)
    ensures |HeadingFeatures(h)| <= ItemsPerList
    ensures forall f :: f in HeadingFeatures(h) ==> f != "" && IsTrimmed(f)
    ensures HeadingFeatures(h) != [] ==> IsFeatureHeading(h.text)
  {
    if IsFeatureHeading(h.text) && h.nextList.Some? {
      NonBlankElements(h.nextList.value[..Min(ItemsPerList, |h.nextList.value|)]);
    }
  }

  /** Every feature is an item listed under a heading that names a feature keyword. */
  lemma FeaturesComeFromFeatureHeadings(hs: seq<Heading>, f: string)
    requires f in AllFeatures(hs)
    ensures exists k :: 0 <= k < |hs| && IsFeatureHeading(hs[k].text) && f in HeadingFeatures(hs[k])
    ensures f != "" && IsTrimmed(f)
  {
    FlatMapMember(hs, HeadingFeatures, f);
    var k :| 0 <= k < |hs| && f in HeadingFeatures(hs[k]);
    HeadingFeaturesBound(hs[k]);
  }

  /** Features keep document order: the features of two runs of headings are concatenated. */
  lemma FeaturesInDocumentOrder(a: seq<Heading>, b: seq<Heading>)
    ensures AllFeatures(a + b) == AllFeatures(a) + AllFeatures(b)
  {
    FlatMapAppend(a, b, HeadingFeatures);
  }

  /** `extractFeatures`: the nested loop over headings and their first three list items. */
  method ExtractFeatures(hs: seq<Heading>) returns (features: seq<string>)
    ensures features == AllFeatures(hs)[..Min(MaxFeatures, |AllFeatures(hs)|)]
    ensures |features| <= MaxFeatures
    ensures forall f :: f in features ==> f != "" && IsTrimmed(f)
  {
    var all: seq<string> := [];
    for i := 0 to |hs|
      invariant all == AllFeatures(hs[..i])
    {
      FlatMapSnoc(hs, i, HeadingFeatures);
      var h := hs[i];
      if IsFeatureHeading(h.text) && h.nextList.Some? {
        var items := h.nextList.value[..Min(ItemsPerList, |h.nextList.value|)];
        ghost var before := all;
        for j := 0 to |items|
          invariant all == before + NonBlank(items[..j])
        {
          FlatMapSnoc(items, j, TrimmedIfPresent);
          var f := Trim(items[j]);
          if f != "" {
            all := all + [f];
          }
        }
        assert items[..|items|] == items;
      }
    }
    assert hs[..|hs|] == hs;
    features := all[..Min(MaxFeatures, |all|)];
    forall f | f in features ensures f != "" && IsTrimmed(f) {
      FeaturesComeFromFeatureHeadings(hs, f);
    }
  }

  // ---------------------------------------------------------------------------------------
  // extractLastUpdated: the datetime attribute, else /Updated\s+(\w+\s+\d+,\s+\d+)/, else the sentinel

  const UpdatedWord: string := "Updated"

  /**
   * One greedy `x+` step of a pattern: from a position, the end of the maximal non-empty run of
   * `p`-characters. The runs of the pattern below are separated by disjoint character classes,
   * so backtracking never shortens one and the maximal run is the one the pattern takes.
   */
  function Run(s: string, at: Option<nat>, p: char -> bool): (r: Option<nat>)
    ensures r.Some? ==> at.Some? && at.value < r.value <= |s|
  {
    if at.None? || at.value > |s| then None
    else
      var n := Span(s, at.value, p);
      if n == 0 then None else Some(at.value + n)
  }

  /** One literal-character step of a pattern. */
  function Literal(s: string, at: Option<nat>, c: char): (r: Option<nat>)
    ensures r.Some? ==> at.Some? && r.value == at.value + 1 <= |s|
  {
    if at.Some? && at.value < |s| && s[at.value] == c then Some(at.value + 1) else None
  }

  lemma RunOf(s: string, i: nat, p: char -> bool, n: nat)
    requires n > 0 && i + n <= |s|
    requires forall k :: i <= k < i + n ==> p(s[k])
    requires i + n == |s| || !p(s[i + n])
    ensures Run(s, Some(i), p) == Some(i + n)
  {
    SpanOf(s, i, p, n);
  }

  /** Where `\w+\s+\d+,\s+\d+` starting at `w` ends, if it matches there. */
  function DateEnd(s: string, w: nat): Option<nat> {
    YearEnd(s, DayEnd(s, w))
  }

  /** `\w+\s+\d+` */
  function DayEnd(s: string, w: nat): Option<nat> {
    Run(s, Run(s, Run(s, Some(w), IsWordChar), IsSpace), IsDigit)
  }

  /** `,\s+\d+` */
  function YearEnd(s: string, at: Option<nat>): Option<nat> {
    Run(s, Run(s, Literal(s, at, ','), IsSpace), IsDigit)
  }

  /**
   * The capture of `<lead>\s+(\w+\s+\d+,\s+\d+)` when it matches at index `p`; the
   * page pattern leads with the word `Updated`.
   */
  function DateCaptureAt(s: string, p: nat, lead: string): (r: Option<string>)
    requires p + |lead| <= |s|
  {
    if s[p..p + |lead|] != lead then None
    else
      var w := Run(s, Some(p + |lead|), IsSpace);
      if w.None? then None
      else
        var e := DateEnd(s, w.value);
        if e.None? then None else Some(s[w.value..e.value])
  }

  /** The leftmost match at or after index `p`. */
  function SearchDate(s: string, p: nat, lead: string): Option<string>
    decreases |s| - p
  {
    if p + |lead| > |s| then None
    else if DateCaptureAt(s, p, lead).Some? then DateCaptureAt(s, p, lead)
    else SearchDate(s, p + 1, lead)
  }

  /**
   * `extractLastUpdated`: a present datetime attribute wins (rendered by the locale formatter
   * `localize`); otherwise the text after "Updated"; otherwise the sentinel.
   */
  function ExtractLastUpdated(datetime: Value, bodyText: string, localize: string -> string): (r: string)
    ensures Truthy(datetime) ==> r == localize(datetime.s)
    ensures !Truthy(datetime) && SearchDate(bodyText, 0, UpdatedWord).Some? ==> r == SearchDate(bodyText, 0, UpdatedWord).value
    ensures !Truthy(datetime) && SearchDate(bodyText, 0, UpdatedWord).None? ==> r == Unknown
  {
    if Truthy(datetime) then localize(datetime.s)
    else
      var m := SearchDate(bodyText, 0, UpdatedWord);
      if m.Some? then m.value else Unknown
  }

  /** The search from `p` finds the capture at `p0` when no position from `p` up to `p0` matches. */
  lemma {:induction false} SearchDateLeftmost(s: string, p: nat, p0: nat, lead: string)
    requires p <= p0 && p0 + |lead| <= |s| && DateCaptureAt(s, p0, lead).Some?
    requires forall q :: p <= q < p0 ==> DateCaptureAt(s, q, lead).None?
    ensures SearchDate(s, p, lead) == DateCaptureAt(s, p0, lead)
    decreases p0 - p
  {
    if p < p0 {
      SearchDateLeftmost(s, p + 1, p0, lead);
    }
  }

  /** The search from `p` finds nothing exactly when the pattern matches at no position from `p` on. */
  lemma {:induction false} SearchDateNoneIff(s: string, p: nat, lead: string)
    ensures SearchDate(s, p, lead).None? <==>
              forall q :: p <= q && q + |lead| <= |s| ==> DateCaptureAt(s, q, lead).None?
    decreases |s| - p
  {
    if p + |lead| <= |s| {
      SearchDateNoneIff(s, p + 1, lead);
    }
  }

  /** Without a datetime attribute, the date is the capture of the first match in the page text. */
  lemma LastUpdatedFirstMatch(bodyText: string, localize: string -> string, p0: nat)
    requires p0 + |UpdatedWord| <= |bodyText| && DateCaptureAt(bodyText, p0, UpdatedWord).Some?
    requires forall q :: 0 <= q < p0 ==> DateCaptureAt(bodyText, q, UpdatedWord).None?
    ensures ExtractLastUpdated(Undefined, bodyText, localize) == DateCaptureAt(bodyText, p0, UpdatedWord).value
  {
    SearchDateLeftmost(bodyText, 0, p0, UpdatedWord);
  }

  /** Without a datetime attribute, the sentinel comes back when the pattern matches nowhere. */
  lemma LastUpdatedWithoutMatch(bodyText: string, localize: string -> string)
    requires forall q: nat :: q + |UpdatedWord| <= |bodyText| ==> DateCaptureAt(bodyText, q, UpdatedWord).None?
    ensures ExtractLastUpdated(Undefined, bodyText, localize) == Unknown
  {
    SearchDateNoneIff(bodyText, 0, UpdatedWord);
  }

  lemma DayEndOfRuns(s: string, w: nat, nw: nat, nd: nat)
    requires nw > 0 && nd > 0 && w + nw + 1 + nd < |s|
    requires forall k :: w <= k < w + nw ==> IsWordChar(s[k])
    requires s[w + nw] == ' '
    requires forall k :: w + nw + 1 <= k < w + nw + 1 + nd ==> IsDigit(s[k])
    requires !IsDigit(s[w + nw + 1 + nd])
    ensures DayEnd(s, w) == Some(w + nw + 1 + nd)
  {
    RunOf(s, w, IsWordChar, nw);
    RunOf(s, w + nw, IsSpace, 1);
    RunOf(s, w + nw + 1, IsDigit, nd);
  }

  lemma YearEndOfRuns(s: string, c: nat, nd: nat)
    requires nd > 0 && c + 2 + nd <= |s|
    requires s[c] == ',' && s[c + 1] == ' '
    requires forall k :: c + 2 <= k < c + 2 + nd ==> IsDigit(s[k])
    requires c + 2 + nd == |s| || !IsDigit(s[c + 2 + nd])
    ensures YearEnd(s, Some(c)) == Some(c + 2 + nd)
  {
    RunOf(s, c + 1, IsSpace, 1);
    RunOf(s, c + 2, IsDigit, nd);
  }

  /** The date pattern over runs of the right classes separated by single spaces. */
  lemma DateEndOfRuns(s: string, w: nat, nw: nat, nd1: nat, nd2: nat)
    requires nw > 0 && nd1 > 0 && nd2 > 0 && w + nw + 1 + nd1 + 2 + nd2 <= |s|
    requires forall k :: w <= k < w + nw ==> IsWordChar(s[k])
    requires s[w + nw] == ' '
    requires forall k :: w + nw + 1 <= k < w + nw + 1 + nd1 ==> IsDigit(s[k])
    requires s[w + nw + 1 + nd1] == ',' && s[w + nw + 1 + nd1 + 1] == ' '
    requires forall k :: w + nw + 1 + nd1 + 2 <= k < w + nw + 1 + nd1 + 2 + nd2 ==> IsDigit(s[k])
    requires var e := w + nw + 1 + nd1 + 2 + nd2; e == |s| || !IsDigit(s[e])
    ensures DateEnd(s, w) == Some(w + nw + 1 + nd1 + 2 + nd2)
  {
    DayEndOfRuns(s, w, nw, nd1);
    YearEndOfRuns(s, w + nw + 1 + nd1, nd2);
  }

  /** A page text that reads "Updated <Word> <d>, <d>" yields exactly "<Word> <d>, <d>". */
  lemma UpdatedTextCaptured(word: string, day: string, year: string, rest: string)
    requires word != [] && forall i :: 0 <= i < |word| ==> IsWordChar(word[i])
    requires day != [] && AllDigits(day) && year != [] && AllDigits(year)
    requires rest == [] || !IsDigit(rest[0])
    ensures SearchDate(UpdatedWord + " " + (word + " " + day + ", " + year) + rest, 0, UpdatedWord)
            == Some(word + " " + day + ", " + year)
  {
    LeadThenDate(UpdatedWord, word, day, year, word + " " + day + ", " + year, rest);
  }

  /** The same for any lead: a match at the very start is the leftmost one. */
  lemma LeadThenDate(lead: string, word: string, day: string, year: string, capture: string, rest: string)
    requires word != [] && forall i :: 0 <= i < |word| ==> IsWordChar(word[i])
    requires day != [] && AllDigits(day) && year != [] && AllDigits(year)
    requires capture == word + " " + day + ", " + year
    requires rest == [] || !IsDigit(rest[0])
    ensures SearchDate(lead + " " + capture + rest, 0, lead) == Some(capture)
  {
    var s := lead + " " + capture + rest;
    assert capture[0] == word[0];
    LeadLayout(lead, capture, rest);
    CaptureRuns(s, |lead| + 1, word, day, year);
    LeadAtStart(s, lead, capture);
  }

  /** Where each piece of `lead + " " + capture + rest` stands. */
  lemma LeadLayout(lead: string, capture: string, rest: string)
    requires capture != [] && !IsSpace(capture[0])
    requires rest == [] || !IsDigit(rest[0])
    ensures var s := lead + " " + capture + rest; var w := |lead| + 1;
      && w + |capture| <= |s| && s[..|lead|] == lead && s[|lead|] == ' '
      && s[w..w + |capture|] == capture && !IsSpace(s[w])
      && (w + |capture| == |s| || !IsDigit(s[w + |capture|]))
  {
    var s := lead + " " + capture + rest;
    FourParts(lead, " ", capture, rest);
    var w := |lead| + 1;
    assert s[|lead|] == s[|lead|..w][0];
    assert s[w] == capture[0];
    var e := w + |capture|;
    assert e < |s| ==> s[e] == rest[0];
  }

  /** The lead, one space, then a date: the search finds that date at the start. */
  lemma LeadAtStart(s: string, lead: string, capture: string)
    requires |lead| + 1 <= |s| && s[..|lead|] == lead && s[|lead|] == ' '
    requires var w := |lead| + 1; w + |capture| <= |s| && s[w..w + |capture|] == capture
    requires var w := |lead| + 1; w < |s| && !IsSpace(s[w]) && DateEnd(s, w) == Some(w + |capture|)
    ensures SearchDate(s, 0, lead) == Some(capture)
  {
    RunOf(s, |lead|, IsSpace, 1);
    assert s[0..|lead|] == s[..|lead|];
  }

  lemma CaptureRuns(s: string, w: nat, word: string, day: string, year: string)
    requires word != [] && forall i :: 0 <= i < |word| ==> IsWordChar(word[i])
    requires day != [] && AllDigits(day) && year != [] && AllDigits(year)
    requires w + |word + " " + day + ", " + year| <= |s|
    requires s[w..w + |word + " " + day + ", " + year|] == word + " " + day + ", " + year
    requires var e := w + |word + " " + day + ", " + year|; e == |s| || !IsDigit(s[e])
    ensures DateEnd(s, w) == Some(w + |word + " " + day + ", " + year|)
  {
    var capture := word + " " + day + ", " + year;
    var d1 := w + |word| + 1;
    var d2 := d1 + |day| + 2;
    assert forall k :: 0 <= k < |capture| ==> s[w + k] == capture[k];
    assert forall k :: w <= k < w + |word| ==> s[k] == word[k - w];
    assert forall k :: d1 <= k < d1 + |day| ==> s[k] == day[k - d1];
    assert forall k :: d2 <= k < d2 + |year| ==> s[k] == year[k - d2];
    DateEndOfRuns(s, w, |word|, |day|, |year|);
  }

  // ---------------------------------------------------------------------------------------
  // extractContributorsCount: parseInt of the first /(\d+)/ match, or the sentinel

  /** A contributor count, or the sentinel "未知". */
  datatype Count = Known(n: nat) | UnknownCount

  /** The index of the first digit at or after `i`, if any. */
  function FirstDigit(s: string, i: nat): (k: int)
    requires i <= |s|
    ensures k == -1 || i <= k < |s|
    ensures k == -1 ==> forall j :: i <= j < |s| ==> !IsDigit(s[j])
    ensures k >= 0 ==> IsDigit(s[k]) && forall j :: i <= j < k ==> !IsDigit(s[j])
    decreases |s| - i
  {
    if i == |s| then -1 else if IsDigit(s[i]) then i else FirstDigit(s, i + 1)
  }

  /** `extractContributorsCount` over the text of the contributors links. */
  function ExtractContributorsCount(linkText: string): (c: Count)
    ensures c.UnknownCount? <==> forall j :: 0 <= j < |linkText| ==> !IsDigit(linkText[j])
  {
    var k := FirstDigit(linkText, 0);
    if k == -1 then UnknownCount
    else
      var digits := linkText[k..k + Span(linkText, k, IsDigit)];
      SpanIsRun(linkText, k, IsDigit);
      Known(DecimalValue(digits))
  }

  /**
   * The count is the value of the first run of digits in the text, leading zeros included
   * (as `parseInt` reads "07" as 7).
   */
  lemma ContributorsCountReadsFirstNumber(prefix: string, ds: string, rest: string)
    requires forall j :: 0 <= j < |prefix| ==> !IsDigit(prefix[j])
    requires ds != [] && AllDigits(ds)
    requires rest == [] || !IsDigit(rest[0])
    ensures ExtractContributorsCount(prefix + ds + rest) == Known(DecimalValue(ds))
  {
    var s := prefix + ds + rest;
    assert s[|prefix|] == ds[0];
    assert FirstDigit(s, 0) == |prefix|;
    assert s[|prefix|..|prefix| + |ds|] == ds;
    assert |prefix| + |ds| == |s| || s[|prefix| + |ds|] == rest[0];
    SpanOf(s, |prefix|, IsDigit, |ds|);
  }

  /** A number written out in decimal after digit-free text is read back as that number. */
  lemma ContributorsCountReadsRenderedNumber(prefix: string, n: nat, rest: string)
    requires forall j :: 0 <= j < |prefix| ==> !IsDigit(prefix[j])
    requires rest == [] || !IsDigit(rest[0])
    ensures ExtractContributorsCount(prefix + NatToString(n) + rest) == Known(n)
  {
    ContributorsCountReadsFirstNumber(prefix, NatToString(n), rest);
    NatToStringRoundTrip(n);
  }

  // ---------------------------------------------------------------------------------------
  // fetchRepositoryDetails

  /** What the selectors find on a repository page. */
  datatype DetailPage = DetailPage(
    headerName: string, descriptionText: string, topicTexts: seq<string>,
    forkedLabel: bool, mirrorLabel: bool, archivedLabel: bool,
    articleText: string, headings: seq<Heading>, datetime: Value, bodyText: string,
    contributorsText: string)

  /** What the request for a repository page produced. */
  datatype DetailOutcome =
    | DetailAborted
    | DetailThrew(message: string)
    | DetailResponded(status: nat, page: DetailPage)

  /** The details object `fetchRepositoryDetails` returns. */
  datatype Details = Details(
    fullName: string, description: string, topics: seq<string>, languages: seq<string>,
    isForked: bool, isMirror: bool, isArchived: bool, readmeExcerpt: string,
    features: seq<string>, lastUpdated: string, contributorsCount: Count)

  /** The header name, or the name read from the URL when the header is empty. */
  function FullName(url: string, headerName: string): (r: string)
    ensures Trim(headerName) != "" ==> r == Trim(headerName)
    ensures Trim(headerName) == "" ==> r == ExtractRepoName(url)
  {
    OrElse(Str(Trim(headerName)), ExtractRepoName(url))
  }

  /** The details read from a page that was fetched successfully. */
  function DetailsOf(url: string, page: DetailPage, localize: string -> string): Details {
    var all := AllFeatures(page.headings);
    Details(
      FullName(url, page.headerName), Trim(page.descriptionText), NonBlank(page.topicTexts), [],
      page.forkedLabel, page.mirrorLabel, page.archivedLabel,
      ExtractReadmeExcerpt(page.articleText), all[..Min(MaxFeatures, |all|)],
      ExtractLastUpdated(page.datetime, page.bodyText, localize),
      ExtractContributorsCount(page.contributorsText))
  }

  /** The result of `fetchRepositoryDetails` for a given outcome of the request. */
  function DetailsResult(url: string, outcome: DetailOutcome, localize: string -> string): (r: Option<Details>)
    ensures r.None? <==> !(outcome.DetailResponded? && Scraper.IsOk(outcome.status))
  {
    if outcome.DetailResponded? && Scraper.IsOk(outcome.status) then Some(DetailsOf(url, outcome.page, localize))
    else None
  }

  /** The topics loop: non-empty trimmed topic-link texts in document order. */
  method CollectTopics(texts: seq<string>) returns (topics: seq<string>)
    ensures topics == NonBlank(texts)
    ensures |topics| <= |texts|
    ensures forall t :: t in topics ==> t != "" && IsTrimmed(t)
  {
    topics := [];
    for i := 0 to |texts|
      invariant topics == NonBlank(texts[..i])
    {
      FlatMapSnoc(texts, i, TrimmedIfPresent);
      var topic := Trim(texts[i]);
      if topic != "" {
        topics := topics + [topic];
      }
    }
    assert texts[..|texts|] == texts;
    NonBlankElements(texts);
  }

  /**
   * `fetchRepositoryDetails`: never throws. A non-success status, an abort or any other error
   * gives no details (`null`); a page fetched successfully gives its details.
   */
  method FetchRepositoryDetails(url: string, outcome: DetailOutcome, localize: string -> string)
    returns (r: Option<Details>)
    ensures r == DetailsResult(url, outcome, localize)
    ensures r.None? <==> !(outcome.DetailResponded? && Scraper.IsOk(outcome.status))
    ensures r.Some? ==> |r.value.features| <= MaxFeatures && |r.value.readmeExcerpt| <= ExcerptLength + |Ellipsis|
  {
    match outcome
    case DetailAborted =>
      r := None;
    case DetailThrew(_) =>
      r := None;
    case DetailResponded(status, page) =>
      if !Scraper.IsOk(status) {
        r := None;
      } else {
        var features := ExtractFeatures(page.headings);
        var topics := CollectTopics(page.topicTexts);
        r := Some(Details(
          FullName(url, page.headerName), Trim(page.descriptionText), topics, [],
          page.forkedLabel, page.mirrorLabel, page.archivedLabel,
          ExtractReadmeExcerpt(page.articleText), features,
          ExtractLastUpdated(page.datetime, page.bodyText, localize),
          ExtractContributorsCount(page.contributorsText)));
      }
  }
}
