/**
 * Listing assembly and prompt formatting: the trending URL, the outcome of the listing request,
 * the per-row loop that turns extracted rows into normalised records, and the prompt text.
 */
module Scraper {
  import opened Wrappers
  import opened Text
  import opened Validator
  import opened Sequences

  const TrendingBase: string := "https://github.com/trending"
  const SiteOrigin: string := "https://github.com"
  const SinceQuery: string := "?since="
  const DefaultLanguage: string := ""
  const DefaultSince: string := "daily"
  const TimeoutMessage: string := "抓取 GitHub Trending 超时"

  /** The listing URL: the language, when given, is a path segment; the window is a query. */
  function TrendingUrl(language: string, since: string): (url: string)
    ensures TrendingBase <= url
  {
    if language != "" then TrendingBase + ("/" + language + SinceQuery + since)
    else TrendingBase + (SinceQuery + since)
  }

  /** Reads the language and the time window back out of a listing URL. */
  function ParseTrendingUrl(url: string): Option<(string, string)> {
    if TrendingBase <= url then ParseAfterBase(url[|TrendingBase|..]) else None
  }

  /** The language and the time window from what follows the base of a listing URL. */
  function ParseAfterBase(rest: string): Option<(string, string)> {
    if SinceQuery <= rest then Some(("", rest[|SinceQuery|..]))
    else if rest != [] && rest[0] == '/' then
      var q := IndexOf(rest, '?');
      if q < 1 then None
      else if SinceQuery <= rest[q..] then Some((rest[1..q], rest[q + |SinceQuery|..]))
      else None
    else None
  }

  /** The URL determines the language and the window, as long as the language has no '?'. */
  lemma TrendingUrlRoundTrip(language: string, since: string)
    requires '?' !in language
    ensures ParseTrendingUrl(TrendingUrl(language, since)) == Some((language, since))
  {
    if language == "" {
      WindowOnlyRoundTrip(since);
    } else {
      BaseThen(TrendingBase, "/" + language + SinceQuery + since);
      PathThenQuery(language, since);
    }
  }

  /** Without a language the URL is the base, the query and the window. */
  lemma WindowOnlyRoundTrip(since: string)
    ensures ParseTrendingUrl(TrendingUrl("", since)) == Some(("", since))
  {
    BaseThen(TrendingBase, SinceQuery + since);
    BaseThen(SinceQuery, since);
  }

  /** What follows a prefix is read back from the concatenation. */
  lemma BaseThen(base: string, rest: string)
    ensures base <= base + rest && (base + rest)[|base|..] == rest
  {
  }

  /** After the base, "/" + language + "?since=" + window is read back as the two values. */
  lemma PathThenQuery(language: string, since: string)
    requires language != "" && '?' !in language
    ensures ParseAfterBase("/" + language + SinceQuery + since) == Some((language, since))
  {
    var rest := "/" + language + SinceQuery + since;
    var q := 1 + |language|;
    assert rest[q] == '?';
    assert rest[..q] == "/" + language;
    IndexOfIs(rest, '?', q);
    assert rest[q..] == SinceQuery + since;
    assert rest[1..q] == language;
    assert !(SinceQuery <= rest) by {
      assert rest[0] == '/' != SinceQuery[0];
    }
  }

  /** The text the selectors find in one listing row (`undefined` when a link has no href). */
  datatype RowText = RowText(
    nameText: string, href: Value, descriptionText: string, languageText: string,
    starsText: string, todayStarsText: string)

  /** One row of the listing: either its texts, or the error its extraction threw. */
  datatype RowExtraction = Extracted(text: RowText) | ExtractionThrew(message: string)

  /** What the listing request produced. */
  datatype ListingOutcome =
    | ListingAborted
    | ListingThrew(message: string)
    | ListingResponded(status: nat, statusText: string, rows: seq<RowExtraction>)

  /** `response.ok` */
  predicate IsOk(status: nat) {
    200 <= status <= 299
  }

  /** The record built from one row, before validation. */
  function Build(t: RowText): (p: RawProject)
    ensures p.name.Str? && p.url.Str? && p.description.Str? && p.language.Str?
    ensures p.stars.Str? && p.todayStars.Str?
    ensures SiteOrigin <= p.url.s
  {
    RawProject(
      Str(CollapseSpaces(Trim(t.nameText))),
      Str(SiteOrigin + Interpolate(t.href)),
      Str(OrElse(Str(Trim(t.descriptionText)), NoDescription)),
      Str(OrElse(Str(Trim(t.languageText)), Unspecified)),
      Str(Trim(t.starsText)),
      Str(Trim(t.todayStarsText)))
  }

  /** Every record built from a row passes `validateProject`: the check never rejects here. */
  lemma BuiltRowsAreValid(t: RowText)
    ensures ValidateProject(Build(t))
  {
  }

  /** What one row contributes to the output of `parseProjects`. */
  function RowStep(row: RowExtraction): seq<Project> {
    match row
    case ExtractionThrew(_) => []
    case Extracted(t) => var p := Build(t); if ValidateProject(p) then [Sanitize(p)] else []
  }

  /** The records `parseProjects` returns for the given rows. */
  function Parsed(rows: seq<RowExtraction>): seq<Project> {
    FlatMap(rows, RowStep)
  }

  /** The text of a row whose extraction did not throw. */
  function ExtractedText(row: RowExtraction): seq<RowText> {
    if row.Extracted? then [row.text] else []
  }

  /** The texts of the rows whose extraction did not throw, in page order. */
  function ExtractedTexts(rows: seq<RowExtraction>): (ts: seq<RowText>)
    ensures |ts| <= |rows|
  {
    FlatMapShorter(rows, ExtractedText);
    FlatMap(rows, ExtractedText)
  }

  /** The normalised record of one row's texts. */
  function Normalised(t: RowText): Project {
    Sanitize(Build(t))
  }

  /**
   * The output holds exactly one normalised record per row that did not throw, in page order:
   * a throwing row is skipped and nothing else is.
   */
  lemma ParsedIsSanitizedRows(rows: seq<RowExtraction>)
    ensures |Parsed(rows)| == |ExtractedTexts(rows)| <= |rows|
    ensures forall k :: 0 <= k < |Parsed(rows)| ==>
              Parsed(rows)[k] == Sanitize(Build(ExtractedTexts(rows)[k]))
  {
    forall row
      ensures |ExtractedText(row)| <= 1
      ensures RowStep(row) == (if ExtractedText(row) == [] then [] else [Normalised(ExtractedText(row)[0])])
    {
      if row.Extracted? {
        RowStepExtracted(row.text);
      }
    }
    FlatMapThrough(rows, RowStep, ExtractedText, Normalised);
  }

  /** A row that did not throw contributes its normalised record. */
  lemma RowStepExtracted(t: RowText)
    ensures RowStep(Extracted(t)) == [Sanitize(Build(t))]
  {
    BuiltRowsAreValid(t);
  }

  /** Parsing two runs of rows one after the other gives the two outputs one after the other. */
  lemma ParsedAppend(a: seq<RowExtraction>, b: seq<RowExtraction>)
    ensures Parsed(a + b) == Parsed(a) + Parsed(b)
  {
    FlatMapAppend(a, b, RowStep);
  }

  /** The name of a row's record is its trimmed text with white space runs collapsed. */
  lemma RowName(t: RowText)
    ensures Trim(t.nameText) == "" ==> Sanitize(Build(t)).name == UnknownProject
    ensures Trim(t.nameText) != "" ==> Sanitize(Build(t)).name == CollapseSpaces(Trim(t.nameText))
  {
    var n := CollapseSpaces(Trim(t.nameText));
    if Trim(t.nameText) != "" {
      CollapseSpacesFirst(Trim(t.nameText));
      CollapseSpacesLast(Trim(t.nameText));
      assert IsTrimmed(n);
      assert !IsBlank(n) by { assert !IsSpace(n[0]); }
      TrimOfTrimmed(n);
    }
  }

  /** The URL of a row's record is absolute: it starts with the site origin. */
  lemma RowUrl(t: RowText)
    ensures Sanitize(Build(t)).url == Trim(SiteOrigin + Interpolate(t.href))
    ensures SiteOrigin <= Sanitize(Build(t)).url
  {
    var u := SiteOrigin + Interpolate(t.href);
    assert !IsSpace(u[0]);
    assert !IsBlank(u);
    assert TrimStart(u) == u;
    var e := TrimEnd(u);
    assert u[|SiteOrigin| - 1] == 'm';
    assert |e| >= |SiteOrigin|;
    assert e[..|SiteOrigin|] == u[..|SiteOrigin|];
  }

  /** `parseProjects`, over rows whose texts the selectors have already extracted. */
  method ParseProjects(rows: seq<RowExtraction>) returns (projects: seq<Project>)
    ensures projects == Parsed(rows)
    ensures |projects| <= |rows|
  {
    projects := [];
    for i := 0 to |rows|
      invariant projects == Parsed(rows[..i])
    {
      FlatMapSnoc(rows, i, RowStep);
      match rows[i]
      case Extracted(t) =>
        var p := Build(t);
        if ValidateProject(p) {
          projects := projects + [Sanitize(p)];
        }
      case ExtractionThrew(_) =>
    }
    assert rows[..|rows|] == rows;
    ParsedIsSanitizedRows(rows);
  }

  /** `HTTP <status>: <statusText>` */
  function HttpError(status: nat, statusText: string): string {
    "HTTP " + NatToString(status) + ": " + statusText
  }

  /** The status can be read back from the error message. */
  lemma HttpErrorNamesStatus(status: nat, statusText: string)
    ensures var m := HttpError(status, statusText);
      var n := Span(m, 5, IsDigit);
      AllDigits(m[5..5 + n]) && DecimalValue(m[5..5 + n]) == status
  {
    var m := HttpError(status, statusText);
    var ds := NatToString(status);
    assert m == "HTTP " + ds + ": " + statusText;
    assert m[5 + |ds|] == ':';
    SpanOf(m, 5, IsDigit, |ds|);
    assert m[5..5 + |ds|] == ds;
    NatToStringRoundTrip(status);
  }

  /** The outcome of `fetchTrending` for a given outcome of the request. */
  function FetchResult(outcome: ListingOutcome): (r: Result<seq<Project>, string>)
    ensures outcome.ListingAborted? ==> r == Failure(TimeoutMessage)
    ensures outcome.ListingThrew? ==> r == Failure(outcome.message)
    ensures outcome.ListingResponded? && !IsOk(outcome.status) ==>
              r == Failure(HttpError(outcome.status, outcome.statusText))
    ensures outcome.ListingResponded? && IsOk(outcome.status) ==> r == Success(Parsed(outcome.rows))
  {
    match outcome
    case ListingAborted => Failure(TimeoutMessage)
    case ListingThrew(m) => Failure(m)
    case ListingResponded(status, statusText, rows) =>
      if IsOk(status) then Success(Parsed(rows)) else Failure(HttpError(status, statusText))
  }

  /**
   * `fetchTrending`: requests the listing URL; a timeout and a non-success status become errors,
   * any other error propagates, and a successful response is parsed row by row.
   */
  method FetchTrending(language: string, since: string, outcome: ListingOutcome)
    returns (requested: string, r: Result<seq<Project>, string>)
    ensures requested == TrendingUrl(language, since)
    ensures r == FetchResult(outcome)
    ensures r.Success? ==> |r.value| <= |outcome.rows|
  {
    requested := TrendingUrl(language, since);
    match outcome
    case ListingAborted =>
      r := Failure(TimeoutMessage);
    case ListingThrew(m) =>
      r := Failure(m);
    case ListingResponded(status, statusText, rows) =>
      if !IsOk(status) {
        r := Failure(HttpError(status, statusText));
      } else {
        var projects := ParseProjects(rows);
        r := Success(projects);
      }
  }

  // ---------------------------------------------------------------------------------------
  // Prompt text

  const NameLabel: string := ". 项目名称："
  const UrlLabel: string := "\n       GitHub 链接："
  const DescriptionLabel: string := "\n       项目描述："
  const LanguageLabel: string := "\n       主要语言："
  const StarsLabel: string := "\n       总获赞数："
  const TodayLabel: string := "\n       今日新增："
  const BlockSeparator: string := "\n\n"

  /** A label followed by a field value. */
  function Labelled(caption: string, value: string): string {
    caption + value
  }

  /** The numbered block of record `p` at 1-based position `n`. */
  function Block(n: nat, p: Project): (b: string)
    ensures NatToString(n) + NameLabel <= b
    ensures b != []
  {
    NatToString(n) + Labelled(NameLabel, p.name) + Labelled(UrlLabel, p.url)
    + Labelled(DescriptionLabel, p.description) + Labelled(LanguageLabel, p.language)
    + Labelled(StarsLabel, p.stars) + Labelled(TodayLabel, p.todayStars)
  }

  /** Each of the six fields stands verbatim in the block, right after its label. */
  lemma BlockShowsFields(n: nat, p: Project)
    ensures IsInfix(Labelled(NameLabel, p.name), Block(n, p))
    ensures IsInfix(Labelled(UrlLabel, p.url), Block(n, p))
    ensures IsInfix(Labelled(DescriptionLabel, p.description), Block(n, p))
    ensures IsInfix(Labelled(LanguageLabel, p.language), Block(n, p))
    ensures IsInfix(Labelled(StarsLabel, p.stars), Block(n, p))
    ensures IsInfix(Labelled(TodayLabel, p.todayStars), Block(n, p))
  {
    var f0, f1, f2 := NatToString(n), Labelled(NameLabel, p.name), Labelled(UrlLabel, p.url);
    var f3, f4 := Labelled(DescriptionLabel, p.description), Labelled(LanguageLabel, p.language);
    var f5, f6 := Labelled(StarsLabel, p.stars), Labelled(TodayLabel, p.todayStars);
    InfixOfParts(f0, f1, f2, f3, f4, f5, f6);
  }

  function Blocks(ps: seq<Project>): (bs: seq<string>)
    ensures |bs| == |ps|
    ensures forall k :: 0 <= k < |ps| ==> bs[k] == Block(k + 1, ps[k])
  {
    seq(|ps|, k requires 0 <= k < |ps| => Block(k + 1, ps[k]))
  }

  /** `formatProjectsText`: the numbered blocks in input order, separated by a blank line. */
  function FormatProjectsText(ps: seq<Project>): (text: string)
    ensures text == "" <==> ps == []
  {
    var bs := Blocks(ps);
    assert |bs| >= 2 ==> bs[0] != [];
    Join(bs, BlockSeparator)
  }

  /** Formatting one more record appends a separator and that record's block numbered n + 1. */
  lemma FormatAppend(ps: seq<Project>, p: Project)
    ensures FormatProjectsText(ps + [p]) ==
              (if ps == [] then "" else FormatProjectsText(ps) + BlockSeparator) + Block(|ps| + 1, p)
  {
    var bs := Blocks(ps);
    assert Blocks(ps + [p]) == bs + [Block(|ps| + 1, p)];
    if ps != [] {
      JoinSnoc(bs, BlockSeparator, Block(|ps| + 1, p));
    }
  }

  /** The text shows every record, numbered by its position, with all six field values. */
  lemma FormatShowsEveryRecord(ps: seq<Project>, k: nat)
    requires k < |ps|
    ensures IsInfix(Block(k + 1, ps[k]), FormatProjectsText(ps))
    ensures IsInfix(Labelled(NameLabel, ps[k].name), FormatProjectsText(ps))
    ensures IsInfix(Labelled(UrlLabel, ps[k].url), FormatProjectsText(ps))
    ensures IsInfix(Labelled(DescriptionLabel, ps[k].description), FormatProjectsText(ps))
    ensures IsInfix(Labelled(LanguageLabel, ps[k].language), FormatProjectsText(ps))
    ensures IsInfix(Labelled(StarsLabel, ps[k].stars), FormatProjectsText(ps))
    ensures IsInfix(Labelled(TodayLabel, ps[k].todayStars), FormatProjectsText(ps))
  {
    var text := FormatProjectsText(ps);
    var p := ps[k];
    var b := Block(k + 1, p);
    JoinHasEveryPart(Blocks(ps), BlockSeparator, k);
    BlockShowsFields(k + 1, p);
    InfixTransitive(Labelled(NameLabel, p.name), b, text);
    InfixTransitive(Labelled(UrlLabel, p.url), b, text);
    InfixTransitive(Labelled(DescriptionLabel, p.description), b, text);
    InfixTransitive(Labelled(LanguageLabel, p.language), b, text);
    InfixTransitive(Labelled(StarsLabel, p.stars), b, text);
    InfixTransitive(Labelled(TodayLabel, p.todayStars), b, text);
  }
}
