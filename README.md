# GitHub trending bot, modelled in Dafny

The bot runs once a day:

1. It checks its environment: two API keys and a recipient address.
2. It fetches the GitHub trending listing and turns each listing row into a validated, normalised record.
3. It formats the records as numbered text blocks.
4. It asks a generative model for an HTML report, retrying a bounded number of times.
5. It mails the report to one recipient, or to each of several recipients in turn. A failed HTML message falls back to plain text.

Two helpers belong to the same code base:
- an enrichment step that fetches repository detail pages in batches;
- a self-check that writes a text report about a scrape.

The model follows the JavaScript module by module:

| Dafny module | file | models |
|---|---|---|
| `Validator` | `validator.dfy` | record validation and sanitising, and the environment check |
| `Scraper` | `scraper.dfy` | the listing URL, response handling, the row loop of `parseProjects`, `formatProjectsText` |
| `RepositoryFetcher` | `repository_fetcher.dfy` | repository name, README excerpt, features, last-updated date, contributor count, topics, and the null-on-failure detail fetch |
| `Ai` | `ai.dfy` | `AIService`: the constructor guard, prompt selection and the retry loop |
| `Email` | `email.dfy` | `EmailService`: `sendHtml`, `sendFallbackText` and `sendBatch` |
| `Enricher` | `enricher.dfy` | `fetchRepositoriesInBatches` |
| `Pipeline` | `pipeline.dfy` | `main` |
| `ReportWriter` | `report_writer.dfy` | the self-check's `OutputWriter` buffer and its field and language counters |
| `Text`, `Sequences`, `Wrappers` | `text.dfy`, `sequences.dfy`, `wrappers.dfy` | the JavaScript string built-ins used above, sequence lemmas, and `Option`/`Result` |

External services become inputs:
- An HTTP request becomes an outcome value. The outcome says whether the request was aborted, threw, or answered with a status and what the page's selectors found.
- The generative model and the mail provider become functions from the request's index and its content to a reply. Each service object keeps the list of requests it has sent.
- Waits are counted in milliseconds, not performed.
- Locale date formatting becomes a parameter: `today`, or `localize`.

A JavaScript value that may be `undefined` is a `Value` (`Str(s)` or `Undefined`). A function that throws returns a `Result` whose failure carries the error message.

## Model

| member | source | states |
|---|---|---|
| Validator.Fields | src/utils/validator.js:8 | the six checked values, one per required field name |
| Validator.MissingAmong | src/utils/validator.js:9 | the filter keeps only names of the list; it is empty exactly when no value is missing (absent and not `''`) |
| Validator.MissingFields | src/utils/validator.js:8-9 | at most the six field names are reported |
| Validator.ValidateProject | src/utils/validator.js:7-17 | a record passes exactly when each of the six fields holds a string, the empty string included |
| Validator.Clean | src/utils/validator.js:24-29 | an absent or blank value becomes the sentinel; any other value is trimmed and non-empty; a trimmed sentinel keeps the result trimmed |
| Validator.Sanitize | src/utils/validator.js:22-31 | every field is trimmed and every field but `url` is non-empty; per field, an absent or blank value gives '未知项目', '' (url), '暂无描述', '未指定' or '0', and any other value gives its trim |
| Validator.SentinelsTrimmed | src/utils/validator.js:24-29 | the sentinels have no surrounding white space |
| Validator.SanitizeKeepsNormal | src/utils/validator.js:22-31 | a normalised record is a fixed point of sanitising |
| Validator.CleanKeeps | src/utils/validator.js:24-29 | a trimmed value is kept unless it is empty and the sentinel is not |
| Validator.SanitizeIdempotent | src/utils/validator.js:22-31 | sanitising twice equals sanitising once |
| Validator.MissingEnv | src/utils/validator.js:37-38 | exactly the unset or empty required variables are listed, in the order GEMINI_API_KEY, RESEND_API_KEY, RECIPIENT_EMAIL |
| Validator.ShapedImpliesPattern | src/utils/validator.js:45 | the executable email check implies a match of `^[^\s@]+@[^\s@]+\.[^\s@]+$` |
| Validator.PatternImpliesShaped | src/utils/validator.js:45 | any way of matching the pattern is accepted by the executable check |
| Validator.EmailShapedMatchesPattern | src/utils/validator.js:45 | the email check and the regular expression agree in both directions |
| Validator.TwoAddressesRejected | src/utils/validator.js:45-48 | a comma-separated list in which two entries hold an '@' is rejected |
| Validator.ValidateEnv | src/utils/validator.js:36-49 | missing variables are reported first, all in one error; otherwise the recipient's shape error; success exactly when all three are set and the recipient matches the pattern |
| Scraper.TrendingUrl | src/services/scraper.js:13-16 | the URL starts with the listing base |
| Scraper.TrendingUrlRoundTrip | src/services/scraper.js:14-16 | language (as a path segment, when given) and window (as the `since` query) are read back from the URL |
| Scraper.WindowOnlyRoundTrip | src/services/scraper.js:16 | without a language, the window is read back and the language is empty |
| Scraper.PathThenQuery | src/services/scraper.js:15 | `/<language>?since=<window>` after the base reads back as the two values |
| Scraper.Build | src/services/scraper.js:59-66 | every field of a built row is a string, and its url starts with `https://github.com` |
| Scraper.BuiltRowsAreValid | src/services/scraper.js:59-69 | `validateProject` never rejects a row built by the loop |
| Scraper.ExtractedTexts | src/services/scraper.js:55-56 | the rows whose extraction did not throw are no more than the rows |
| Scraper.ParsedIsSanitizedRows | src/services/scraper.js:55-77 | the output has one record per row that did not throw, in page order, each the sanitised record built from that row |
| Scraper.RowStepExtracted | src/services/scraper.js:59-71 | a row that does not throw contributes exactly its sanitised record |
| Scraper.ParsedAppend | src/services/scraper.js:55-75 | parsing two runs of rows gives the two outputs one after the other |
| Scraper.RowName | src/services/scraper.js:60 | the name is the trimmed text with white-space runs collapsed to one space, or '未知项目' when blank |
| Scraper.RowUrl | src/services/scraper.js:61 | the url is `https://github.com` + href (trimmed), so it is absolute |
| Scraper.ParseProjects | src/services/scraper.js:50-78 | the loop returns exactly the specified records and never more records than rows |
| Scraper.HttpErrorNamesStatus | src/services/scraper.js:28 | the status code can be read back from the `HTTP <status>: <statusText>` message |
| Scraper.FetchResult | src/services/scraper.js:20-44 | an abort gives the fixed timeout error, another throw its own message, a non-OK status the HTTP error, and an OK response the parsed rows |
| Scraper.FetchTrending | src/services/scraper.js:13-45 | the requested URL is the listing URL and the result is that of `FetchResult`, no longer than the rows |
| Scraper.Block | src/services/scraper.js:84-90 | a block starts with its number and the name label |
| Scraper.BlockShowsFields | src/services/scraper.js:85-90 | each of the six field values stands verbatim in the block right after its label |
| Scraper.Blocks | src/services/scraper.js:84-90 | one block per record, the k-th numbered k + 1 |
| Scraper.FormatProjectsText | src/services/scraper.js:83-92 | the text is empty exactly when there are no records |
| Scraper.FormatAppend | src/services/scraper.js:83-92 | one more record appends the blank-line separator (when there were records) and its block with the next number |
| Scraper.FormatShowsEveryRecord | src/services/scraper.js:83-92 | the text holds each record's numbered block and all six of its labelled field values |
| RepositoryFetcher.MatchRepoAt | src/services/repository-fetcher.js:85 | a match at a position is `github.com/` followed by an `owner/repo` path that stands right after it |
| RepositoryFetcher.RepoPathOf | src/services/repository-fetcher.js:85 | two non-empty slash-free segments joined by '/' form a repository path (exactly one '/', not at either end) |
| RepositoryFetcher.RepoPathAt | src/services/repository-fetcher.js:85 | two slash-free runs around a '/' in the URL form a repository path |
| RepositoryFetcher.SearchRepoFinds | src/services/repository-fetcher.js:85 | whatever the leftmost-match search finds is a repository path that follows the marker in the URL |
| RepositoryFetcher.ExtractRepoName | src/services/repository-fetcher.js:84-87 | the result is '未知仓库' or an `owner/repo` path that follows `github.com/` in the URL |
| RepositoryFetcher.SearchRepoLeftmost | src/services/repository-fetcher.js:85 | the search returns the match at the first position where the pattern matches |
| RepositoryFetcher.SearchRepoNoneIff | src/services/repository-fetcher.js:85 | the search finds nothing exactly when the pattern matches at no position |
| RepositoryFetcher.ExtractRepoNameFirstMatch | src/services/repository-fetcher.js:84-87 | the name is the capture of the leftmost match |
| RepositoryFetcher.ExtractRepoNameUnknownIff | src/services/repository-fetcher.js:84-87 | '未知仓库' comes back exactly when the pattern matches nowhere in the URL |
| RepositoryFetcher.SearchRepoSkips | src/services/repository-fetcher.js:85 | the search skips positions where the marker cannot start |
| RepositoryFetcher.MatchRepoAtSegments | src/services/repository-fetcher.js:85 | where the marker, then `owner/repo` ending at '/' or the end, stand, the match is exactly `owner/repo` |
| RepositoryFetcher.PathRuns | src/services/repository-fetcher.js:85 | `[^/]+` measures the owner and the repo segments exactly |
| RepositoryFetcher.MatchRepoAtRuns | src/services/repository-fetcher.js:85 | the match is the slice spanned by the two measured runs |
| RepositoryFetcher.RepoNameOfRepositoryUrl | src/services/repository-fetcher.js:84-87 | on `https://github.com/owner/repo` followed by nothing or a path, the name is exactly `owner/repo` |
| RepositoryFetcher.ExtractReadmeExcerpt | src/services/repository-fetcher.js:92-98 | empty exactly for an empty text; otherwise a trimmed text of at most 200 characters followed by '...' (so at most 203) |
| RepositoryFetcher.ExcerptOfShortText | src/services/repository-fetcher.js:97 | a trimmed text of at most 200 characters is kept whole, with '...' added |
| RepositoryFetcher.ExcerptComesFromPrefix | src/services/repository-fetcher.js:97 | the kept text is a piece of the article's first 200 characters |
| RepositoryFetcher.ExcerptDropsOnlySpace | src/services/repository-fetcher.js:97 | the kept text is the article's first 200 characters with only a run of white space removed at each end |
| RepositoryFetcher.TrimmedIfPresent | src/services/repository-fetcher.js:114-115 | an item contributes at most one feature |
| RepositoryFetcher.NonBlankElements | src/services/repository-fetcher.js:114-115 | the kept items are no more than the items, and each is trimmed and non-empty |
| RepositoryFetcher.HeadingFeaturesBound | src/services/repository-fetcher.js:108-117 | a heading contributes at most 3 features, trimmed and non-empty, and only if it names a feature keyword |
| RepositoryFetcher.FeaturesComeFromFeatureHeadings | src/services/repository-fetcher.js:108-119 | every feature is an item under a heading whose lower-cased text mentions 'feature', '功能' or '특성' |
| RepositoryFetcher.FeaturesInDocumentOrder | src/services/repository-fetcher.js:108-119 | features keep the document order of their headings |
| RepositoryFetcher.ExtractFeatures | src/services/repository-fetcher.js:103-122 | the nested loop returns the first five of the specified features: at most 5, each trimmed and non-empty |
| RepositoryFetcher.Run | src/services/repository-fetcher.js:135 | a quantified character class consumes at least one character and stays within the text |
| RepositoryFetcher.Literal | src/services/repository-fetcher.js:135 | a literal character consumes exactly one character |
| RepositoryFetcher.RunOf | src/services/repository-fetcher.js:135 | a greedy run stops exactly where the class stops |
| RepositoryFetcher.ExtractLastUpdated | src/services/repository-fetcher.js:127-137 | the datetime attribute wins; then the leftmost `Updated\s+(\w+\s+\d+,\s+\d+)` capture; otherwise '未知' |
| RepositoryFetcher.SearchDateLeftmost | src/services/repository-fetcher.js:135 | the date search returns the capture at the first position where the pattern matches |
| RepositoryFetcher.SearchDateNoneIff | src/services/repository-fetcher.js:135 | the date search finds nothing exactly when the pattern matches at no position |
| RepositoryFetcher.LastUpdatedFirstMatch | src/services/repository-fetcher.js:127-137 | without a datetime attribute, the date is the capture of the leftmost match in the page text |
| RepositoryFetcher.LastUpdatedWithoutMatch | src/services/repository-fetcher.js:127-137 | without a datetime attribute and with no match anywhere, the date is '未知' |
| RepositoryFetcher.DayEndOfRuns | src/services/repository-fetcher.js:135 | `\w+\s+\d+` ends after a word run, a space and a digit run |
| RepositoryFetcher.YearEndOfRuns | src/services/repository-fetcher.js:135 | `,\s+\d+` ends after a comma, a space and a digit run |
| RepositoryFetcher.DateEndOfRuns | src/services/repository-fetcher.js:135 | the whole date pattern ends after its runs |
| RepositoryFetcher.UpdatedTextCaptured | src/services/repository-fetcher.js:134-136 | a text reading "Updated <Word> <d>, <d>" yields exactly "<Word> <d>, <d>" |
| RepositoryFetcher.LeadThenDate | src/services/repository-fetcher.js:135 | a leading word, a space and a date give that date as the capture |
| RepositoryFetcher.LeadAtStart | src/services/repository-fetcher.js:135 | a match at the very start is the leftmost one |
| RepositoryFetcher.CaptureRuns | src/services/repository-fetcher.js:135 | a date written as word, day and year is matched to its end |
| RepositoryFetcher.FirstDigit | src/services/repository-fetcher.js:144 | the first digit at or after a position, or none at all |
| RepositoryFetcher.ExtractContributorsCount | src/services/repository-fetcher.js:142-146 | '未知' exactly when the link text has no digit |
| RepositoryFetcher.ContributorsCountReadsFirstNumber | src/services/repository-fetcher.js:144-145 | the count is the decimal value of the first digit run (any run, leading zeros included), after any digit-free prefix |
| RepositoryFetcher.ContributorsCountReadsRenderedNumber | src/services/repository-fetcher.js:144-145 | a number written in decimal after a digit-free prefix is read back as itself |
| RepositoryFetcher.FullName | src/services/repository-fetcher.js:30-32 | the trimmed header name, or the name read from the URL when that is empty |
| RepositoryFetcher.DetailsResult | src/services/repository-fetcher.js:11-79 | no details (`null`) exactly when the request was aborted, threw, or was answered with a non-OK status |
| RepositoryFetcher.CollectTopics | src/services/repository-fetcher.js:64-67 | the topics are the non-empty trimmed link texts in document order |
| RepositoryFetcher.FetchRepositoryDetails | src/services/repository-fetcher.js:11-79 | never fails: `null` on any failure, otherwise the details, with at most 5 features and an excerpt of at most 203 characters |
| Ai.SelectPrompt | src/services/ai.js:33-40 | a name the merged catalogue offers as a function selects that builder, the enhanced catalogue winning; any other name selects the standard `htmlReport` |
| Ai.UnknownTypeFallsBack | src/services/ai.js:38-39 | a name the lookup does not find at all, neither as an own nor as an inherited property, falls back to `htmlReport` |
| Ai.EnhancedOverrides | src/services/ai.js:33 | an enhanced builder overrides a standard one of the same name |
| Ai.Attempt | src/services/ai.js:44-53 | an attempt succeeds exactly on a non-empty reply, returned unchanged; an empty reply fails with '生成的 HTML 报告为空' |
| Ai.GenerateFirstSuccess | src/services/ai.js:42-65 | the attempts stop at the first success, all earlier ones failed, and the result succeeds exactly when some attempt within the bound does |
| Ai.GenerateExhausted | src/services/ai.js:58-60 | when every attempt fails, all were made and the error is 'AI 生成失败: ' + the last attempt's message |
| Ai.AIService.Init | src/services/ai.js:16-19 | the service holds the model and has sent nothing |
| Ai.AIService.Create | src/services/ai.js:12-15 | the constructor fails exactly when the API key is falsy |
| Ai.AIService.GenerateReport | src/services/ai.js:28-66 | the selected prompt is sent once per attempt, the result is the retry specification's, and the waits total 2000 ms per failed attempt but the last |
| Email.SubjectFor | src/services/email.js:29-31 | a given subject is used; otherwise the template over today's date |
| Email.FallbackResult | src/services/email.js:61-81 | the fallback succeeds exactly when the provider delivers it |
| Email.SendHtmlMessages | src/services/email.js:24-56 | no recipient: refused before any send; otherwise the HTML message, then one plain-text fallback only if it failed, both to the same recipient under the same subject; success exactly when the last message was delivered |
| Email.HtmlErrorDiscarded | src/services/email.js:51-54 | how the HTML message failed does not affect the result |
| Email.FallbackErrorWithoutMessage | src/services/email.js:71 | a provider error without a message is reported as 'undefined' after the prefix |
| Email.ResultFor | src/services/email.js:96-100 | a batch entry names its recipient and is a success exactly when `sendHtml` resolved |
| Email.BatchSnoc | src/services/email.js:94-102 | one more recipient adds one entry and that recipient's messages |
| Email.HtmlBatchSnoc | src/services/email.js:94-102 | the same step for the batch `sendBatch` runs |
| Email.BatchLength | src/services/email.js:93-107 | a batch has exactly one result per recipient |
| Email.BatchResultAt | src/services/email.js:94-102 | the k-th result belongs to the k-th recipient and is its `sendHtml` outcome: order is preserved |
| Email.BatchMessages | src/services/email.js:95-101 | each recipient costs at most two provider sends |
| Email.EmailService.Init | src/services/email.js:14 | the service holds the provider and has sent nothing |
| Email.EmailService.Create | src/services/email.js:10-15 | the constructor fails exactly when the API key is falsy |
| Email.EmailService.SendFallbackText | src/services/email.js:61-81 | one plain-text message with the fallback body is sent; the result is its outcome |
| Email.EmailService.SendHtml | src/services/email.js:24-56 | the result and the messages sent are those of the `sendHtml` specification |
| Email.EmailService.SendBatch | src/services/email.js:90-108 | the results and the messages sent are those of the batch specification |
| Enricher.MultipleBelow | src/test-enhanced.js:17 | arithmetic helper of `CeilingOfBounds`: the only multiple of the batch size strictly between its negation and itself is 0 |
| Enricher.DivisionUnique | src/test-enhanced.js:17 | arithmetic helper of `CeilingOfBounds`: integer division is determined by its bounds |
| Enricher.CeilingOfBounds | src/test-enhanced.js:17-18 | a batch count bounded like the loop's is the ceiling of n / batchSize |
| Enricher.SuccessCount | src/test-enhanced.js:42 | the success count is at most the number of results |
| Enricher.SuccessCountIsOkResponses | src/test-enhanced.js:42 | the non-null results are exactly the URLs whose page was fetched with an OK status |
| Enricher.ProgressStep | src/test-enhanced.js:17-39 | one more batch keeps the loop's count of batches and waits |
| Enricher.FetchBatch | src/test-enhanced.js:18-33 | a batch yields the results for its slice of URLs, in order |
| Enricher.FetchRepositoriesInBatches | src/test-enhanced.js:12-46 | one result per URL, index-aligned (the details or `null`); ceil(n / batchSize) batches and one wait fewer |
| Enricher.FetchRepositoriesWithDefaults | src/test-enhanced.js:12-46 | with the default arguments: one result per URL, ceil(n / 3) batches and 500 ms for each wait between them |
| Pipeline.ReportType | src/index.js:35 | REPORT_TYPE when set and non-empty, else `htmlReport` |
| Pipeline.Recipients | src/index.js:40 | one recipient more than the commas, each the trimmed comma-free piece at its position |
| Pipeline.TrimOfPart | src/index.js:40 | a trimmed piece is still comma-free |
| Pipeline.ValidatedEnvironment | src/index.js:17-21 | after validation, the three variables are set and both keys are truthy |
| Pipeline.ValidationBeforeFetch | src/index.js:14-28 | the listing is requested exactly when validation passes; a failed validation sends nothing and fails with its message |
| Pipeline.GenerationNeedsProjects | src/index.js:24-36 | the model is asked only for a non-empty listing, at most three times, always with the selected builder over the formatted projects |
| Pipeline.FetchStagePrompts | src/index.js:24-36 | the same, for a run that has passed validation |
| Pipeline.EmptyListingStops | src/index.js:26-28 | an empty listing fails with '没有抓取到任何项目数据' before the model or the mail provider is used |
| Pipeline.CompletionConditions | src/index.js:13-57 | the run completes exactly when every step succeeds and, for one recipient, that delivery succeeds; `sendHtml` is used exactly for one recipient |
| Pipeline.BatchAlwaysCompletes | src/index.js:44-48 | with several recipients the run completes even if every delivery failed, with one result per recipient |
| Pipeline.TrailingCommaShaped | src/utils/validator.js:45 | 'a@b.co,' has the email shape |
| Pipeline.TrailingCommaCount | src/index.js:40 | 'a@b.co,' holds one comma |
| Pipeline.TrailingCommaReachesBatch | src/index.js:40-45 | a recipient setting with a trailing comma passes validation and gives two recipients, so the batch branch is reachable |
| Pipeline.DeliverReport | src/index.js:42-46 | exactly one recipient uses `sendHtml`, any other count `sendBatch`; only a single failed delivery fails the run |
| Pipeline.Run | src/index.js:13-57 | the step-by-step run produces the trace of the run specification |
| ReportWriter.SplitAtFirst | src/test.js:27-28 | splitting at the first newline separates the text before it |
| ReportWriter.RuleIsOneLine | src/test.js:33 | a rule holds no newline |
| ReportWriter.LineThen | src/test.js:28 | a written line is the first line of what follows |
| ReportWriter.LastLine | src/test.js:28 | the last written line leaves an empty piece after it |
| ReportWriter.ThreeLines | src/test.js:32-37 | three newline-free lines read back as those three lines |
| ReportWriter.SectionLines | src/test.js:32-37 | a section of a one-line title reads back as a rule of 60 '=', the title, and the rule again |
| ReportWriter.SubSectionLines | src/test.js:39-42 | a sub-section reads back as a blank line, the title, and a rule of 60 '-' |
| ReportWriter.OutputWriter.Init | src/test.js:14-18 | the buffer starts empty; it writes to a file exactly when a path was given |
| ReportWriter.OutputWriter.Write | src/test.js:27-30 | appends exactly the text and a newline; the old output is a prefix of the new |
| ReportWriter.OutputWriter.Section | src/test.js:32-37 | appends the three section lines and nothing else |
| ReportWriter.OutputWriter.SubSection | src/test.js:39-42 | appends the two sub-section lines and nothing else |
| ReportWriter.OutputWriter.Table | src/test.js:44-49 | appends the serialised table and a newline only when writing to a file; otherwise nothing changes |
| ReportWriter.OutputWriter.Save | src/test.js:51-57 | returns the path exactly when writing to a file |
| ReportWriter.FieldStatsOf | src/test.js:86-93 | every field count is at most the number of projects |
| ReportWriter.NormalFieldStats | src/test.js:86-93 | for sanitised projects, the name and both star counts count every project |
| ReportWriter.LanguageKey | src/test.js:101 | the language, or '未指定' when empty |
| ReportWriter.HistogramCounts | src/test.js:99-103 | each key counts exactly the projects under that language; only counted languages appear |
| ReportWriter.LanguagesAreKeys | src/test.js:99-103 | the languages in first-counted order are exactly the keys, without repetition |
| ReportWriter.SumOverOther | src/test.js:102 | changing the count of another key leaves a sum alone |
| ReportWriter.SumOverBump | src/test.js:102 | counting one more project adds one to the sum |
| ReportWriter.HistogramTotal | src/test.js:99-103 | the language counts add up to the number of projects |
| ReportWriter.LanguageCount | src/test.js:99-103 | the one-pass loop computes the distribution: positive counts, one per language, summing to the number of projects |
| Text.OrElse | src/utils/validator.js:24 | the value when truthy (a non-empty string), the fallback otherwise |
| Text.Interpolate | src/services/scraper.js:61 | a string interpolates as itself, an absent value as 'undefined' |
| Text.TrimStart | src/utils/validator.js:24 | drops exactly the leading white space |
| Text.TrimEnd | src/utils/validator.js:24 | drops exactly the trailing white space |
| Text.Trim | src/utils/validator.js:24 | the result is trimmed and no longer than the input |
| Text.TrimOfTrimmed | src/utils/validator.js:24 | trimming a trimmed string changes nothing |
| Text.TrimIdempotent | src/utils/validator.js:24 | trimming is idempotent |
| Text.TrimInfix | src/utils/validator.js:24 | the trim is a piece of the string |
| Text.TrimDropsOnlySpace | src/utils/validator.js:24 | the trim is the string without a run of white space at its start and one at its end |
| Text.TrimEmptyIffBlank | src/utils/validator.js:24 | the trim is empty exactly when the string is all white space |
| Text.CollapseSpaces | src/services/scraper.js:60 | the result is empty exactly when the input is |
| Text.CollapseSpacesFirst | src/services/scraper.js:60 | the result starts with white space exactly when the input does |
| Text.CollapseSpacesLast | src/services/scraper.js:60 | the result ends with white space exactly when the input does |
| Text.CollapseSpacesCollapsed | src/services/scraper.js:60 | no white space but single spaces remains, never two in a row |
| Text.CollapseKeepsText | src/services/scraper.js:60 | every other character is kept, in order |
| Text.Span | src/services/repository-fetcher.js:85 | a greedy run stays within the text |
| Text.SpanIsRun | src/services/repository-fetcher.js:85 | a greedy run holds only class characters and stops at the end or a non-class character |
| Text.SpanOf | src/services/repository-fetcher.js:85 | a run ended by a non-class character is measured exactly |
| Text.Repeat | src/test.js:33 | `c.repeat(n)` has length n and only the character c |
| Text.CountChar | src/index.js:40 | the count is zero exactly when the character is absent |
| Text.CountCharAppend | src/index.js:40 | counts over a concatenation add up |
| Text.IndexOf | src/utils/validator.js:45 | the first occurrence, or -1 when there is none |
| Text.ContainsIsInfix | src/services/repository-fetcher.js:110 | `includes` holds exactly when the piece occurs in the string |
| Text.ToLower | src/services/repository-fetcher.js:109 | lower-cases each character in place |
| Text.NatToString | src/services/scraper.js:85 | a number renders as decimal digits without leading zero |
| Text.NatToStringRoundTrip | src/services/repository-fetcher.js:145 | `parseInt` reads back the rendered number |
| Text.Join | src/services/scraper.js:91 | joining nothing gives '', joining one part gives that part |
| Text.JoinSnoc | src/services/scraper.js:91 | one more part appends the separator and the part |
| Text.JoinHasEveryPart | src/services/scraper.js:91 | every part occurs in the join |
| Text.Split | src/index.js:40 | one piece more than the separators, none holding the separator |
| Text.SplitJoinRoundTrip | src/index.js:40 | joining the pieces of a split with its separator gives the string back |
| Sequences.FlatMapAppend | src/services/scraper.js:55-75 | mapping two runs gives the two outputs one after the other |
| Sequences.FlatMapShorter | src/services/scraper.js:55-75 | when each element contributes at most one, the output is no longer than the input |
| Sequences.FlatMapThrough | src/services/scraper.js:55-75 | an element-wise map of the kept elements, by position |
| Sequences.FlatMapMember | src/services/repository-fetcher.js:108-119 | every output element comes from some input element |
| Sequences.CountWhere | src/test.js:86-93 | `filter(p).length` is at most the length |
| Sequences.CountWhereAll | src/test.js:87 | when every element passes, all are counted |
| Sequences.CountWherePositive | src/test-enhanced.js:42 | a positive count means some element passes |

## Left out

- Network requests (`fetch`), `AbortController` timeouts and `response.text()` are not modelled. Each request is an outcome value instead: aborted, threw with a message, or answered with a status. An abort is not tied to the configured timeout.
- `setTimeout` waits are counted as milliseconds (`Ai.AIService.GenerateReport`) or as a number of pauses (`Enricher.FetchRepositoriesInBatches`). Nothing waits.
- Cheerio and the CSS selectors are not modelled. A listing row is the texts its selectors would find. A detail page is its header, description, topic texts, label flags, article text, `h2`/`h3` headings with the items of the `ul` that follows them, `datetime` attribute, body text and contributor-link text. The rule "a row whose extraction throws is skipped" is kept through an explicit `ExtractionThrew` row.
- The Gemini and Resend SDKs are not modelled. They become total functions from the request's index and its content to a reply. The provider's `data` object is represented by its id.
- The prompt templates are not part of this model. The two catalogues are maps from a name to "is a function". A prompt is identified by its catalogue, the builder's name and the projects text.
- `toLocaleDateString` is a parameter: `today` for the email subject, `localize` for the `datetime` attribute. `new Date(...)` parsing is inside `localize`.
- `JSON.stringify`, `console.table`, `console.log` and `src/utils/logger.js` only produce console output and are not modelled. `ReportWriter.OutputWriter.Table` receives the already serialised table.
- `fs.mkdirSync` and `fs.writeFileSync` in `OutputWriter` are not modelled. `ReportWriter.OutputWriter.Save` returns the path the buffer would be written to.
- `process.exit(1)` is the `Failed` outcome of `Pipeline.Run`. Nothing is logged.
- The root `index.js`, a legacy single-script variant, and the `fetchRepositoryFromAPI` stub are not part of this model. The rest of `src/test.js` and `src/test-enhanced.js` only drives and prints; only the members listed above are modelled.
- `Promise.allSettled` is modelled sequentially. Its results are index-aligned, so the results are the same. `fetchRepositoryDetails` never rejects, so the `rejected` branch (`null`) only arises through a `null` result, which the model gives for every failure.
- `src/config/index.js` is represented by constants: three attempts, a 2000 ms retry delay, the sender, the subject template and the fallback text.
- Ai.AIService.GenerateReport: covers only the configured bound of three attempts. With `maxRetries` = 0 the JavaScript loop does not run and the method resolves to `undefined`; the retry lemmas assume a bound of at least one.
- Email.SubjectTemplate and Email.FallbackText have no contract of their own. They are the configured templates and are used as values.
- The `languages` field of the details is always the empty list, as in the source.
- RepositoryFetcher.ExtractContributorsCount: `parseInt` is modelled on unbounded naturals. It does not model the loss of precision for digit runs beyond 2^53.
- Text.ToLower: lower-cases ASCII letters only. `\w`, `\d` and `\s` follow ECMAScript (ASCII word characters and digits, the ECMAScript white-space set). Strings are sequences of characters, not UTF-16 code units.
- Enricher.FetchRepositoriesInBatches: requires a positive batch size. With 0 the JavaScript loop never ends.
- Ai.SelectPrompt: the catalogue maps stand for every property the JavaScript lookup `allPrompts[promptType]` finds, inherited ones included. The source lists only its own prompt builders, but a name such as `toString`, `constructor`, `valueOf` or `hasOwnProperty` finds a function inherited from `Object.prototype` and passes the `typeof` test. That function is then called instead of falling back to `htmlReport`. The model reaches that outcome only when such a name is put into a catalogue map, and it does not model what the inherited function returns.
- Pipeline.Run: requires catalogues that define the default `htmlReport` builder. The shipped catalogue does.

The code differs from a plain reading of its intent in two places; the model follows the code:
- `validateEnv` does not reject every comma-separated recipient list. A list with a trailing comma, such as `a@b.co,`, matches `^[^\s@]+@[^\s@]+\.[^\s@]+$` because the domain `b.co,` has an inner '.'. It then splits into two recipients, one of them empty, so `main` does reach `sendBatch` (`Pipeline.TrailingCommaReachesBatch`). Only lists in which two entries hold an '@' are always rejected (`Validator.TwoAddressesRejected`).
- `main` reports success after `sendBatch` even if every delivery failed (`Pipeline.BatchAlwaysCompletes`). For the empty recipient, `sendHtml` throws and the batch records a failure.
