/**
 * The daily run: validate the environment, build both services, fetch the listing, refuse an
 * empty one, format it, generate the report, split the recipients and send, either to the one
 * recipient or as a batch. Any failure ends the run with exit status 1.
 */
module Pipeline {
  import opened Wrappers
  import opened Text
  import opened Validator
  import opened Scraper
  import opened Ai
  import opened Email

  const ReportTypeKey: string := "REPORT_TYPE"
  const NoProjects: string := "没有抓取到任何项目数据"

  /** How the run ended: completed, or failed with the message it logs before exit status 1. */
  datatype Outcome = Completed | Failed(message: string)

  /** How the report was delivered, if the run got that far. */
  datatype Dispatch = NotSent | Single(result: Result<string, string>) | Batched(results: seq<DeliveryResult>)

  /**
   * What a run did: the listing URL it requested (if any), the prompts sent to the model, the
   * pause spent between generation attempts, the messages handed to the mail provider, the
   * delivery and the outcome.
   */
  datatype RunTrace = RunTrace(
    requested: Option<string>, prompts: seq<Prompt>, pausedMs: nat, messages: seq<Message>,
    dispatch: Dispatch, outcome: Outcome)

  /** `process.env.REPORT_TYPE || 'htmlReport'` */
  function ReportType(env: Env): (t: string)
    ensures !Truthy(Lookup(env, ReportTypeKey)) ==> t == DefaultPrompt
    ensures Truthy(Lookup(env, ReportTypeKey)) ==> t == env[ReportTypeKey]
  {
    OrElse(Lookup(env, ReportTypeKey), DefaultPrompt)
  }

  /**
   * `RECIPIENT_EMAIL.split(',').map(e => e.trim())`: one trimmed entry per comma-separated
   * piece, so one more entry than there are commas, and none of them contains a comma.
   */
  function Recipients(s: string): (rs: seq<string>)
    ensures |rs| == CountChar(s, ',') + 1
    ensures forall k :: 0 <= k < |rs| ==> IsTrimmed(rs[k]) && ',' !in rs[k]
    ensures forall k :: 0 <= k < |rs| ==> rs[k] == Trim(Split(s, ',')[k])
  {
    var parts := Split(s, ',');
    seq(|parts|, k requires 0 <= k < |parts| => TrimOfPart(parts[k]))
  }

  function TrimOfPart(part: string): (r: string)
    requires ',' !in part
    ensures r == Trim(part) && IsTrimmed(r) && ',' !in r
  {
    TrimInfix(part);
    Trim(part)
  }

  /** After a successful validation every required variable is set and non-empty. */
  lemma ValidatedEnvironment(env: Env)
    requires ValidateEnv(env).Success?
    ensures GeminiKey in env && ResendKey in env && RecipientKey in env
    ensures Truthy(Lookup(env, GeminiKey)) && Truthy(Lookup(env, ResendKey))
  {
    assert GeminiKey in RequiredEnv && ResendKey in RequiredEnv && RecipientKey in RequiredEnv;
  }

  /** What `main` does, as a function of its environment and of what the outside world answers. */
  function MainSpec(env: Env, listing: ListingOutcome, model: (nat, Prompt) -> Reply,
                    provider: (nat, Message) -> SendReply, c: Catalogues, today: string): RunTrace
  {
    var v := ValidateEnv(env);
    if v.Failure? then RunTrace(None, [], 0, [], NotSent, Failed(v.error))
    else
      ValidatedEnvironment(env);
      FetchStage(env[RecipientKey], ReportType(env), listing, model, provider, c, today)
  }

  /** From the listing request on. */
  function FetchStage(recipientSetting: string, reportType: string, listing: ListingOutcome,
                      model: (nat, Prompt) -> Reply, provider: (nat, Message) -> SendReply,
                      c: Catalogues, today: string): RunTrace
  {
    var url := TrendingUrl(DefaultLanguage, DefaultSince);
    var fetched := FetchResult(listing);
    if fetched.Failure? then RunTrace(Some(url), [], 0, [], NotSent, Failed(fetched.error))
    else if fetched.value == [] then RunTrace(Some(url), [], 0, [], NotSent, Failed(NoProjects))
    else
      var prompt := SelectPrompt(c, reportType, FormatProjectsText(fetched.value));
      GenerateStage(Recipients(recipientSetting), prompt, Generate(model, 0, prompt, 1, MaxRetries), provider, today)
  }

  /** From the generation on, once the listing URL was requested. */
  function GenerateStage(recipients: seq<string>, prompt: Prompt, g: Generation,
                         provider: (nat, Message) -> SendReply, today: string): RunTrace
    requires g.attempts >= 1
  {
    var url := TrendingUrl(DefaultLanguage, DefaultSince);
    var prompts := seq(g.attempts, _ => prompt);
    var paused := (g.attempts - 1) * RetryDelay;
    if g.result.Failure? then RunTrace(Some(url), prompts, paused, [], NotSent, Failed(g.result.error))
    else
      var (messages, dispatch, outcome) := Deliver(recipients, g.result.value, provider, today);
      RunTrace(Some(url), prompts, paused, messages, dispatch, outcome)
  }

  /** The delivery step: the single recipient's outcome decides the run; a batch always completes. */
  function Deliver(recipients: seq<string>, html: string, provider: (nat, Message) -> SendReply, today: string)
    : (seq<Message>, Dispatch, Outcome)
  {
    if |recipients| == 1 then
      var d := SendHtmlSpec(provider, 0, recipients[0], html, Undefined, today);
      (d.messages, Single(d.result), if d.result.Failure? then Failed(d.result.error) else Completed)
    else
      var b := BatchSpec(HtmlSend(provider, html, Undefined, today), 0, recipients);
      (b.messages, Batched(b.results), Completed)
  }

  /** The listing is requested exactly when the environment is valid: validation comes first. */
  lemma ValidationBeforeFetch(env: Env, listing: ListingOutcome, model: (nat, Prompt) -> Reply,
                              provider: (nat, Message) -> SendReply, c: Catalogues, today: string)
    ensures var run := MainSpec(env, listing, model, provider, c, today);
      (run.requested.None? <==> ValidateEnv(env).Failure?)
      && (ValidateEnv(env).Failure? ==>
            run.prompts == [] && run.messages == [] && run.outcome == Failed(ValidateEnv(env).error))
      && (run.requested.Some? ==> run.requested.value == TrendingBase + SinceQuery + DefaultSince)
  {
    assert TrendingUrl(DefaultLanguage, DefaultSince) == TrendingBase + SinceQuery + DefaultSince;
  }

  /**
   * The model is asked only for a non-empty listing: every prompt is the selected builder over
   * the formatted projects, with the report type from the environment, and there are one to
   * three of them.
   */
  lemma GenerationNeedsProjects(env: Env, listing: ListingOutcome, model: (nat, Prompt) -> Reply,
                                provider: (nat, Message) -> SendReply, c: Catalogues, today: string)
    ensures var run := MainSpec(env, listing, model, provider, c, today);
      run.prompts != [] <==> ValidateEnv(env).Success? && FetchResult(listing).Success? && FetchResult(listing).value != []
    ensures var run := MainSpec(env, listing, model, provider, c, today);
      run.prompts != [] ==>
        |run.prompts| <= MaxRetries
        && forall k :: 0 <= k < |run.prompts| ==>
             run.prompts[k] == SelectPrompt(c, ReportType(env), FormatProjectsText(FetchResult(listing).value))
  {
    if ValidateEnv(env).Success? {
      ValidatedEnvironment(env);
      assert MainSpec(env, listing, model, provider, c, today)
        == FetchStage(env[RecipientKey], ReportType(env), listing, model, provider, c, today);
      FetchStagePrompts(env[RecipientKey], ReportType(env), listing, model, provider, c, today);
    }
  }

  /** The prompts of a run that got past validation. */
  lemma FetchStagePrompts(recipientSetting: string, reportType: string, listing: ListingOutcome,
                          model: (nat, Prompt) -> Reply, provider: (nat, Message) -> SendReply,
                          c: Catalogues, today: string)
    ensures var run := FetchStage(recipientSetting, reportType, listing, model, provider, c, today);
      run.prompts != [] <==> FetchResult(listing).Success? && FetchResult(listing).value != []
    ensures var run := FetchStage(recipientSetting, reportType, listing, model, provider, c, today);
      run.prompts != [] ==>
        |run.prompts| <= MaxRetries
        && forall k :: 0 <= k < |run.prompts| ==>
             run.prompts[k] == SelectPrompt(c, reportType, FormatProjectsText(FetchResult(listing).value))
  {
    var fetched := FetchResult(listing);
    if fetched.Success? && fetched.value != [] {
      var prompt := SelectPrompt(c, reportType, FormatProjectsText(fetched.value));
      var g := Generate(model, 0, prompt, 1, MaxRetries);
      GenerateFirstSuccess(model, 0, prompt, 1, MaxRetries);
      assert FetchStage(recipientSetting, reportType, listing, model, provider, c, today).prompts
        == seq(g.attempts, _ => prompt);
    }
  }

  /** An empty listing ends the run before the model or the mail provider is used. */
  lemma EmptyListingStops(env: Env, listing: ListingOutcome, model: (nat, Prompt) -> Reply,
                          provider: (nat, Message) -> SendReply, c: Catalogues, today: string)
    requires ValidateEnv(env).Success? && FetchResult(listing) == Success([])
    ensures var run := MainSpec(env, listing, model, provider, c, today);
      run.prompts == [] && run.messages == [] && run.dispatch == NotSent && run.outcome == Failed(NoProjects)
  {
  }

  /**
   * The run completes exactly when every step up to the report succeeds and, for a single
   * recipient, that one delivery succeeds; with several recipients the batch results are not
   * looked at.
   */
  lemma CompletionConditions(env: Env, listing: ListingOutcome, model: (nat, Prompt) -> Reply,
                             provider: (nat, Message) -> SendReply, c: Catalogues, today: string)
    ensures var run := MainSpec(env, listing, model, provider, c, today);
      run.outcome == Completed <==>
        ValidateEnv(env).Success? && FetchResult(listing).Success? && FetchResult(listing).value != []
        && run.dispatch != NotSent && (run.dispatch.Single? ==> run.dispatch.result.Success?)
    ensures var run := MainSpec(env, listing, model, provider, c, today);
      run.dispatch != NotSent ==>
        (run.dispatch.Single? <==> ValidateEnv(env).Success? && |Recipients(env[RecipientKey])| == 1)
  {
    if ValidateEnv(env).Success? {
      ValidatedEnvironment(env);
    }
  }

  /**
   * With several recipients the run completes even when every delivery fails, and the batch
   * holds one result per recipient.
   */
  lemma BatchAlwaysCompletes(recipients: seq<string>, prompt: Prompt, g: Generation,
                             provider: (nat, Message) -> SendReply, today: string)
    requires g.attempts >= 1 && g.result.Success? && |recipients| != 1
    ensures var run := GenerateStage(recipients, prompt, g, provider, today);
      run.outcome == Completed && run.dispatch.Batched? && |run.dispatch.results| == |recipients|
  {
    BatchLength(HtmlSend(provider, g.result.value, Undefined, today), 0, recipients);
  }

  const TrailingCommaSetting: string := "a@b.co,"

  lemma TrailingCommaShaped()
    ensures EmailShaped(TrailingCommaSetting)
  {
    var s := TrailingCommaSetting;
    IndexOfIs(s, '@', 1);
    assert s[3] == '.';
    assert s[2..] == "b.co,";
  }

  /** The setting holds one comma. */
  lemma TrailingCommaCount()
    ensures CountChar(TrailingCommaSetting, ',') == 1
  {
    assert TrailingCommaSetting == "a@b.co" + ",";
    CountCharAppend("a@b.co", ",", ',');
    assert ',' !in "a@b.co";
    assert CountChar(",", ',') == 1 by { assert ","[1..] == []; }
  }

  /**
   * A recipient setting with a trailing comma passes validation and yields two recipients, so
   * the batch branch is reachable.
   */
  lemma TrailingCommaReachesBatch()
    ensures var env := map[GeminiKey := "g", ResendKey := "r", RecipientKey := TrailingCommaSetting];
      ValidateEnv(env).Success? && |Recipients(env[RecipientKey])| == 2
  {
    var env := map[GeminiKey := "g", ResendKey := "r", RecipientKey := TrailingCommaSetting];
    assert Lookup(env, GeminiKey) == Str("g") && Lookup(env, ResendKey) == Str("r");
    assert Lookup(env, RecipientKey) == Str(TrailingCommaSetting);
    assert forall n :: n in RequiredEnv ==> Truthy(Lookup(env, n));
    TrailingCommaShaped();
    EmailShapedMatchesPattern(TrailingCommaSetting);
    TrailingCommaCount();
  }

  /** The dispatch at the end of `main`: `sendHtml` for exactly one recipient, else `sendBatch`. */
  method DeliverReport(email: EmailService, recipients: seq<string>, html: string, today: string)
    returns (dispatch: Dispatch, outcome: Outcome)
    requires email.sent == []
    modifies email
    ensures (email.sent, dispatch, outcome) == Deliver(recipients, html, email.provider, today)
  {
    if |recipients| == 1 {
      ghost var d := SendHtmlSpec(email.provider, 0, recipients[0], html, Undefined, today);
      var sent := email.SendHtml(recipients[0], html, Undefined, today);
      assert email.sent == [] + d.messages == d.messages;
      dispatch := Single(sent);
      outcome := if sent.Failure? then Failed(sent.error) else Completed;
    } else {
      ghost var b := BatchSpec(HtmlSend(email.provider, html, Undefined, today), 0, recipients);
      var results := email.SendBatch(recipients, html, Undefined, today);
      assert email.sent == [] + b.messages == b.messages;
      dispatch := Batched(results);
      outcome := Completed;
    }
  }

  /** `main`, with the environment, the listing outcome, the model and the mail provider as inputs. */
  method Run(env: Env, listing: ListingOutcome, model: (nat, Prompt) -> Reply,
             provider: (nat, Message) -> SendReply, c: Catalogues, today: string)
    returns (run: RunTrace)
    requires HasDefault(c)
    ensures run == MainSpec(env, listing, model, provider, c, today)
  {
    var v := ValidateEnv(env);
    if v.Failure? {
      return RunTrace(None, [], 0, [], NotSent, Failed(v.error));
    }
    ValidatedEnvironment(env);
    var aiOrError := AIService.Create(Lookup(env, GeminiKey), model);
    var emailOrError := EmailService.Create(Lookup(env, ResendKey), provider);
    var ai := aiOrError.value;
    var email := emailOrError.value;
    var url, fetched := FetchTrending(DefaultLanguage, DefaultSince, listing);
    if fetched.Failure? {
      return RunTrace(Some(url), [], 0, [], NotSent, Failed(fetched.error));
    }
    if |fetched.value| == 0 {
      return RunTrace(Some(url), [], 0, [], NotSent, Failed(NoProjects));
    }
    var projectsText := FormatProjectsText(fetched.value);
    var html, paused := ai.GenerateReport(c, projectsText, ReportType(env));
    ghost var prompt := SelectPrompt(c, ReportType(env), projectsText);
    ghost var g := Generate(model, 0, prompt, 1, MaxRetries);
    assert ai.requests == seq(g.attempts, _ => prompt);
    var recipients := Recipients(env[RecipientKey]);
    assert MainSpec(env, listing, model, provider, c, today) == GenerateStage(recipients, prompt, g, provider, today);
    if html.Failure? {
      return RunTrace(Some(url), ai.requests, paused, [], NotSent, Failed(html.error));
    }
    var dispatch, outcome := DeliverReport(email, recipients, html.value, today);
    return RunTrace(Some(url), ai.requests, paused, email.sent, dispatch, outcome);
  }
}
