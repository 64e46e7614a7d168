/**
 * The report generator: prompt selection over the standard and the enhanced prompt catalogues,
 * then up to three attempts at the generative model, with a pause after each failed attempt
 * but the last, an empty reply counting as a failure, and the last failure reported.
 */
module Ai {
  import opened Wrappers
  import opened Text

  const NoApiKey: string := "Gemini API Key 未提供"
  const EmptyReport: string := "生成的 HTML 报告为空"
  const FailurePrefix: string := "AI 生成失败: "
  const DefaultPrompt: string := "htmlReport"
  const MaxRetries: nat := 3
  const RetryDelay: nat := 2000

  /** Which catalogue a prompt builder comes from. */
  datatype Catalogue = Standard | Enhanced

  /**
   * The two prompt catalogues, as name -> "is this entry a function". Their prompt texts are not
   * part of this model; a prompt is identified by the builder applied and the text it was given.
   * A key stands for any property the JavaScript lookup finds on the merged object, members it
   * inherits from `Object.prototype` (`toString`, `constructor`, ...) included.
   */
  datatype Catalogues = Catalogues(standard: map<string, bool>, enhanced: map<string, bool>)

  /** The catalogues the generator is shipped with always define the default builder. */
  predicate HasDefault(c: Catalogues) {
    DefaultPrompt in c.standard && c.standard[DefaultPrompt]
  }

  /** The prompt sent to the model: a builder applied to the formatted projects text. */
  datatype Prompt = Prompt(from: Catalogue, name: string, projectsText: string)

  /** `{ ...prompts, ...enhancedPrompts }[promptType]` is a function. */
  predicate Offers(c: Catalogues, promptType: string) {
    var all := c.standard + c.enhanced;
    promptType in all && all[promptType]
  }

  /**
   * The prompt for a report type: the merged catalogue's builder when it is a function (the
   * enhanced catalogue overriding the standard one), otherwise the standard default builder.
   */
  function SelectPrompt(c: Catalogues, promptType: string, projectsText: string): (p: Prompt)
    ensures p.projectsText == projectsText
    ensures Offers(c, promptType) ==> p.name == promptType && (p.from == Enhanced <==> promptType in c.enhanced)
    ensures !Offers(c, promptType) ==> p == Prompt(Standard, DefaultPrompt, projectsText)
  {
    if Offers(c, promptType) then
      Prompt(if promptType in c.enhanced then Enhanced else Standard, promptType, projectsText)
    else Prompt(Standard, DefaultPrompt, projectsText)
  }

  /** A requested type that no catalogue offers falls back to the standard default. */
  lemma UnknownTypeFallsBack(c: Catalogues, promptType: string, projectsText: string)
    requires promptType !in c.standard && promptType !in c.enhanced
    ensures SelectPrompt(c, promptType, projectsText) == Prompt(Standard, DefaultPrompt, projectsText)
  {
  }

  /** The enhanced catalogue wins over the standard one for a name both define as functions. */
  lemma EnhancedOverrides(c: Catalogues, promptType: string, projectsText: string)
    requires promptType in c.enhanced && c.enhanced[promptType]
    ensures SelectPrompt(c, promptType, projectsText) == Prompt(Enhanced, promptType, projectsText)
  {
    assert (c.standard + c.enhanced)[promptType] == c.enhanced[promptType];
  }

  /** What the model did with one request. */
  datatype Reply = Generated(text: Value) | GenerationThrew(message: string)

  /** One attempt: the HTML, or the message of the error it raised. */
  function Attempt(reply: Reply): (r: Result<string, string>)
    ensures r.Success? <==> reply.Generated? && Truthy(reply.text)
    ensures r.Success? ==> r.value == reply.text.s && r.value != ""
    ensures reply.Generated? && !Truthy(reply.text) ==> r == Failure(EmptyReport)
    ensures reply.GenerationThrew? ==> r == Failure(reply.message)
  {
    match reply
    case Generated(text) => if Truthy(text) then Success(text.s) else Failure(EmptyReport)
    case GenerationThrew(message) => Failure(message)
  }

  /** The result of the attempts and how many were made. */
  datatype Generation = Generation(result: Result<string, string>, attempts: nat)

  /**
   * Attempts `attempt..maxRetries`, where the model's reply to the n-th request is
   * `model(n, prompt)` and the first of these attempts is request number `first + attempt - 1`.
   */
  function Generate(model: (nat, Prompt) -> Reply, first: nat, prompt: Prompt, attempt: nat, maxRetries: nat): Generation
    requires 1 <= attempt <= maxRetries
    decreases maxRetries - attempt
  {
    match Attempt(model(first + attempt - 1, prompt))
    case Success(html) => Generation(Success(html), attempt)
    case Failure(message) =>
      if attempt == maxRetries then Generation(Failure(FailurePrefix + message), attempt)
      else Generate(model, first, prompt, attempt + 1, maxRetries)
  }

  /** The attempt at index `k` (1-based) succeeds. */
  predicate SucceedsAt(model: (nat, Prompt) -> Reply, first: nat, prompt: Prompt, k: nat)
    requires k >= 1
  {
    Attempt(model(first + k - 1, prompt)).Success?
  }

  /**
   * Generation stops at the first successful attempt and returns its HTML unchanged; every
   * earlier attempt failed; and it succeeds exactly when some attempt within the budget does.
   */
  lemma {:induction false} GenerateFirstSuccess(model: (nat, Prompt) -> Reply, first: nat, prompt: Prompt, attempt: nat, maxRetries: nat)
    requires 1 <= attempt <= maxRetries
    ensures var g := Generate(model, first, prompt, attempt, maxRetries);
      attempt <= g.attempts <= maxRetries
      && (forall k :: attempt <= k < g.attempts ==> !SucceedsAt(model, first, prompt, k))
      && (g.result.Success? <==> exists k :: attempt <= k <= maxRetries && SucceedsAt(model, first, prompt, k))
      && (g.result.Success? ==> g.result == Attempt(model(first + g.attempts - 1, prompt)))
    decreases maxRetries - attempt
  {
    if !SucceedsAt(model, first, prompt, attempt) && attempt < maxRetries {
      GenerateFirstSuccess(model, first, prompt, attempt + 1, maxRetries);
      var g := Generate(model, first, prompt, attempt + 1, maxRetries);
      if g.result.Success? {
        assert SucceedsAt(model, first, prompt, g.attempts);
      }
    }
  }

  /** When every attempt fails, all of them were made and the last error is reported. */
  lemma {:induction false} GenerateExhausted(model: (nat, Prompt) -> Reply, first: nat, prompt: Prompt, attempt: nat, maxRetries: nat)
    requires 1 <= attempt <= maxRetries
    requires Generate(model, first, prompt, attempt, maxRetries).result.Failure?
    ensures var g := Generate(model, first, prompt, attempt, maxRetries);
      g.attempts == maxRetries && !SucceedsAt(model, first, prompt, maxRetries)
      && g.result.error == FailurePrefix + Attempt(model(first + maxRetries - 1, prompt)).error
    decreases maxRetries - attempt
  {
    if attempt < maxRetries && !SucceedsAt(model, first, prompt, attempt) {
      GenerateExhausted(model, first, prompt, attempt + 1, maxRetries);
    }
  }

  /** The generator service, holding the model it talks to and the requests it has sent. */
  class AIService {
    /** The model's reply to the n-th request this service sends. */
    const model: (nat, Prompt) -> Reply
    /** The requests sent so far, in order. */
    var requests: seq<Prompt>

    constructor Init(model: (nat, Prompt) -> Reply)
      ensures this.model == model && requests == []
    {
      this.model := model;
      requests := [];
    }

    /** `new AIService(apiKey)`: refused without an API key. */
    static method Create(apiKey: Value, model: (nat, Prompt) -> Reply) returns (r: Result<AIService, string>)
      ensures r.Failure? <==> !Truthy(apiKey)
      ensures r.Failure? ==> r.error == NoApiKey
      ensures r.Success? ==> fresh(r.value) && r.value.model == model && r.value.requests == []
    {
      if !Truthy(apiKey) {
        return Failure(NoApiKey);
      }
      var service := new AIService.Init(model);
      return Success(service);
    }

    /**
     * `generateReport`: the selected prompt is sent once per attempt; the result is that of
     * `Generate`, and the pauses between attempts add up to `RetryDelay` per failed attempt
     * that was not the last.
     */
    method GenerateReport(c: Catalogues, projectsText: string, promptType: string)
      returns (r: Result<string, string>, pausedMs: nat)
      requires HasDefault(c)
      modifies this
      ensures var prompt := SelectPrompt(c, projectsText := projectsText, promptType := promptType);
        var g := Generate(model, |old(requests)|, prompt, 1, MaxRetries);
        r == g.result
        && requests == old(requests) + seq(g.attempts, _ => prompt)
        && pausedMs == (g.attempts - 1) * RetryDelay
    {
      var prompt := SelectPrompt(c, promptType, projectsText);
      ghost var first := |requests|;
      var attempt := 1;
      pausedMs := 0;
      while attempt <= MaxRetries
        invariant 1 <= attempt <= MaxRetries
        invariant requests == old(requests) + seq(attempt - 1, _ => prompt)
        invariant pausedMs == (attempt - 1) * RetryDelay
        invariant Generate(model, first, prompt, 1, MaxRetries) == Generate(model, first, prompt, attempt, MaxRetries)
        decreases MaxRetries - attempt
      {
        var reply := model(|requests|, prompt);
        requests := requests + [prompt];
        var outcome := Attempt(reply);
        if outcome.Success? {
          return outcome, pausedMs;
        }
        if attempt == MaxRetries {
          return Failure(FailurePrefix + outcome.error), pausedMs;
        }
        pausedMs := pausedMs + RetryDelay;
        attempt := attempt + 1;
      }
      assert false;
    }
  }
}
