/**
 * The mail sender: one HTML message per recipient, a plain-text fallback with the same subject
 * when the HTML message fails for any reason, and a batch mode that records a result per
 * recipient instead of failing.
 */
module Email {
  import opened Wrappers
  import opened Text

  const NoApiKey: string := "Resend API Key 未提供"
  const NoRecipient: string := "收件人邮箱未提供"
  const FallbackFailedPrefix: string := "纯文本邮件也发送失败: "
  const Sender: string := "GitHub Daily <onboarding@resend.dev>"
  const SubjectPrefix: string := "今日 GitHub 趋势早报 - "

  /** The configured subject for a date already rendered in the configured locale. */
  function SubjectTemplate(date: string): string
  {
    SubjectPrefix + date
  }

  /** The configured plain-text body for a project count. */
  function FallbackText(count: string): string
  {
    "今日 GitHub Trending 日报\n\n已抓取 " + count + " 个项目。请查看完整的 HTML 版本邮件。"
  }

  /** The fallback body that is actually sent: the count is always "N/A". */
  const FallbackBody: string := FallbackText("N/A")

  datatype Body = Html(html: string) | PlainText(text: string)

  /** A message handed to the mail provider (always to one recipient). */
  datatype Message = Message(from: string, to: string, subject: string, body: Body)

  /**
   * What the mail provider did with one message: delivered it (with an id), answered with an
   * error object (whose message may be missing), or failed to answer at all.
   */
  datatype SendReply = Delivered(id: string) | Rejected(message: Value) | SendThrew(thrown: string)

  /** The outcome of one `sendHtml` call and the messages it handed to the provider. */
  datatype Delivery = Delivery(result: Result<string, string>, messages: seq<Message>)

  /** `emailSubject`: the given subject if truthy, else the template over today's date. */
  function SubjectFor(subject: Value, today: string): (r: string)
    ensures Truthy(subject) ==> r == subject.s
    ensures !Truthy(subject) ==> r == SubjectTemplate(today)
  {
    OrElse(subject, SubjectTemplate(today))
  }

  /** `sendFallbackText`: the provider's id, the wrapped error message, or the thrown error. */
  function FallbackResult(reply: SendReply): (r: Result<string, string>)
    ensures r.Success? <==> reply.Delivered?
  {
    match reply
    case Delivered(id) => Success(id)
    case Rejected(message) => Failure(FallbackFailedPrefix + Interpolate(message))
    case SendThrew(thrown) => Failure(thrown)
  }

  /**
   * `sendHtml` where the provider's reply to the n-th message this service hands it is
   * `provider(n, m)` and `first` messages have been handed over before.
   */
  function SendHtmlSpec(provider: (nat, Message) -> SendReply, first: nat, to: string, html: string,
                        subject: Value, today: string): Delivery
  {
    if to == "" then Delivery(Failure(NoRecipient), [])
    else
      var htmlMessage := Message(Sender, to, SubjectFor(subject, today), Html(html));
      match provider(first, htmlMessage)
      case Delivered(id) => Delivery(Success(id), [htmlMessage])
      case _ =>
        var textMessage := Message(Sender, to, SubjectFor(subject, today), PlainText(FallbackBody));
        Delivery(FallbackResult(provider(first + 1, textMessage)), [htmlMessage, textMessage])
  }

  /**
   * No recipient: refused before anything is sent. Otherwise the HTML message goes first and,
   * only if it is not delivered, the plain-text fallback, both from the configured sender to the
   * recipient under the same subject; the call succeeds exactly when the last message sent was
   * delivered.
   */
  lemma SendHtmlMessages(provider: (nat, Message) -> SendReply, first: nat, to: string, html: string,
                         subject: Value, today: string)
    ensures var d := SendHtmlSpec(provider, first, to, html, subject, today);
      (to == "" <==> d.messages == [])
      && (to == "" ==> d.result == Failure(NoRecipient))
      && |d.messages| <= 2
      && (forall m :: m in d.messages ==> m.from == Sender && m.to == to && m.subject == SubjectFor(subject, today))
      && (d.messages != [] ==> d.messages[0].body == Html(html))
      && (|d.messages| == 2 <==> to != "" && !provider(first, d.messages[0]).Delivered?)
      && (|d.messages| == 2 ==> d.messages[1].body == PlainText(FallbackBody))
      && (d.messages != [] ==>
            (d.result.Success? <==> provider(first + |d.messages| - 1, d.messages[|d.messages| - 1]).Delivered?))
  {
  }

  /**
   * The reason the HTML message failed is discarded: two providers that both fail the HTML
   * message, in any way, and answer the fallback alike give the same result.
   */
  lemma HtmlErrorDiscarded(p1: (nat, Message) -> SendReply, p2: (nat, Message) -> SendReply, first: nat,
                           to: string, html: string, subject: Value, today: string)
    requires to != ""
    requires var m := Message(Sender, to, SubjectFor(subject, today), Html(html));
      !p1(first, m).Delivered? && !p2(first, m).Delivered?
    requires var m := Message(Sender, to, SubjectFor(subject, today), PlainText(FallbackBody));
      p1(first + 1, m) == p2(first + 1, m)
    ensures SendHtmlSpec(p1, first, to, html, subject, today) == SendHtmlSpec(p2, first, to, html, subject, today)
  {
  }

  /** A provider error without a message surfaces as "undefined" after the prefix. */
  lemma FallbackErrorWithoutMessage()
    ensures FallbackResult(Rejected(Undefined)) == Failure(FallbackFailedPrefix + "undefined")
  {
  }

  /** One entry of `sendBatch`'s result list. */
  datatype DeliveryResult = DeliveryResult(recipient: string, success: bool, detail: string)

  function ResultFor(recipient: string, r: Result<string, string>): (d: DeliveryResult)
    ensures d.recipient == recipient && (d.success <==> r.Success?)
  {
    match r
    case Success(id) => DeliveryResult(recipient, true, id)
    case Failure(message) => DeliveryResult(recipient, false, message)
  }

  /** The results of a batch and the messages it handed to the provider, in order. */
  datatype Batch = Batch(results: seq<DeliveryResult>, messages: seq<Message>)

  /**
   * `sendBatch`: the recipients one after the other, each failure caught and recorded, where
   * `send(n, to)` is what one `sendHtml` call does after `n` messages.
   */
  function BatchSpec(send: (nat, string) -> Delivery, first: nat, recipients: seq<string>): Batch
    decreases |recipients|
  {
    if recipients == [] then Batch([], [])
    else
      var before := BatchSpec(send, first, recipients[..|recipients| - 1]);
      var d := send(first + |before.messages|, recipients[|recipients| - 1]);
      Batch(before.results + [ResultFor(recipients[|recipients| - 1], d.result)], before.messages + d.messages)
  }

  /** `sendHtml` with fixed content, as a function of the messages sent before and the recipient. */
  function HtmlSend(provider: (nat, Message) -> SendReply, html: string, subject: Value, today: string): (nat, string) -> Delivery {
    (n: nat, to: string) => SendHtmlSpec(provider, n, to, html, subject, today)
  }

  /** Extending the recipient list by one runs one more `sendHtml` after the earlier messages. */
  lemma BatchSnoc(send: (nat, string) -> Delivery, first: nat, recipients: seq<string>, i: nat)
    requires i < |recipients|
    ensures var before := BatchSpec(send, first, recipients[..i]);
      var d := send(first + |before.messages|, recipients[i]);
      BatchSpec(send, first, recipients[..i + 1])
        == Batch(before.results + [ResultFor(recipients[i], d.result)], before.messages + d.messages)
  {
    assert recipients[..i + 1][..i] == recipients[..i];
  }

  /** `BatchSnoc` for the batch `sendBatch` runs. */
  lemma HtmlBatchSnoc(provider: (nat, Message) -> SendReply, html: string, subject: Value, today: string,
                      first: nat, recipients: seq<string>, i: nat, before: Batch, d: Delivery)
    requires i < |recipients|
    requires before == BatchSpec(HtmlSend(provider, html, subject, today), first, recipients[..i])
    requires d == SendHtmlSpec(provider, first + |before.messages|, recipients[i], html, subject, today)
    ensures BatchSpec(HtmlSend(provider, html, subject, today), first, recipients[..i + 1])
              == Batch(before.results + [ResultFor(recipients[i], d.result)], before.messages + d.messages)
  {
    BatchSnoc(HtmlSend(provider, html, subject, today), first, recipients, i);
  }

  /** A batch has one result per recipient. */
  lemma {:induction false} BatchLength(send: (nat, string) -> Delivery, first: nat, recipients: seq<string>)
    ensures |BatchSpec(send, first, recipients).results| == |recipients|
    decreases |recipients|
  {
    if recipients != [] {
      BatchLength(send, first, recipients[..|recipients| - 1]);
    }
  }

  /**
   * The k-th result of a batch belongs to the k-th recipient and is the outcome of `sendHtml`
   * for that recipient after the messages of the earlier ones: order is preserved.
   */
  lemma {:induction false} BatchResultAt(send: (nat, string) -> Delivery, first: nat, recipients: seq<string>, k: nat)
    requires k < |recipients|
    ensures |BatchSpec(send, first, recipients).results| == |recipients|
    ensures BatchSpec(send, first, recipients).results[k]
        == ResultFor(recipients[k], send(first + |BatchSpec(send, first, recipients[..k]).messages|, recipients[k]).result)
    decreases |recipients|
  {
    BatchLength(send, first, recipients);
    var n := |recipients| - 1;
    var init := recipients[..n];
    BatchLength(send, first, init);
    var before := BatchSpec(send, first, init);
    var d := send(first + |before.messages|, recipients[n]);
    assert BatchSpec(send, first, recipients).results == before.results + [ResultFor(recipients[n], d.result)];
    if k < n {
      BatchResultAt(send, first, init, k);
      assert init[..k] == recipients[..k] && init[k] == recipients[k];
    } else {
      assert init == recipients[..k];
    }
  }

  /** Each recipient costs at most two messages. */
  lemma {:induction false} BatchMessages(provider: (nat, Message) -> SendReply, html: string, subject: Value,
                                         today: string, first: nat, recipients: seq<string>)
    ensures |BatchSpec(HtmlSend(provider, html, subject, today), first, recipients).messages| <= 2 * |recipients|
    decreases |recipients|
  {
    if recipients != [] {
      var n := |recipients| - 1;
      var send := HtmlSend(provider, html, subject, today);
      BatchMessages(provider, html, subject, today, first, recipients[..n]);
      var before := BatchSpec(send, first, recipients[..n]);
      SendHtmlMessages(provider, first + |before.messages|, recipients[n], html, subject, today);
    }
  }

  /** The mail service, holding the provider it talks to and the messages it has handed over. */
  class EmailService {
    /** The provider's reply to the n-th message this service hands it. */
    const provider: (nat, Message) -> SendReply
    /** The messages handed to the provider so far, in order. */
    var sent: seq<Message>

    constructor Init(provider: (nat, Message) -> SendReply)
      ensures this.provider == provider && sent == []
    {
      this.provider := provider;
      sent := [];
    }

    /** `new EmailService(apiKey)`: refused without an API key. */
    static method Create(apiKey: Value, provider: (nat, Message) -> SendReply) returns (r: Result<EmailService, string>)
      ensures r.Failure? <==> !Truthy(apiKey)
      ensures r.Failure? ==> r.error == NoApiKey
      ensures r.Success? ==> fresh(r.value) && r.value.provider == provider && r.value.sent == []
    {
      if !Truthy(apiKey) {
        return Failure(NoApiKey);
      }
      var service := new EmailService.Init(provider);
      return Success(service);
    }

    /** `sendFallbackText` */
    method SendFallbackText(to: string, subject: string) returns (r: Result<string, string>)
      modifies this
      ensures var m := Message(Sender, to, subject, PlainText(FallbackBody));
        sent == old(sent) + [m] && r == FallbackResult(provider(|old(sent)|, m))
    {
      var message := Message(Sender, to, subject, PlainText(FallbackBody));
      var reply := provider(|sent|, message);
      sent := sent + [message];
      r := FallbackResult(reply);
    }

    /** `sendHtml`, with today's date (already rendered in the configured locale) as an input. */
    method SendHtml(to: string, html: string, subject: Value, today: string) returns (r: Result<string, string>)
      modifies this
      ensures var d := SendHtmlSpec(provider, |old(sent)|, to, html, subject, today);
        r == d.result && sent == old(sent) + d.messages
    {
      if to == "" {
        return Failure(NoRecipient);
      }
      var emailSubject := SubjectFor(subject, today);
      var message := Message(Sender, to, emailSubject, Html(html));
      var reply := provider(|sent|, message);
      sent := sent + [message];
      if reply.Delivered? {
        return Success(reply.id);
      }
      r := SendFallbackText(to, emailSubject);
    }

    /** `sendBatch` */
    method SendBatch(recipients: seq<string>, html: string, subject: Value, today: string)
      returns (results: seq<DeliveryResult>)
      modifies this
      ensures var b := BatchSpec(HtmlSend(provider, html, subject, today), |old(sent)|, recipients);
        results == b.results && sent == old(sent) + b.messages
    {
      ghost var first := |sent|;
      ghost var send := HtmlSend(provider, html, subject, today);
      ghost var b := Batch([], []);
      results := [];
      for i := 0 to |recipients|
        invariant b == BatchSpec(send, first, recipients[..i])
        invariant results == b.results && sent == old(sent) + b.messages
      {
        ghost var d := SendHtmlSpec(provider, |sent|, recipients[i], html, subject, today);
        HtmlBatchSnoc(provider, html, subject, today, first, recipients, i, b, d);
        var r := SendHtml(recipients[i], html, subject, today);
        results := results + [ResultFor(recipients[i], r)];
        b := Batch(b.results + [ResultFor(recipients[i], d.result)], b.messages + d.messages);
      }
      assert recipients[..|recipients|] == recipients;
    }
  }
}
