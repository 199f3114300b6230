/**
 * AIWA_Ajax: the three admin-ajax endpoints (aiwa_improve, aiwa_grammar,
 * aiwa_rewrite). Each is a chain of guards that ends the request early
 * (check_ajax_referer dies, wp_send_json_* exits), then one call into
 * AIWA_Gemini_API and a JSON envelope around what it returned.
 */
module AjaxHandlers {
  import opened Wrappers
  import opened Php
  import opened UserMeta
  import opened GeminiApi
  import EditorScript

  datatype Action = ImproveAction | GrammarAction | RewriteAction

  /** The WordPress and network functions a handler calls. */
  datatype Host = Host(
    sanitizeText: string -> string,      // sanitize_text_field
    sanitizeTextarea: string -> string,  // sanitize_textarea_field
    send: Transport,
    decode: Decoder)

  /** One admin-ajax request: whether its nonce checks out, the current user, and $_POST. */
  datatype Request = Request(nonceValid: bool, userId: int, post: map<string, string>)

  /** How the request ends: a JSON envelope, check_ajax_referer's "-1", or a PHP Error. */
  datatype Reply = Json(success: bool, data: Value) | NonceRejected | Crash

  /** The reply and the calls made to the provider on the way. */
  datatype Handled = Handled(reply: Reply, calls: seq<Exchange>)

  const ApiKeyMeta: string := "aiwa_api_key"
  const DefaultTone: string := "professional"

  function NoKeyMessage(release: Release): string {
    match release
    case Modular => "No API key configured"
    case Inline => "No API key"
  }

  function NoTextMessage(release: Release): string {
    match release
    case Modular => "No text provided"
    case Inline => "No text"
  }

  /** The posted text, through the textarea sanitizer; "" when nothing was posted. */
  function PostedText(req: Request, host: Host): string {
    if "text" in req.post then host.sanitizeTextarea(req.post["text"]) else ""
  }

  /** The posted tone, through the text sanitizer; the professional tone when none was posted. */
  function PostedTone(req: Request, host: Host): (tone: string)
    ensures "tone" !in req.post ==> tone == DefaultTone
    ensures "tone" in req.post ==> tone == host.sanitizeText(req.post["tone"])
  {
    if "tone" in req.post then host.sanitizeText(req.post["tone"]) else DefaultTone
  }

  /** Which AIWA_Gemini_API method an endpoint calls, and with what. */
  function OperationFor(action: Action, text: string, tone: string): (op: Operation)
    ensures op.text == text
  {
    match action
    case ImproveAction => Improve(text)
    case GrammarAction => CheckGrammar(text)
    case RewriteAction => Rewrite(text, tone)
  }

  /** is_wp_error ? wp_send_json_error(message) : wp_send_json_success(result) */
  function Envelope(outcome: Outcome): (reply: Reply)
    ensures outcome.Ok? <==> reply.Json? && reply.success
    ensures outcome.Err? <==> reply.Json? && !reply.success
    ensures outcome.Fatal? <==> reply.Crash?
  {
    match outcome
    case Ok(v) => Json(true, v)
    case Err(e) => Json(false, e.message)
    case Fatal => Crash
  }

  /** Every envelope is read back as the outcome it wraps, up to the error code. */
  lemma EnvelopeKeepsResult(outcome: Outcome)
    ensures outcome.Ok? ==> Envelope(outcome).data == outcome.value
    ensures outcome.Err? ==> Envelope(outcome).data == outcome.error.message
  {
  }

  /**
   * One endpoint from start to finish. The guards end the request before
   * any call is made; past them exactly one call goes out, with the stored
   * key and the posted text.
   */
  function Handle(release: Release, action: Action, req: Request, meta: Meta, host: Host): (h: Handled)
    ensures |h.calls| <= 1
    ensures !req.nonceValid ==> h.reply.NonceRejected?
    ensures h.calls != [] ==>
      && req.nonceValid
      && !IsEmpty(Lookup(meta, req.userId, ApiKeyMeta))
      && !IsEmpty(PostedText(req, host))
      && h.calls[0].apiKey == Lookup(meta, req.userId, ApiKeyMeta)
      && h.reply == Envelope(h.calls[0].outcome)
  {
    if !req.nonceValid then Handled(NonceRejected, [])
    else
      var apiKey := Lookup(meta, req.userId, ApiKeyMeta);
      if IsEmpty(apiKey) then Handled(Json(false, Str(NoKeyMessage(release))), [])
      else
        var text := PostedText(req, host);
        var tone := PostedTone(req, host);
        if IsEmpty(text) then Handled(Json(false, Str(NoTextMessage(release))), [])
        else
          var call := Perform(release, apiKey, OperationFor(action, text, tone), host.send, host.decode);
          Handled(Envelope(call.outcome), [call])
  }

  /** The nonce is checked before anything else: a bad nonce ends every endpoint alike, with no call. */
  lemma NonceFirst(release: Release, action: Action, req: Request, meta: Meta, host: Host)
    requires !req.nonceValid
    ensures Handle(release, action, req, meta, host) == Handled(NonceRejected, [])
  {
  }

  /**
   * A user whose stored key is missing, "" or "0" gets the no-key error
   * whatever they posted and whatever the provider would say; no call is made.
   */
  lemma MissingKeyRejected(release: Release, action: Action, req: Request, meta: Meta, host: Host)
    requires req.nonceValid
    requires (req.userId, ApiKeyMeta) !in meta || IsEmpty(meta[(req.userId, ApiKeyMeta)])
    ensures Handle(release, action, req, meta, host) == Handled(Json(false, Str(NoKeyMessage(release))), [])
  {
  }

  /** Text the sanitizer leaves empty, or the text "0", gets the no-text error and no call. */
  lemma EmptyTextRejected(release: Release, action: Action, req: Request, meta: Meta, host: Host)
    requires req.nonceValid && !IsEmpty(Lookup(meta, req.userId, ApiKeyMeta))
    requires "text" !in req.post || host.sanitizeTextarea(req.post["text"]) in {"", "0"}
    ensures Handle(release, action, req, meta, host) == Handled(Json(false, Str(NoTextMessage(release))), [])
  {
  }

  /**
   * Once the guards pass, exactly one call goes out, carrying the stored
   * key and the sanitized text, and its result comes back in the envelope
   * unchanged: a success wraps the value, an error carries the message.
   */
  lemma GuardsPassedMeansOneCall(release: Release, action: Action, req: Request, meta: Meta, host: Host)
    requires req.nonceValid
    requires !IsEmpty(Lookup(meta, req.userId, ApiKeyMeta))
    requires !IsEmpty(PostedText(req, host))
    ensures var h := Handle(release, action, req, meta, host);
      && |h.calls| == 1
      && h.calls[0].apiKey == Lookup(meta, req.userId, ApiKeyMeta)
      && h.calls[0].body == RequestBody(PromptFor(release, OperationFor(action, PostedText(req, host), PostedTone(req, host))),
                                        TemperatureFor(release, OperationFor(action, PostedText(req, host), PostedTone(req, host))))
      && (h.calls[0].outcome.Ok? ==> h.reply == Json(true, h.calls[0].outcome.value))
      && (h.calls[0].outcome.Err? ==> h.reply == Json(false, h.calls[0].outcome.error.message))
  {
    var op := OperationFor(action, PostedText(req, host), PostedTone(req, host));
    var x := Perform(release, Lookup(meta, req.userId, ApiKeyMeta), op, host.send, host.decode);
    assert Handle(release, action, req, meta, host) == Handled(Envelope(x.outcome), [x]);
  }

  /** A rewrite request that posts no tone is rewritten in the professional tone. */
  lemma RewriteToneDefaults(release: Release, req: Request, meta: Meta, host: Host)
    requires req.nonceValid
    requires !IsEmpty(Lookup(meta, req.userId, ApiKeyMeta))
    requires !IsEmpty(PostedText(req, host))
    requires "tone" !in req.post
    ensures Handle(release, RewriteAction, req, meta, host).calls[0].body
         == RequestBody(PromptFor(release, Rewrite(PostedText(req, host), DefaultTone)),
                        TemperatureFor(release, Rewrite(PostedText(req, host), DefaultTone)))
  {
    GuardsPassedMeansOneCall(release, RewriteAction, req, meta, host);
    assert OperationFor(RewriteAction, PostedText(req, host), PostedTone(req, host))
        == Rewrite(PostedText(req, host), DefaultTone);
  }

  /**
   * A provider error object, of any shape, reaches the browser as an error
   * envelope carrying the provider's own message.
   */
  lemma ProviderErrorReachesBrowser(release: Release, action: Action, req: Request, meta: Meta, host: Host,
                                    top: map<Key, Value>, error: map<Key, Value>)
    requires req.nonceValid
    requires !IsEmpty(Lookup(meta, req.userId, ApiKeyMeta))
    requires !IsEmpty(PostedText(req, host))
    requires var key := Lookup(meta, req.userId, ApiKeyMeta);
             var op := OperationFor(action, PostedText(req, host), PostedTone(req, host));
             var sent := host.send(key, RequestBody(PromptFor(release, op), TemperatureFor(release, op)));
             sent.Received? && host.decode(sent.body) == Some(Arr(top))
    requires Field("error") in top && top[Field("error")] == Arr(error)
    requires Field("message") in error
    ensures Handle(release, action, req, meta, host).reply == Json(false, error[Field("message")])
  {
    var key := Lookup(meta, req.userId, ApiKeyMeta);
    var op := OperationFor(action, PostedText(req, host), PostedTone(req, host));
    var x := Perform(release, key, op, host.send, host.decode);
    assert Handle(release, action, req, meta, host) == Handled(Envelope(x.outcome), [x]);
    assert x.outcome == Err(WpError("api_error", error[Field("message")])) by {
      ErrorRoundTrip(host.send(key, x.body).body, host.decode, top, error);
    }
  }

  /**
   * The browser and the server disagree on any text that trims to "0": the
   * editor's click guard sends it, and the endpoint answers the posted text
   * with the no-text error and makes no call.
   */
  lemma ZeroTextPassesClientGuardOnly(field: string, release: Release, action: Action, req: Request, meta: Meta, host: Host)
    requires EditorScript.Trim(field) == "0"
    requires req.nonceValid && !IsEmpty(Lookup(meta, req.userId, ApiKeyMeta))
    requires "text" in req.post && req.post["text"] == EditorScript.Trim(field)
    requires host.sanitizeTextarea("0") == "0"
    ensures EditorScript.ClickGuard(true, field) == EditorScript.Sent
    ensures Handle(release, action, req, meta, host) == Handled(Json(false, Str(NoTextMessage(release))), [])
  {
    EmptyTextRejected(release, action, req, meta, host);
  }

  /**
   * The two releases of the endpoints run the same guards in the same
   * order and make the same call; they differ only in the wording of the
   * two guard messages and in the prompt they send.
   */
  lemma ReleasesShareGuards(action: Action, req: Request, meta: Meta, host: Host)
    ensures var m := Handle(Modular, action, req, meta, host);
            var i := Handle(Inline, action, req, meta, host);
      && |m.calls| == |i.calls|
      && (m.calls != [] ==> m.calls[0].apiKey == i.calls[0].apiKey)
      && (m.reply.NonceRejected? <==> i.reply.NonceRejected?)
      && ((m.calls == [] && m.reply == Json(false, Str(NoKeyMessage(Modular))))
          <==> (i.calls == [] && i.reply == Json(false, Str(NoKeyMessage(Inline)))))
  {
    var key := Lookup(meta, req.userId, ApiKeyMeta);
    if !req.nonceValid {
      NonceFirst(Modular, action, req, meta, host);
      NonceFirst(Inline, action, req, meta, host);
    } else if IsEmpty(key) {
      MissingKeyRejected(Modular, action, req, meta, host);
      MissingKeyRejected(Inline, action, req, meta, host);
    } else if IsEmpty(PostedText(req, host)) {
      EmptyTextRejected(Modular, action, req, meta, host);
      EmptyTextRejected(Inline, action, req, meta, host);
      assert NoTextMessage(Modular) != NoKeyMessage(Modular);
      assert NoTextMessage(Inline) != NoKeyMessage(Inline);
    } else {
      GuardsPassedMeansOneCall(Modular, action, req, meta, host);
      GuardsPassedMeansOneCall(Inline, action, req, meta, host);
    }
  }
}
