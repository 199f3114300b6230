/**
 * AIWA_Gemini_API once the HTTP call is taken out: the request body it
 * posts, the checks make_request applies to the decoded reply, and the
 * JSON extraction with its fixed fallback in check_grammar.
 *
 * json_decode is a parameter (a partial function from text to a PHP value);
 * the network is a parameter that maps the API key and the posted body to
 * what wp_remote_post returned.
 */
module GeminiApi {
  import opened Wrappers
  import opened Php
  import Prompts

  /** What wp_remote_post gives back: a transport WP_Error, or a reply carrying a body. */
  datatype HttpResponse = TransportError(error: WpError) | Received(body: string)

  /** json_decode($text, true); None where the text is not JSON. */
  type Decoder = string -> Option<Value>

  /** The outbound POST for a given API key and JSON body. */
  type Transport = (string, Value) -> HttpResponse

  /** The two copies of the class: includes/ (modular) and wp-content-helper.php (inline). */
  datatype Release = Modular | Inline

  /** json_decode gives null for text that is not JSON. */
  function JsonDecode(decode: Decoder, text: string): Value {
    match decode(text)
    case None => Null
    case Some(v) => v
  }

  function Field(name: string): Key { StrKey(name) }

  const MaxOutputTokens: int := 2048

  /** The path make_request reads the completion from: candidates[0].content.parts[0].text */
  const CompletionPath: seq<Key> :=
    [Field("candidates"), IntKey(0), Field("content"), Field("parts"), IntKey(0), Field("text")]

  /** Where the request carries the prompt: contents[0].parts[0].text */
  const PromptPath: seq<Key> :=
    [Field("contents"), IntKey(0), Field("parts"), IntKey(0), Field("text")]

  const InvalidResponse: string := "Invalid API response"

  /** Number of entries of an array; 0 for anything else. */
  function Size(v: Value): nat {
    if v.Arr? then |v.entries| else 0
  }

  /** A one-element PHP list, `array($item)`. */
  function Singleton(item: Value): Value {
    Arr(map[IntKey(0) := item])
  }

  /** The array make_request posts (lines 24-35). */
  function RequestBody(prompt: string, temperature: real): Value {
    var part := Arr(map[Field("text") := Str(prompt)]);
    var turn := Arr(map[Field("role") := Str("user"), Field("parts") := Singleton(part)]);
    var config := Arr(map[Field("temperature") := Float(temperature),
                          Field("maxOutputTokens") := Int(MaxOutputTokens)]);
    Arr(map[Field("contents") := Singleton(turn), Field("generationConfig") := config])
  }

  /** One step of an isset walk. */
  lemma DigStep(v: Value, k: Key, rest: seq<Key>)
    requires v.Arr? && k in v.entries
    ensures Dig(v, [k] + rest) == Dig(v.entries[k], rest)
  {
    assert ([k] + rest)[1..] == rest;
  }

  /** The request holds one turn, in the "user" role, with one part. */
  lemma RequestBodyTurn(prompt: string, temperature: real)
    ensures var body := RequestBody(prompt, temperature);
      && Size(Dig(body, [Field("contents")]).value) == 1
      && Dig(body, [Field("contents"), IntKey(0), Field("role")]) == Some(Str("user"))
      && Size(Dig(body, [Field("contents"), IntKey(0), Field("parts")]).value) == 1
  {
    var body := RequestBody(prompt, temperature);
    var contents := body.entries[Field("contents")];
    var turn := contents.entries[IntKey(0)];
    DigStep(body, Field("contents"), []);
    DigStep(body, Field("contents"), [IntKey(0), Field("role")]);
    DigStep(contents, IntKey(0), [Field("role")]);
    DigStep(turn, Field("role"), []);
    DigStep(body, Field("contents"), [IntKey(0), Field("parts")]);
    DigStep(contents, IntKey(0), [Field("parts")]);
    DigStep(turn, Field("parts"), []);
  }

  /** The one part's text is the prompt verbatim. */
  lemma RequestBodyCarriesPrompt(prompt: string, temperature: real)
    ensures Dig(RequestBody(prompt, temperature), PromptPath) == Some(Str(prompt))
  {
    var part := Arr(map[Field("text") := Str(prompt)]);
    var turn := Arr(map[Field("role") := Str("user"), Field("parts") := Singleton(part)]);
    var body := RequestBody(prompt, temperature);
    var p1 := [Field("text")];
    var p2 := [IntKey(0)] + p1;
    var p3 := [Field("parts")] + p2;
    var p4 := [IntKey(0)] + p3;
    assert Dig(part, p1) == Some(Str(prompt)) by { DigStep(part, Field("text"), []); }
    assert Dig(Singleton(part), p2) == Some(Str(prompt)) by { DigStep(Singleton(part), IntKey(0), p1); }
    assert Dig(turn, p3) == Some(Str(prompt)) by { DigStep(turn, Field("parts"), p2); }
    assert Dig(Singleton(turn), p4) == Some(Str(prompt)) by { DigStep(Singleton(turn), IntKey(0), p3); }
    assert body.entries[Field("contents")] == Singleton(turn);
    assert Dig(body, [Field("contents")] + p4) == Some(Str(prompt)) by {
      DigStep(body, Field("contents"), p4);
    }
    assert PromptPath == [Field("contents")] + p4;
  }

  /** The generation settings: the temperature given and a 2048-token cap. */
  lemma RequestBodyConfig(prompt: string, temperature: real)
    ensures var body := RequestBody(prompt, temperature);
      && Dig(body, [Field("generationConfig"), Field("temperature")]) == Some(Float(temperature))
      && Dig(body, [Field("generationConfig"), Field("maxOutputTokens")]) == Some(Int(MaxOutputTokens))
  {
    var body := RequestBody(prompt, temperature);
    var config := body.entries[Field("generationConfig")];
    DigStep(body, Field("generationConfig"), [Field("temperature")]);
    DigStep(config, Field("temperature"), []);
    DigStep(body, Field("generationConfig"), [Field("maxOutputTokens")]);
    DigStep(config, Field("maxOutputTokens"), []);
  }

  /** isset($result['error']) on the decoded body, and the entry it finds there. */
  function ErrorEntry(decode: Decoder, body: string): Option<Value> {
    Dig(JsonDecode(decode, body), [Field("error")])
  }

  /**
   * make_request after the POST (lines 43-58): a transport error is returned
   * as it is; then an `error` entry in the decoded body wins, and its
   * `message` is read outside isset (an array gives its message or null, a
   * string offset throws, any other scalar gives null); then the completion
   * path must be set, or the reply is invalid; the completion is returned
   * untouched.
   */
  function MakeRequest(response: HttpResponse, decode: Decoder): (r: Outcome)
    ensures response.TransportError? ==> r == Err(response.error)
    ensures response.Received? && ErrorEntry(decode, response.body).Some? ==>
      var e := ErrorEntry(decode, response.body).value;
      && (r.Fatal? <==> e.Str?)
      && (e.Arr? ==> r == Err(WpError("api_error", if Field("message") in e.entries then e.entries[Field("message")] else Null)))
      && (!e.Arr? && !e.Str? ==> r == Err(WpError("api_error", Null)))
    ensures response.Received? && ErrorEntry(decode, response.body).None?
            && Dig(JsonDecode(decode, response.body), CompletionPath).None? ==>
      r == Err(WpError("api_error", Str(InvalidResponse)))
    ensures r.Ok? ==>
      && response.Received?
      && ErrorEntry(decode, response.body).None?
      && Dig(JsonDecode(decode, response.body), CompletionPath) == Some(r.value)
  {
    match response
    case TransportError(e) => Err(e)
    case Received(body) =>
      match ErrorEntry(decode, body)
      case Some(error) =>
        (match ReadField(error, "message")
         case Some(message) => Err(WpError("api_error", message))
         case None => Fatal)
      case None =>
        match Dig(JsonDecode(decode, body), CompletionPath)
        case None => Err(WpError("api_error", Str(InvalidResponse)))
        case Some(text) => Ok(text)
  }

  // ---------------------------------------------------------------------
  // Provider envelopes, and what make_request makes of them
  // ---------------------------------------------------------------------

  /** The body of a successful generateContent reply carrying one completion text. */
  function CompletionEnvelope(text: string): Value {
    var part := Arr(map[Field("text") := Str(text)]);
    var content := Arr(map[Field("parts") := Singleton(part), Field("role") := Str("model")]);
    Arr(map[Field("candidates") := Singleton(Arr(map[Field("content") := content]))])
  }

  /** The completion path of a completion envelope leads to its text, and it has no `error` entry. */
  lemma CompletionEnvelopeDig(text: string)
    ensures Dig(CompletionEnvelope(text), CompletionPath) == Some(Str(text))
    ensures Dig(CompletionEnvelope(text), [Field("error")]).None?
  {
    var part := Arr(map[Field("text") := Str(text)]);
    var parts := Singleton(part);
    var content := Arr(map[Field("parts") := parts, Field("role") := Str("model")]);
    var candidate := Arr(map[Field("content") := content]);
    var env := Arr(map[Field("candidates") := Singleton(candidate)]);
    var p1 := [Field("text")];
    var p2 := [IntKey(0)] + p1;
    var p3 := [Field("parts")] + p2;
    var p4 := [Field("content")] + p3;
    var p5 := [IntKey(0)] + p4;
    assert Dig(part, p1) == Some(Str(text)) by { DigStep(part, Field("text"), []); }
    assert Dig(parts, p2) == Some(Str(text)) by { DigStep(parts, IntKey(0), p1); }
    assert Dig(content, p3) == Some(Str(text)) by { DigStep(content, Field("parts"), p2); }
    assert Dig(candidate, p4) == Some(Str(text)) by { DigStep(candidate, Field("content"), p3); }
    assert Dig(Singleton(candidate), p5) == Some(Str(text)) by { DigStep(Singleton(candidate), IntKey(0), p4); }
    assert Dig(env, [Field("candidates")] + p5) == Some(Str(text)) by {
      DigStep(env, Field("candidates"), p5);
    }
    assert CompletionPath == [Field("candidates")] + p5;
    assert env == CompletionEnvelope(text);
    assert Field("error") !in env.entries;
  }

  /** A completion envelope comes back as exactly its text. */
  lemma CompletionRoundTrip(body: string, decode: Decoder, text: string)
    requires decode(body) == Some(CompletionEnvelope(text))
    ensures MakeRequest(Received(body), decode) == Ok(Str(text))
  {
    CompletionEnvelopeDig(text);
  }

  /**
   * A provider error object, whatever else it holds (a code, a status,
   * details), becomes api_error carrying its `message` entry.
   */
  lemma ErrorRoundTrip(body: string, decode: Decoder, top: map<Key, Value>, error: map<Key, Value>)
    requires decode(body) == Some(Arr(top))
    requires Field("error") in top && top[Field("error")] == Arr(error)
    requires Field("message") in error
    ensures MakeRequest(Received(body), decode) == Err(WpError("api_error", error[Field("message")]))
  {
    assert ErrorEntry(decode, body) == Some(Arr(error)) by {
      DigStep(Arr(top), Field("error"), []);
    }
  }

  /**
   * The `error` check comes first: a body holding both an error entry and a
   * completion yields the error, never the completion.
   */
  lemma ErrorCheckedBeforeCompletion(body: string, decode: Decoder, error: Value)
    requires decode(body).Some?
    requires Dig(decode(body).value, [Field("error")]) == Some(error)
    requires Dig(decode(body).value, CompletionPath).Some?
    ensures MakeRequest(Received(body), decode).Err? || MakeRequest(Received(body), decode).Fatal?
    ensures error.Arr? ==> MakeRequest(Received(body), decode) == Err(WpError("api_error", ReadField(error, "message").value))
  {
  }

  /** A body json_decode cannot read decodes to null and is an invalid response. */
  lemma UndecodableIsInvalid(body: string, decode: Decoder)
    requires decode(body).None?
    ensures MakeRequest(Received(body), decode) == Err(WpError("api_error", Str(InvalidResponse)))
  {
  }

  /**
   * make_request's three ways to fail and its one way to succeed, over all
   * replies: Ok exactly when nothing failed and the completion is set.
   */
  lemma MakeRequestOkIff(response: HttpResponse, decode: Decoder, v: Value)
    ensures MakeRequest(response, decode) == Ok(v) <==>
      (response.Received?
       && ErrorEntry(decode, response.body).None?
       && Dig(JsonDecode(decode, response.body), CompletionPath) == Some(v))
  {
  }

  // ---------------------------------------------------------------------
  // check_grammar: preg_match('/\{[\s\S]*\}/') and the fixed fallback
  // ---------------------------------------------------------------------

  /** Index of the first occurrence of c in s. */
  function FirstIndex(s: string, c: char): (r: Option<nat>)
    ensures r.None? ==> forall j :: 0 <= j < |s| ==> s[j] != c
    ensures r.Some? ==> r.value < |s| && s[r.value] == c && forall j :: 0 <= j < r.value ==> s[j] != c
  {
    if s == [] then None
    else if s[0] == c then Some(0)
    else
      match FirstIndex(s[1..], c)
      case None => None
      case Some(i) => Some(i + 1)
  }

  /** Index of the last occurrence of c in s. */
  function LastIndex(s: string, c: char): (r: Option<nat>)
    ensures r.None? ==> forall j :: 0 <= j < |s| ==> s[j] != c
    ensures r.Some? ==> r.value < |s| && s[r.value] == c && forall j :: r.value < j < |s| ==> s[j] != c
  {
    if s == [] then None
    else if s[|s| - 1] == c then Some(|s| - 1)
    else LastIndex(s[..|s| - 1], c)
  }

  /**
   * The span [start, end) preg_match reports: the pattern can only start on
   * a '{', the first one from which a '}' follows, and the greedy
   * [\s\S]* then gives back characters until the last '}'.
   */
  function BraceSpan(s: string): Option<(nat, nat)> {
    match (FirstIndex(s, '{'), LastIndex(s, '}'))
    case (Some(i), Some(k)) => if i < k then Some((i, k + 1)) else None
    case _ => None
  }

  /** $matches[0], or None when preg_match finds nothing. */
  function ExtractJson(s: string): (r: Option<string>)
    ensures r.Some? ==> |r.value| >= 2 && r.value[0] == '{' && r.value[|r.value| - 1] == '}'
  {
    match BraceSpan(s)
    case None => None
    case Some((i, j)) => Some(s[i..j])
  }

  /** s[i..j] is matched by \{[\s\S]*\} */
  predicate MatchesAt(s: string, i: int, j: int) {
    0 <= i && i + 2 <= j <= |s| && s[i] == '{' && s[j - 1] == '}'
  }

  /** Some match of the pattern starts at i: a '{' with a '}' somewhere after it. */
  predicate CanStartAt(s: string, i: int) {
    0 <= i < |s| && s[i] == '{' && exists k :: i < k < |s| && s[k] == '}'
  }

  /**
   * ExtractJson follows the regex semantics of PCRE: the reported span is a
   * match, no match starts further left, and no longer match starts at the
   * same place (the star is greedy); and there is no span at all exactly
   * when no match starts anywhere.
   */
  lemma ExtractJsonIsLeftmostGreedy(s: string)
    ensures BraceSpan(s).Some? ==>
      var (i, j) := BraceSpan(s).value;
      && MatchesAt(s, i, j)
      && ExtractJson(s) == Some(s[i..j])
      && (forall i' :: 0 <= i' < i ==> !CanStartAt(s, i'))
      && (forall j' :: j < j' <= |s| ==> !MatchesAt(s, i, j'))
    ensures BraceSpan(s).None? <==> forall i :: 0 <= i < |s| ==> !CanStartAt(s, i)
  {
    var first, last := FirstIndex(s, '{'), LastIndex(s, '}');
    if BraceSpan(s).Some? {
      assert CanStartAt(s, first.value);
    }
  }

  /**
   * Prose around a JSON object: whatever precedes holds no '{' and whatever
   * follows holds no '}', so the match is exactly the object.
   */
  lemma ExtractJsonFindsEmbeddedObject(before: string, json: string, after: string)
    requires |json| >= 2 && json[0] == '{' && json[|json| - 1] == '}'
    requires '{' !in before && '}' !in after
    ensures ExtractJson(before + json + after) == Some(json)
  {
    var s := before + json + after;
    var i0, k0 := |before|, |before| + |json| - 1;
    assert s[i0] == '{' && s[k0] == '}';
    forall j | 0 <= j < i0 ensures s[j] != '{' {
      assert s[j] == before[j];
    }
    forall j | k0 < j < |s| ensures s[j] != '}' {
      assert s[j] == after[j - k0 - 1];
    }
    assert s[i0..k0 + 1] == json;
  }

  /** The array check_grammar falls back to. */
  const DefaultGrammar: Value :=
    Arr(map[Field("language") := Str("Unknown"), Field("errors") := Arr(map[]), Field("score") := Int(90)])

  /**
   * check_grammar after make_request succeeded (lines 79-85). The subject of
   * preg_match is the completion: an array there makes PHP 8 throw; a number
   * or boolean is matched in its string form, which holds no brace.
   */
  function GrammarFromCompletion(completion: Value, decode: Decoder): (r: Outcome)
    ensures r.Ok? ==> Truthy(r.value)
    ensures r.Fatal? <==> completion.Arr?
  {
    match completion
    case Arr(_) => Fatal
    case Str(s) =>
      (match ExtractJson(s)
       case None => Ok(DefaultGrammar)
       case Some(json) =>
         var parsed := JsonDecode(decode, json);
         if Truthy(parsed) then Ok(parsed) else Ok(DefaultGrammar))
    case _ => Ok(DefaultGrammar)
  }

  /** check_grammar: an error from make_request goes back unchanged (line 76). */
  function CheckGrammarReply(reply: Outcome, decode: Decoder): (r: Outcome)
    ensures reply.Err? ==> r == reply
    ensures r.Err? ==> r == reply
    ensures reply.Ok? && reply.value.Str? ==> r.Ok? && Truthy(r.value)
  {
    match reply
    case Ok(completion) => GrammarFromCompletion(completion, decode)
    case _ => reply
  }

  /**
   * Given the leftmost match of \{[\s\S]*\} and the longest one starting
   * there, the result is what that match decodes to when that is truthy,
   * and the fixed default when it is falsy (an undecodable text, `{}`); no
   * check of the decoded shape is made.
   */
  lemma GrammarFallback(s: string, decode: Decoder, i: nat, j: nat)
    requires MatchesAt(s, i, j)
    requires forall i' :: 0 <= i' < i ==> !CanStartAt(s, i')
    requires forall j' :: j < j' <= |s| ==> !MatchesAt(s, i, j')
    ensures var parsed := JsonDecode(decode, s[i..j]);
      GrammarFromCompletion(Str(s), decode) == if Truthy(parsed) then Ok(parsed) else Ok(DefaultGrammar)
  {
    assert CanStartAt(s, i) by { assert s[j - 1] == '}'; }
    ExtractJsonIsLeftmostGreedy(s);
    var (i0, j0) := BraceSpan(s).value;
    assert CanStartAt(s, i0) by { assert s[j0 - 1] == '}'; }
    assert i0 == i;
    assert j0 == j;
  }

  /** A completion with no brace pair at all always yields the default, whatever the decoder. */
  lemma NoObjectGivesDefault(s: string, decode: Decoder)
    requires forall i :: 0 <= i < |s| ==> !CanStartAt(s, i)
    ensures GrammarFromCompletion(Str(s), decode) == Ok(DefaultGrammar)
  {
    ExtractJsonIsLeftmostGreedy(s);
  }

  /**
   * The model's object surrounded by prose is what check_grammar returns,
   * provided json_decode reads it to a non-empty array.
   */
  lemma EmbeddedObjectIsReturned(before: string, json: string, after: string, decode: Decoder, v: Value)
    requires |json| >= 2 && json[0] == '{' && json[|json| - 1] == '}'
    requires '{' !in before && '}' !in after
    requires decode(json) == Some(v) && Truthy(v)
    ensures GrammarFromCompletion(Str(before + json + after), decode) == Ok(v)
  {
    ExtractJsonFindsEmbeddedObject(before, json, after);
  }

  // ---------------------------------------------------------------------
  // The public methods: improve_text, check_grammar, rewrite_content
  // ---------------------------------------------------------------------

  datatype Operation =
    | Improve(text: string)
    | CheckGrammar(text: string)
    | Rewrite(text: string, tone: string)

  function PromptFor(release: Release, op: Operation): string {
    match (release, op)
    case (Modular, Improve(t)) => Prompts.ImprovePrompt(t)
    case (Modular, CheckGrammar(t)) => Prompts.GrammarPrompt(t)
    case (Modular, Rewrite(t, tone)) => Prompts.RewritePrompt(t, tone)
    case (Inline, Improve(t)) => Prompts.InlineImprovePrompt(t)
    case (Inline, CheckGrammar(t)) => Prompts.InlineGrammarPrompt(t)
    case (Inline, Rewrite(t, tone)) => Prompts.InlineRewritePrompt(t, tone)
  }

  /** The temperature each method passes (opaque constants here). */
  function TemperatureFor(release: Release, op: Operation): real {
    match (release, op)
    case (Modular, _) => 0.3
    case (Inline, CheckGrammar(_)) => 0.3
    case (Inline, _) => 0.7
  }

  /** One POST: the key it went out with and the body. */
  datatype Exchange = Exchange(apiKey: string, body: Value, outcome: Outcome)

  /** A public method of AIWA_Gemini_API: build the prompt, make one request, post-process. */
  function Perform(release: Release, apiKey: string, op: Operation, send: Transport, decode: Decoder): (x: Exchange)
    ensures x.apiKey == apiKey
    ensures x.body == RequestBody(PromptFor(release, op), TemperatureFor(release, op))
    ensures !op.CheckGrammar? ==> x.outcome == MakeRequest(send(apiKey, x.body), decode)
    ensures op.CheckGrammar? ==> x.outcome == CheckGrammarReply(MakeRequest(send(apiKey, x.body), decode), decode)
  {
    var body := RequestBody(PromptFor(release, op), TemperatureFor(release, op));
    var reply := MakeRequest(send(apiKey, body), decode);
    Exchange(apiKey, body, if op.CheckGrammar? then CheckGrammarReply(reply, decode) else reply)
  }

  /** Every public method posts its prompt verbatim as the one part of the one turn. */
  lemma PerformPostsPromptVerbatim(release: Release, apiKey: string, op: Operation, send: Transport, decode: Decoder)
    ensures Dig(Perform(release, apiKey, op, send, decode).body, PromptPath) == Some(Str(PromptFor(release, op)))
  {
    RequestBodyCarriesPrompt(PromptFor(release, op), TemperatureFor(release, op));
  }
}
