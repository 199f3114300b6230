# WP Content Helper — a verified model of its core

WP Content Helper is a WordPress plugin that sends a post author's text to Google's Gemini
API. The API improves the text, checks its grammar, or rewrites it in a chosen tone, and the
author can then put the answer back in place of the selection in the editor. The plugin ships
in two forms. The modular release splits the server code over `includes/`. The single-file
release has its own copy of the same classes in `wp-content-helper.php`; in this model that copy
is called the inline release.

This Dafny project models the logic under the plugin's WordPress glue:

- **Prompts** (`prompts.dfy`): the three prompt templates of each release and the supported-language table.
- **Gemini client** (`gemini_api.dfy`): once the HTTP call is taken out, `AIWA_Gemini_API` covers:
  - the request body it posts;
  - the order in which `make_request` checks the decoded reply;
  - the `\{[\s\S]*\}` extraction in `check_grammar`, with its fixed fallback.
- **AJAX endpoints** (`ajax_handlers.dfy`): the guard chain in each of the three `AIWA_Ajax` handlers (nonce, then stored key, then text) and the JSON envelope that ends it.
- **Per-user store** (`user_meta.dfy`): the store behind `get_user_meta` and `update_user_meta`, a class whose map is updated in place.
- **Profile settings** (`user_settings.dfy`): masking of a stored API key, the profile save handler and the preferred-language default.
- **Settings page** (`settings_page.dfy`): the settings-page save of the inline release.
- **Editor script** (`editor_script.dfy`): the editor-page script. A class holds the page state:
  - the saved selection and range;
  - the modal, tabs and text areas;
  - the disabled buttons;
  - the apply buttons and the requests posted.

  Its methods are the script's event handlers. A DOM Range is an interval over a flat text buffer.
- **Feedback form** (`feedback.dfy`): the feedback handler, with the mailer as a class whose verdict on each mail is given.

Outside effects become parameters:

- `json_decode` is a partial function from text to a PHP value.
- The network maps the API key and the posted body to a reply.
- Nonce checks and capabilities are booleans.
- The sanitizers and `intval` are functions.
- The result of `window.getSelection()` is an argument.

PHP values follow PHP 8. A string read with a non-numeric offset throws, and so do `preg_match`
on an array and `str_repeat` with a negative count. Each of these ends the model as a fatal
error.

Some points about the code that the model keeps exactly:

- make_request returns the completion text as it was received, with nothing stripped from it (includes/class-gemini-api.php:58).
- The sidebar script posts the actions `aiwa_generate_content` and `aiwa_detect_language` (assets/js/editor-sidebar.js:147, assets/js/editor-sidebar.js:187). No handler is registered for either: only improve, grammar and rewrite are (includes/class-ajax-handlers.php:20-22, wp-content-helper.php:1043-1045).
- check_grammar returns whatever the extracted JSON decodes to, without giving it a fixed shape (includes/class-gemini-api.php:81-82).
- The modular release uses temperature 0.3 for all three operations (includes/class-gemini-api.php:66, 74, 93). The inline release uses 0.7 for improve and rewrite and 0.3 for grammar (wp-content-helper.php:74, 84, 99).

## Model

| member | source | states |
|---|---|---|
| Php.IsEmpty | includes/class-ajax-handlers.php:34-41 | PHP's `empty`/`!` on a string: true exactly for "" and "0" |
| Php.Dig | includes/class-gemini-api.php:50-54 | `isset` on a key path: the result is never null, and on an empty path it is set exactly when the value is not null |
| Php.ReadField | includes/class-gemini-api.php:51 | reading `$v['message']` throws exactly when `$v` is a string, and gives the entry of an array that holds it |
| Prompts.ImprovePrompt | includes/prompts.php:14-27 | the improve prompt is the fixed instructions, then a blank line, then the text verbatim |
| Prompts.GrammarPrompt | includes/prompts.php:33-46 | the grammar prompt is the fixed instructions with the JSON template at a fixed place, ending in "Text to check:\n" and the text verbatim |
| Prompts.RewritePrompt | includes/prompts.php:52-66 | the tone appears verbatim at both interpolation points, and the prompt ends with " tone:\n\n" followed by the text |
| Prompts.SupportedLanguages | includes/prompts.php:72-86 | the language table has 11 entries with distinct codes, and the first is en → English |
| Prompts.InlineImprovePrompt | wp-content-helper.php:73 | the inline improve prompt is its fixed instruction, then "\n\n" and the text |
| Prompts.InlineGrammarPrompt | wp-content-helper.php:79-82 | the inline grammar prompt is its fixed instruction and JSON template, then "Text: " and the text |
| Prompts.InlineRewritePrompt | wp-content-helper.php:98 | the inline rewrite prompt embeds the tone after a fixed head and ends with "\n\n" and the text |
| Prompts.GrammarTemplateKeys | includes/prompts.php:43 | the embedded JSON template is a brace-delimited object that contains the keys "language", "errors" and "score" |
| Prompts.ImprovePromptDeterminesText | includes/prompts.php:14-27 | the text goes in unescaped after a fixed prefix, so two equal improve prompts carry the same text |
| Prompts.GrammarPromptDeterminesText | includes/prompts.php:33-46 | two equal grammar prompts carry the same text |
| Prompts.InlineImprovePromptDeterminesText | wp-content-helper.php:73 | two equal inline improve prompts carry the same text |
| Prompts.InlineGrammarPromptDeterminesText | wp-content-helper.php:79-82 | two equal inline grammar prompts carry the same text |
| Prompts.RewritePromptDeterminesInputs | includes/prompts.php:52-66 | two rewrite prompts with tones of one length are equal only for equal tone and text |
| Prompts.InlineRewritePromptDeterminesInputs | wp-content-helper.php:98 | the same for the inline rewrite prompt |
| GeminiApi.RequestBodyTurn | includes/class-gemini-api.php:24-30 | the request has exactly one turn, in the "user" role, with exactly one part |
| GeminiApi.RequestBodyCarriesPrompt | includes/class-gemini-api.php:28 | the one part's text is the prompt verbatim |
| GeminiApi.RequestBodyConfig | includes/class-gemini-api.php:31-34 | the generation config has the temperature given and maxOutputTokens 2048 |
| GeminiApi.MakeRequest | includes/class-gemini-api.php:43-58 | a transport error is returned unchanged; an `error` entry wins over everything after it: an array gives `api_error` with its `message` entry (null when absent), a string throws, any other scalar gives `api_error` with null; with no error entry and no completion at the path the result is `api_error` "Invalid API response"; success only for a received body with no `error` entry whose completion path is set, and the value is that completion |
| GeminiApi.MakeRequestOkIff | includes/class-gemini-api.php:43-58 | over all replies, success with v holds exactly when the reply was received, has no `error` entry and has v at the completion path |
| GeminiApi.CompletionRoundTrip | includes/class-gemini-api.php:54-58 | a provider envelope carrying one completion text comes back as exactly that text |
| GeminiApi.ErrorRoundTrip | includes/class-gemini-api.php:48-51 | any provider error object that holds a `message` entry, whatever else it holds, becomes `api_error` carrying that entry |
| GeminiApi.ErrorCheckedBeforeCompletion | includes/class-gemini-api.php:50-56 | a reply holding both an `error` entry and a completion fails: the error check comes first |
| GeminiApi.UndecodableIsInvalid | includes/class-gemini-api.php:47-56 | a body json_decode cannot read gives `api_error` "Invalid API response" |
| GeminiApi.ExtractJson | includes/class-gemini-api.php:79 | a match starts with '{', ends with '}' and is at least two characters long |
| GeminiApi.ExtractJsonIsLeftmostGreedy | includes/class-gemini-api.php:79 | the span found matches the pattern; no match starts further left; no longer match starts at the same place; and nothing is found exactly when no match exists |
| GeminiApi.ExtractJsonFindsEmbeddedObject | includes/class-gemini-api.php:78-79 | an object surrounded by prose with no '{' before it and no '}' after it is extracted exactly |
| GeminiApi.GrammarFromCompletion | includes/class-gemini-api.php:79-85 | the result is always a truthy value or a fatal error, and it is fatal exactly when the completion is an array |
| GeminiApi.CheckGrammarReply | includes/class-gemini-api.php:74-85 | an error from make_request passes through unchanged; no other error arises; a text completion always gives a truthy result |
| GeminiApi.GrammarFallback | includes/class-gemini-api.php:79-85 | for the leftmost match of the pattern and the longest match starting there, the result is that match's decode when it is truthy and the default {language: "Unknown", errors: [], score: 90} when it is falsy, with no shape check |
| GeminiApi.NoObjectGivesDefault | includes/class-gemini-api.php:79-85 | a completion with no '{' followed by a '}' gives the default, whatever the decoder |
| GeminiApi.EmbeddedObjectIsReturned | includes/class-gemini-api.php:79-82 | an embedded object that decodes to a truthy value is returned as decoded, with no shape check |
| GeminiApi.Perform | includes/class-gemini-api.php:64-94 | each public method posts the request for its prompt and temperature with the object's key; grammar post-processes the reply and the others return make_request's result |
| GeminiApi.PerformPostsPromptVerbatim | includes/class-gemini-api.php:64-93 | every public method posts its prompt verbatim as the one part of the one turn |
| AjaxHandlers.PostedTone | includes/class-ajax-handlers.php:95 | the tone is the sanitized posted tone, or "professional" when none is posted |
| AjaxHandlers.Envelope | includes/class-ajax-handlers.php:46-50 | a result gives a success envelope, an error gives an error envelope, and a fatal error gives no envelope |
| AjaxHandlers.EnvelopeKeepsResult | includes/class-ajax-handlers.php:46-50 | a success envelope carries the result unchanged, and an error envelope carries the error's message |
| AjaxHandlers.Handle | includes/class-ajax-handlers.php:28-51 | at most one call; a bad nonce is rejected; a call happens only past the nonce, key and text guards, with the stored key, and the reply is its envelope |
| AjaxHandlers.NonceFirst | includes/class-ajax-handlers.php:29 | a bad nonce ends every endpoint alike, before any input is read and with no call |
| AjaxHandlers.MissingKeyRejected | includes/class-ajax-handlers.php:31-36 | a missing, "" or "0" key gives the no-key error whatever was posted, and no call is made |
| AjaxHandlers.EmptyTextRejected | includes/class-ajax-handlers.php:38-41 | text that is missing, "" or "0" gives the no-text error, and no call is made |
| AjaxHandlers.GuardsPassedMeansOneCall | includes/class-ajax-handlers.php:43-50 | past the guards exactly one call goes out, with the stored key and a body built from the sanitized text and tone; its result or error message comes back unchanged |
| AjaxHandlers.RewriteToneDefaults | includes/class-ajax-handlers.php:94-102 | a rewrite request with no tone posted is sent with the tone "professional" |
| AjaxHandlers.ProviderErrorReachesBrowser | includes/class-ajax-handlers.php:43-48 | a provider error object of any shape, with a `message` entry, reaches the browser as an error envelope carrying that message |
| AjaxHandlers.ZeroTextPassesClientGuardOnly | assets/js/editor-script.js:136-137 | a text that trims to "0" passes the editor's click guard, and when that trimmed text is posted (includes/class-ajax-handlers.php:38-41, with a sanitizer that keeps "0") the endpoint replies with the no-text error and makes no call |
| AjaxHandlers.ReleasesShareGuards | wp-content-helper.php:1048-1126 | the inline endpoints run the same guards in the same order and make the same number of calls with the same key; only the messages differ |
| UserMeta.Lookup | includes/class-ajax-handlers.php:32 | get_user_meta(..., true) gives "" for a key never written |
| UserMeta.Store.Update | includes/class-user-settings.php:130 | update_user_meta sets the one entry and leaves every other entry as it was |
| UserSettings.MaskApiKey | includes/class-user-settings.php:169-180 | an empty or "0" key masks to ""; otherwise the mask has the key's length; a key of at most 8 characters becomes all '*'; a longer key keeps its first and last four characters with '*' in between |
| UserSettings.MaskRevealsAtMostEight | includes/class-user-settings.php:174-179 | the mask shows no character of a key of at most 8 characters, and exactly 8 characters of a longer key |
| UserSettings.PreferredLanguage | includes/class-user-settings.php:78-81 | the language shown is never empty: "en" for an empty stored value, otherwise the stored value |
| UserSettings.SavedSettingsWritesOnlyPostedFields | includes/class-user-settings.php:123-136 | without the capability nothing changes; with it, each field is written (sanitized) exactly when posted, and every other entry is untouched |
| UserSettings.ProfileKeyIsNotTheAjaxKey | includes/class-user-settings.php:128-131 | saving the profile never changes the `aiwa_api_key` entry that the AJAX endpoints read |
| UserSettings.SaveApiKey | includes/class-user-settings.php:123-137 | returns false without the capability and null otherwise, and leaves the store as SavedSettings describes |
| SettingsPage.SavedKeyWritesOneEntry | wp-content-helper.php:508-510 | a save writes only the current user's `aiwa_api_key`, and only when the field was posted, to the sanitized value |
| SettingsPage.SavedKeyReachesEndpoints | wp-content-helper.php:509 | after a non-empty key is saved, an AJAX request with text makes exactly one call, with that key |
| SettingsPage.Save | wp-content-helper.php:504-513 | a bad nonce changes nothing; otherwise the store is written as SavedKey says and the response redirects to `saved=1` |
| EditorScript.Trim | assets/js/editor-script.js:27 | trim() gives a slice of its input with only spaces dropped at both ends, and the result neither starts nor ends with a space |
| EditorScript.TrimIdempotent | assets/js/editor-script.js:27 | trimming twice is trimming once |
| EditorScript.TrimOfSpaces | assets/js/editor-script.js:136-137 | text made only of spaces trims to "" and so counts as no text |
| EditorScript.TrimKeepsInnerText | assets/js/editor-script.js:27 | every non-space character survives trimming in place |
| EditorScript.TrimEmptyIffSpaces | assets/js/editor-script.js:136-137 | trim() gives "" exactly when every character is a space |
| EditorScript.Splice | assets/js/editor-script.js:48-52 | the buffer becomes the text before the range, then the new text, then the text after the range |
| EditorScript.SpliceUndo | assets/js/editor-script.js:48-52 | splicing the old characters back over the inserted text restores the buffer |
| EditorScript.Normalize | assets/js/editor-script.js:114-118 | the parser's newline and NUL handling of an attribute value leaves no CR and no NUL, and leaves text holding neither unchanged |
| EditorScript.DecodeAttribute | assets/js/editor-script.js:117 | reading an attribute back never yields a CR or a NUL |
| EditorScript.ApplyTwiceDuplicates | assets/js/editor-script.js:48-56 | a second replace with the same text over the collapsed range the first one leaves inserts the text again right after the first copy, so it appears twice |
| EditorScript.EscapeQuotes | assets/js/editor-script.js:114 | the escaped data-text holds no '"' |
| EditorScript.EscapeQuotesLosesEntities | assets/js/editor-script.js:114 | text containing `&quot;` passes through unescaped and is read back as '"' (see Findings) |
| EditorScript.EscapeQuotesKeepsPlainText | assets/js/editor-script.js:114-118 | text with no '&' is read back from the as-written attribute as itself, after the parser's CR/CRLF → LF and NUL → U+FFFD normalization |
| EditorScript.EscapeAttribute | assets/js/editor-script.js:114 | the corrected escape also leaves no '"' in the attribute |
| EditorScript.EscapedAmpersandsAreReferences | assets/js/editor-script.js:114 | every '&' in the corrected attribute starts `&amp;` or `&quot;` |
| EditorScript.EscapeAttributeRoundTrip | assets/js/editor-script.js:114-118 | the browser reads the corrected attribute back as the escaped text after the parser's CR/CRLF → LF and NUL → U+FFFD normalization, which is the text itself when it holds no CR and no NUL |
| EditorScript.ClickGuard | assets/js/editor-script.js:130-140 | no key gives the key error, whatever the text; with a key, the text is refused exactly when it is spaces only (including ""), and sent exactly when it holds a non-space character |
| EditorScript.ApplyInsertsServerText | assets/js/editor-script.js:113-119 | with the corrected escape, applying puts the returned text, normalized as the parser does, in place of the selection |
| EditorScript.Editor.constructor | assets/js/editor-script.js:15-16 | nothing is saved, the modal is closed and no request has been posted |
| EditorScript.Editor.SaveSelection | assets/js/editor-script.js:23-31 | with no range it returns "" and saves nothing; with a range it saves the range and its trimmed text, and returns that text; the inline copy (wp-content-helper.php, lines 797-805) is the same |
| EditorScript.Editor.ReplaceAtSelection | assets/js/editor-script.js:36-62 | with no saved range it returns false and changes nothing; otherwise it splices the new text over the range, collapses the range to just after it, keeps it saved and returns true; the inline copy (wp-content-helper.php, lines 807-828) is the same |
| EditorScript.Editor.OpenAssistant | assets/js/editor-script.js:67-75 | opens the modal; with no selection the saved range, saved text and fields are unchanged; with one, it saves the range and its trimmed text and fills the active tab only when that text is non-empty |
| EditorScript.Editor.Close | assets/js/editor-script.js:77-79 | hides the modal |
| EditorScript.Editor.SwitchTab | assets/js/editor-script.js:84-94 | activates the tab and copies the saved selection into it only when that selection is non-empty |
| EditorScript.Editor.AutoFill | assets/js/editor-script.js:99-108 | while the modal is open, a non-empty trimmed selection is saved and copied into the active tab; otherwise nothing changes |
| EditorScript.Editor.Submit | assets/js/editor-script.js:129-153 | no key or empty trimmed text posts nothing; otherwise the button is disabled, the old apply button is cleared and exactly one request with the trimmed text is posted |
| EditorScript.Editor.Complete | assets/js/editor-script.js:154-169 | the button is always enabled again; only a successful text reply on improve or rewrite adds an apply button, whose data-text is the reply with only its quotes escaped |
| EditorScript.Editor.ApplyClick | assets/js/editor-script.js:117-123 | with a saved range, replaces it with the decoded data-text, collapses the range to just after the inserted text and closes the modal; without one, text, range and modal are unchanged |
| Feedback.Mailer.Send | includes/class-feedback.php:221 | every mail is recorded, and the verdict is the mailer's |
| Feedback.TypeLabel | includes/class-feedback.php:170-178 | a known type maps to its fixed label; an unknown type passes through unchanged |
| Feedback.TypeLabelPassesThroughExactlyUnknown | includes/class-feedback.php:178 | the label equals the type exactly when the type is unknown |
| Feedback.RatingLabel | includes/class-feedback.php:181 | "Not rated" for an empty or "0" rating; otherwise intval(rating) stars, or an error when that is negative |
| Feedback.Subject | includes/class-feedback.php:185 | the subject is "[WP Content Helper] ", the type label, " from " and the name |
| Feedback.SubjectDeterminesInputs | includes/class-feedback.php:185 | with labels of one length, the subject determines the label and the name |
| Feedback.ReplyGoesToSender | includes/class-feedback.php:214-218 | exactly one header is a Reply-To, and it names the sender's address |
| Feedback.AdminBodyCarriesMessage | includes/class-feedback.php:200-203 | the feedback mail has the rating line and, after "Message:", the message verbatim |
| Feedback.ConfirmationRatingLine | includes/class-feedback.php:226-236 | the confirmation has a "Rating: " line exactly when the rating is non-empty |
| Feedback.ConfirmationOnlyAfterDelivery | includes/class-feedback.php:221-244 | the first mail goes to the authors; a second, to the sender, exists exactly when the first was accepted |
| Feedback.SubmitFeedback | includes/class-feedback.php:146-253 | bad nonce or a missing required field sends no mail (the latter redirects with error=1); a negative rating fails before any mail; otherwise the mails are the deliveries and the redirect is submitted=1 or error=2 by the first verdict |

## Left out

- The HTTP call itself, the request URL with the key and the 30-second timeout. The reply is an input.
- JSON parsing, and the key order of PHP arrays. json_decode is an arbitrary partial function from text to values, and arrays are maps.
- Temperatures are real numbers, not IEEE floats.
- GeminiApi.ExtractJson: PCRE's backtracking limit is not modelled. A subject so long that preg_match gives up is treated like any other.
- Php.ReadField: PHP 7 reads a string with a non-numeric offset as its first character (with a warning). The model follows PHP 8, where that read throws.
- UserSettings.MaskApiKey: counts characters where PHP's strlen and substr count bytes. The two agree for the ASCII keys Gemini issues.
- UserMeta.Lookup: stored meta values are strings. Serialized arrays in user meta are not modelled.
- The nonce checks, the capability check and the current user are inputs. `admin_url` is a prefix passed in. Alerts, `window.open` and console output are not modelled.
- EditorScript.Editor.ApplyClick: reads data-text as a plain string. jQuery's `.data()` also turns "true", "false", "null", numbers and JSON-looking text into other values. Such a reply would be inserted as their string form, for example "[object Object]".
- EditorScript.Editor.ApplyClick: DecodeAttribute decodes only the references &quot; and &amp;. The browser also decodes every other named and numeric reference (`&lt;`, `&#34;`, `&nbsp;`, and legacy names without ';'). A reply holding such a reference, written into data-text by the as-written escape, is therefore inserted decoded by the browser but still encoded in the model. The corrected escape writes no other reference, so EscapeAttributeRoundTrip and ApplyInsertsServerText are not affected.
- EditorScript.Editor.Complete: a successful reply whose data is not a string adds no apply button. The script's TypeError there, and its effect on the complete callback, are not modelled.
- EditorScript.Editor.SaveSelection: the saved Range is the live Range object of the window's selection. A later change to the selection can move it. The model copies the range when it is saved, so this aliasing is not captured.
- The DOM node structure: a Range is an interval over one flat text buffer.
- The HTML of the result areas, including where the raw completion is inserted as HTML.
- The inline click handlers bind `.click` without `.off`, so handlers can pile up. The inline click handlers are not part of this model. Only saveSelection and replaceAtSelection of the inline script are.
- The tone select, the modal markup and the editor sidebar component (`assets/js/editor-sidebar.js`) are outside the model. So are `includes/class-settings.php` (whose save matches the inline one), `includes/class-editor-button.php` and `includes/class-gutenberg-integration.php`.
- The admin notice for a missing key and the profile-page language list are rendering only.
- Feedback.RatingLabel: PHP's memory limit is not modelled. A posted rating such as "1000000000" makes str_repeat exhaust memory, and PHP ends with a fatal error before any mail is sent. The model produces the stars and goes on to send mail. The form offers only 1 to 5, but the handler accepts any posted value.
- Feedback: `sanitize_email`, `intval`, the site details and `current_time` are inputs. The sender's roles are joined with ", ".

## Findings

| source | as written | input that shows it | evidently intended | confidence | as-written member | corrected member |
|---|---|---|---|---|---|---|
| assets/js/editor-script.js:114 | the apply button's `data-text` escapes only `"`, as `&quot;`, and the browser decodes every character reference in the attribute | a completion containing the characters `&quot;` (or `&amp;`) is inserted as `"` (or `&`) | escape `&` first, then `"`, so that the attribute reads back as the completion itself | not executed | EditorScript.EscapeQuotesLosesEntities | EditorScript.EscapeAttributeRoundTrip |

The inline release builds the same attribute the same way (`wp-content-helper.php:998`).
EditorScript.Editor.Complete stores the as-written escape, as the script does, so the apply
button is sure to insert the completion as the parser normalizes it when it holds no `&`
(EscapeQuotesKeepsPlainText). EscapeAttribute is the corrected escape, and ApplyInsertsServerText
states what the apply button does with it: it inserts the returned text, up to the parser's
newline and NUL normalization, whatever characters it holds.
