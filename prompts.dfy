/**
 * The prompt templates sent to Gemini. Every prompt is a fixed instruction
 * text followed by the user's inputs, interpolated without any escaping.
 * AIWA_Prompts (the modular release) and the inline AIWA_Gemini_API of the
 * single-file release carry different wording; both are here.
 */
module Prompts {

  predicate EndsWith(s: string, suffix: string) {
    |suffix| <= |s| && s[|s| - |suffix|..] == suffix
  }

  predicate OccursAt(s: string, part: string, i: int) {
    0 <= i <= |s| - |part| && s[i..i + |part|] == part
  }

  ghost predicate Contains(s: string, part: string) {
    exists i :: OccursAt(s, part, i)
  }

  /** Where the middle piece of a three-piece concatenation sits. */
  lemma {:induction false} Pieces(a: string, b: string, c: string)
    ensures |a + b + c| == |a| + |b| + |c|
    ensures (a + b + c)[..|a|] == a
    ensures (a + b + c)[|a|..|a| + |b|] == b
    ensures (a + b + c)[|a| + |b|..] == c
  {
    var s := a + b + c;
    assert s[..|a|] == a;
    assert s[|a|..|a| + |b|] == b;
    assert s[|a| + |b|..] == c;
  }

  /** A text after a fixed frame a + b + c: the frame is its prefix, and b sits right after a. */
  lemma {:induction false} Framed(a: string, b: string, c: string, text: string)
    ensures var p := a + b + c + text;
      && EndsWith(p, c + text)
      && p[..|p| - |text|] == a + b + c
      && OccursAt(p, b, |a|)
  {
    var p := a + b + c + text;
    assert p == (a + b + c) + text;
    assert p == a + b + (c + text);
    Pieces(a, b, c + text);
  }

  // ---------------------------------------------------------------------
  // Modular release: AIWA_Prompts
  // ---------------------------------------------------------------------

  const ImproveInstructions: string :=
    "You are a writing assistant for English and Indian languages ONLY "
    + "(English, Hindi, Bengali, Tamil, Telugu, Marathi, Gujarati, "
    + "Kannada, Malayalam, Punjabi, Urdu).\n"
    + "\n"
    + "CRITICAL RULES:\n"
    + "1. Detect if the text is in English or any Indian language\n"
    + "2. Respond ONLY in the SAME language as the input\n"
    + "3. If text is English, respond in English only\n"
    + "4. If text is Hindi, respond in Hindi only\n"
    + "5. DO NOT use Spanish, French, German, or any European languages\n"
    + "6. Return ONLY the improved text, no explanations\n"
    + "\n"
    + "Improve this text for clarity and grammar:\n"
    + "\n"

  /** The JSON shape the grammar prompt asks the model to answer in. */
  const GrammarJsonTemplate: string :=
    "{" + LanguageKey + ": \"detected language\", " + ErrorsKey
    + ": [{\"type\": \"grammar\", \"original\": \"text\", \"suggestion\": \"fix\", \"explanation\": \"why\"}], "
    + ScoreKey + ": 85}"

  const LanguageKey: string := "\"language\""
  const ErrorsKey: string := "\"errors\""
  const ScoreKey: string := "\"score\""

  const GrammarRules: string :=
    "You are a grammar checker for English and Indian languages ONLY.\n"
    + "\n"
    + "STRICT RULES:\n"
    + "1. Only detect these languages: English, Hindi (हिंदी), "
    + "Bengali (বাংলা), Tamil (தமிழ்), Telugu (తెలుగు), Marathi (मराठी), "
    + "Gujarati (ગુજરાતી), Kannada (ಕನ್ನಡ), Malayalam (മലയാളം), "
    + "Punjabi (ਪੰਜਾਬੀ), Urdu (اردو)\n"
    + "2. Respond in the SAME language as the input text\n"
    + "3. DO NOT use Spanish, French, or any other language\n"
    + "4. Provide response in JSON format\n"
    + "\n"
    + "Check grammar and provide suggestions in JSON:\n"

  const GrammarTail: string := "\n\nText to check:\n"

  const GrammarInstructions: string :=
    GrammarRules + GrammarJsonTemplate + GrammarTail

  const RewriteHead: string :=
    "You are a content rewriter for English and Indian languages ONLY.\n"
    + "\n"
    + "CRITICAL RULES:\n"
    + "1. Only work with: English, Hindi, Bengali, Tamil, Telugu, "
    + "Marathi, Gujarati, Kannada, Malayalam, Punjabi, Urdu\n"
    + "2. Detect the language of the input text\n"
    + "3. Rewrite in the SAME language with "

  const RewriteMiddle: string :=
    " tone\n"
    + "4. DO NOT translate to Spanish, French, German, or any European language\n"
    + "5. If input is English, output must be English\n"
    + "6. If input is Hindi, output must be Hindi\n"
    + "7. Return ONLY the rewritten text\n"
    + "\n"
    + "Rewrite this text in "

  const RewriteTail: string := " tone:\n\n"

  /** AIWA_Prompts::improve_text: the instructions, a blank line, then the text verbatim. */
  function ImprovePrompt(text: string): (p: string)
    ensures EndsWith(p, "\n\n" + text)
    ensures p[..|p| - |text|] == ImproveInstructions
  {
    ImproveInstructions + text
  }

  /** AIWA_Prompts::check_grammar: the rules, the JSON template, then "Text to check:" and the text. */
  function GrammarPrompt(text: string): (p: string)
    ensures EndsWith(p, GrammarTail + text)
    ensures p[..|p| - |text|] == GrammarInstructions
    ensures OccursAt(p, GrammarJsonTemplate, |GrammarRules|)
  {
    Framed(GrammarRules, GrammarJsonTemplate, GrammarTail, text);
    GrammarInstructions + text
  }

  /**
   * A template with one value interpolated twice and a text at the end:
   * head, value, middle, value, tail, text, each copied unchanged.
   */
  function TwoSlotTemplate(head: string, value: string, middle: string, tail: string, text: string): (p: string)
    ensures |p| == |head| + |middle| + |tail| + 2 * |value| + |text|
    ensures p[..|head|] == head
    ensures OccursAt(p, value, |head|)
    ensures OccursAt(p, middle, |head| + |value|)
    ensures OccursAt(p, value, |head| + |value| + |middle|)
    ensures EndsWith(p, tail + text)
  {
    var first := head + value + middle;
    assert (first + value + tail + text)[|first|..|first| + |value|] == value;
    assert (first + value + tail + text)[..|first|] == first;
    first + value + tail + text
  }

  /** With the frame fixed and values of one length, a two-slot template determines the value and the text. */
  lemma TwoSlotDeterminesInputs(head: string, middle: string, tail: string,
                                value1: string, text1: string, value2: string, text2: string)
    requires |value1| == |value2|
    requires TwoSlotTemplate(head, value1, middle, tail, text1) == TwoSlotTemplate(head, value2, middle, tail, text2)
    ensures value1 == value2 && text1 == text2
  {
    var p := TwoSlotTemplate(head, value1, middle, tail, text1);
    assert value1 == p[|head|..|head| + |value1|] == value2;
    assert (tail + text1)[|tail|..] == text1;
    assert (tail + text2)[|tail|..] == text2;
  }

  /** AIWA_Prompts::rewrite_content: the tone is interpolated twice, the text once at the end. */
  function RewritePrompt(text: string, tone: string): (p: string)
    ensures |p| == |RewriteHead| + |RewriteMiddle| + |RewriteTail| + 2 * |tone| + |text|
    ensures OccursAt(p, tone, |RewriteHead|)
    ensures OccursAt(p, tone, |RewriteHead| + |tone| + |RewriteMiddle|)
    ensures EndsWith(p, RewriteTail + text)
  {
    TwoSlotTemplate(RewriteHead, tone, RewriteMiddle, RewriteTail, text)
  }

  /** AIWA_Prompts::get_supported_languages, in the order of the PHP array. */
  function SupportedLanguages(): (table: seq<(string, string)>)
    ensures |table| == 11
    ensures table[0] == ("en", "English")
    ensures forall i, j :: 0 <= i < j < |table| ==> table[i].0 != table[j].0
  {
    [ ("en", "English"),
      ("hi", "Hindi (हिंदी)"),
      ("bn", "Bengali (বাংলা)"),
      ("ta", "Tamil (தமிழ்)"),
      ("te", "Telugu (తెలుగు)"),
      ("mr", "Marathi (मराठी)"),
      ("gu", "Gujarati (ગુજરાતી)"),
      ("kn", "Kannada (ಕನ್ನಡ)"),
      ("ml", "Malayalam (മലയാളം)"),
      ("pa", "Punjabi (ਪੰਜਾਬੀ)"),
      ("ur", "Urdu (اردو)") ]
  }

  // ---------------------------------------------------------------------
  // Single-file release: prompts inlined in AIWA_Gemini_API
  // ---------------------------------------------------------------------

  const InlineImproveInstructions: string :=
    "Improve this text for better clarity, grammar, and flow. "
    + "Detect the language and respond in THE SAME LANGUAGE. "
    + "Return ONLY the improved text:\n\n"

  const InlineGrammarInstructions: string :=
    "Detect language and check grammar. Provide in JSON format in the DETECTED LANGUAGE:\n"
    + GrammarJsonTemplate + "\n\nText: "

  const InlineRewriteHead: string := "Detect language and rewrite in "

  const InlineRewriteTail: string := " tone IN THE SAME LANGUAGE:\n\n"

  function InlineImprovePrompt(text: string): (p: string)
    ensures EndsWith(p, "\n\n" + text)
    ensures p[..|p| - |text|] == InlineImproveInstructions
  {
    InlineImproveInstructions + text
  }

  function InlineGrammarPrompt(text: string): (p: string)
    ensures EndsWith(p, "Text: " + text)
    ensures p[..|p| - |text|] == InlineGrammarInstructions
  {
    InlineGrammarInstructions + text
  }

  function InlineRewritePrompt(text: string, tone: string): (p: string)
    ensures |p| == |InlineRewriteHead| + |InlineRewriteTail| + |tone| + |text|
    ensures p[|InlineRewriteHead|..|InlineRewriteHead| + |tone|] == tone
    ensures EndsWith(p, "\n\n" + text)
  {
    InlineRewriteHead + tone + InlineRewriteTail + text
  }

  // ---------------------------------------------------------------------
  // Properties
  // ---------------------------------------------------------------------

  /** The grammar template names the three result keys, each quoted as a JSON key. */
  lemma GrammarTemplateKeys()
    ensures GrammarJsonTemplate[0] == '{' && GrammarJsonTemplate[|GrammarJsonTemplate| - 1] == '}'
    ensures Contains(GrammarJsonTemplate, LanguageKey)
    ensures Contains(GrammarJsonTemplate, ErrorsKey)
    ensures Contains(GrammarJsonTemplate, ScoreKey)
  {
    var detected := ": \"detected language\", ";
    var errorList := ": [{\"type\": \"grammar\", \"original\": \"text\", \"suggestion\": \"fix\", \"explanation\": \"why\"}], ";
    var t := GrammarJsonTemplate;
    assert t == "{" + LanguageKey + detected + ErrorsKey + errorList + ScoreKey + ": 85}";
    Pieces("{", LanguageKey, detected + ErrorsKey + errorList + ScoreKey + ": 85}");
    assert OccursAt(t, LanguageKey, 1);
    var beforeErrors := "{" + LanguageKey + detected;
    Pieces(beforeErrors, ErrorsKey, errorList + ScoreKey + ": 85}");
    assert OccursAt(t, ErrorsKey, |beforeErrors|);
    var beforeScore := beforeErrors + ErrorsKey + errorList;
    Pieces(beforeScore, ScoreKey, ": 85}");
    assert OccursAt(t, ScoreKey, |beforeScore|);
  }

  /**
   * A prompt made of a fixed prefix and the text determines the text: two
   * texts give the same prompt only if they are equal.
   */
  lemma {:induction false} FixedPrefixDeterminesText(prefix: string, a: string, b: string)
    requires prefix + a == prefix + b
    ensures a == b
  {
    assert a == (prefix + a)[|prefix|..];
    assert b == (prefix + b)[|prefix|..];
  }

  /**
   * Each single-input prompt puts the text, unescaped, after a fixed
   * prefix, so the prompt determines the text: nothing of it is lost or
   * rewritten.
   */
  lemma ImprovePromptDeterminesText(a: string, b: string)
    requires ImprovePrompt(a) == ImprovePrompt(b)
    ensures a == b
  {
    FixedPrefixDeterminesText(ImproveInstructions, a, b);
  }

  lemma GrammarPromptDeterminesText(a: string, b: string)
    requires GrammarPrompt(a) == GrammarPrompt(b)
    ensures a == b
  {
    FixedPrefixDeterminesText(GrammarInstructions, a, b);
  }

  lemma InlineImprovePromptDeterminesText(a: string, b: string)
    requires InlineImprovePrompt(a) == InlineImprovePrompt(b)
    ensures a == b
  {
    FixedPrefixDeterminesText(InlineImproveInstructions, a, b);
  }

  lemma InlineGrammarPromptDeterminesText(a: string, b: string)
    requires InlineGrammarPrompt(a) == InlineGrammarPrompt(b)
    ensures a == b
  {
    FixedPrefixDeterminesText(InlineGrammarInstructions, a, b);
  }

  /**
   * A rewrite prompt determines the tone and the text once the tone's length
   * is known (the tone is not delimited, so only its length is needed).
   */
  lemma RewritePromptDeterminesInputs(a: string, toneA: string, b: string, toneB: string)
    requires |toneA| == |toneB|
    requires RewritePrompt(a, toneA) == RewritePrompt(b, toneB)
    ensures toneA == toneB && a == b
  {
    TwoSlotDeterminesInputs(RewriteHead, RewriteMiddle, RewriteTail, toneA, a, toneB, b);
  }

  lemma InlineRewritePromptDeterminesInputs(a: string, toneA: string, b: string, toneB: string)
    requires |toneA| == |toneB|
    requires InlineRewritePrompt(a, toneA) == InlineRewritePrompt(b, toneB)
    ensures toneA == toneB && a == b
  {
    var p := InlineRewritePrompt(a, toneA);
    assert toneA == p[|InlineRewriteHead|..|InlineRewriteHead| + |toneA|] == toneB;
    assert |a| == |b|;
    assert a == p[|p| - |a|..] == b;
  }
}
