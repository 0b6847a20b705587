/** The system and user messages the three content operations send to the
    language model (main.py:125-151, main.py:197-201, main.py:214-230,
    main.py:241-253).  Only the selection and concatenation of the fixed
    texts matters; the texts themselves are constants. */
module Prompts {
  import opened Wrappers

  /** The content kinds a generate request may ask for. */
  datatype ContentType = Blog | Product | Email | Social

  /** The base system prompt of each content kind. */
  function SystemPrompt(kind: ContentType): string {
    match kind
    case Blog =>
      "You are an expert blog writer and SEO specialist. "
      + "Write engaging, well-structured blog content with proper headings (using Markdown), "
      + "subheadings, bullet points, and a compelling introduction and conclusion. "
      + "Optimize for readability and SEO. Include a meta description suggestion at the end."
    case Product =>
      "You are a world-class copywriter specializing in product descriptions. "
      + "Write compelling, benefit-driven product descriptions that convert. "
      + "Use power words, highlight key features and benefits, include a call-to-action. "
      + "Format with Markdown for readability."
    case Email =>
      "You are an email marketing expert with high conversion rates. "
      + "Write professional, engaging emails with a clear subject line suggestion, "
      + "compelling body, and strong call-to-action. "
      + "Format with Markdown. Include subject line at the top."
    case Social =>
      "You are a social media content strategist. "
      + "Create engaging social media posts optimized for engagement. "
      + "Include relevant hashtag suggestions, emoji usage where appropriate, "
      + "and format for maximum impact. Provide variations for different platforms "
      + "(Twitter/X, LinkedIn, Instagram) in Markdown format."
  }

  /** An optional field that is set, non-empty and not its default value:
      the truth test and comparison the handler applies. */
  predicate Overrides(field: Option<string>, default: string) {
    field.Some? && field.value != "" && field.value != default
  }

  const DefaultTone: string := "professional"
  const DefaultLanguage: string := "en"

  function ToneClause(tone: string): string {
    "\n\nUse a " + tone + " tone throughout."
  }

  function LanguageClause(language: string): string {
    "\n\nWrite the content in " + language + "."
  }

  /** A base prompt followed by the tone clause if the tone overrides the
      default, then by the language clause if the language overrides the
      default (main.py:198-201). */
  function WithClauses(base: string, tone: Option<string>, language: Option<string>): (s: string)
    // the base prompt comes first
    ensures base <= s
    // the tone clause, when present, follows the base prompt directly
    ensures Overrides(tone, DefaultTone) ==>
              |base| + |ToneClause(tone.value)| <= |s|
              && s[|base|..|base| + |ToneClause(tone.value)|] == ToneClause(tone.value)
    // the language clause, when present, ends the prompt
    ensures Overrides(language, DefaultLanguage) ==>
              |LanguageClause(language.value)| <= |s|
              && s[|s| - |LanguageClause(language.value)|..] == LanguageClause(language.value)
    // and nothing else is added
    ensures |s| == |base|
                   + (if Overrides(tone, DefaultTone) then |ToneClause(tone.value)| else 0)
                   + (if Overrides(language, DefaultLanguage) then |LanguageClause(language.value)| else 0)
  {
    var withTone := if Overrides(tone, DefaultTone) then base + ToneClause(tone.value) else base;
    var s := if Overrides(language, DefaultLanguage) then withTone + LanguageClause(language.value) else withTone;
    assert withTone <= s;
    s
  }

  /** The system prompt of a generate request: the base prompt of its kind
      with the tone and language clauses it asks for. */
  function GenerateSystem(kind: ContentType, tone: Option<string>, language: Option<string>): (s: string)
    ensures SystemPrompt(kind) <= s
  {
    WithClauses(SystemPrompt(kind), tone, language)
  }

  /** Without an overriding tone or language the base prompt is sent as it is. */
  lemma WithClausesDefaults(base: string, tone: Option<string>, language: Option<string>)
    requires tone in {None, Some(""), Some(DefaultTone)}
    requires language in {None, Some(""), Some(DefaultLanguage)}
    ensures WithClauses(base, tone, language) == base
  {
    assert !Overrides(tone, DefaultTone) && !Overrides(language, DefaultLanguage);
  }

  /** With the same base and language, two different overriding tones give
      two different prompts: the tone is never lost. */
  lemma WithClausesDistinguishesTone(base: string, tone: string, otherTone: string, language: Option<string>)
    requires Overrides(Some(tone), DefaultTone) && Overrides(Some(otherTone), DefaultTone)
    requires tone != otherTone
    ensures WithClauses(base, Some(tone), language) != WithClauses(base, Some(otherTone), language)
  {
    var s, t := WithClauses(base, Some(tone), language), WithClauses(base, Some(otherTone), language);
    if |tone| == |otherTone| {
      var i :| 0 <= i < |tone| && tone[i] != otherTone[i];
      var lead := |"\n\nUse a "|;
      assert ToneClause(tone)[lead + i] == tone[i];
      assert ToneClause(otherTone)[lead + i] == otherTone[i];
      assert s[|base| + lead + i] == ToneClause(tone)[lead + i];
      assert t[|base| + lead + i] == ToneClause(otherTone)[lead + i];
    }
  }

  /** With the same base and tone, two different overriding languages give
      two different prompts: the language is never lost. */
  lemma WithClausesDistinguishesLanguage(base: string, tone: Option<string>, language: string, otherLanguage: string)
    requires Overrides(Some(language), DefaultLanguage) && Overrides(Some(otherLanguage), DefaultLanguage)
    requires language != otherLanguage
    ensures WithClauses(base, tone, Some(language)) != WithClauses(base, tone, Some(otherLanguage))
  {
    var s, t := WithClauses(base, tone, Some(language)), WithClauses(base, tone, Some(otherLanguage));
    if |language| == |otherLanguage| {
      var i :| 0 <= i < |language| && language[i] != otherLanguage[i];
      var lead := |"\n\nWrite the content in "|;
      var at := |s| - |LanguageClause(language)| + lead + i;
      assert LanguageClause(language)[lead + i] == language[i];
      assert LanguageClause(otherLanguage)[lead + i] == otherLanguage[i];
      assert s[at] == LanguageClause(language)[lead + i];
      assert t[at] == LanguageClause(otherLanguage)[lead + i];
    }
  }

  /** The instruction of each rewrite style. */
  const StyleInstructions: map<string, string> := map[
    "improved" := "Improve the clarity, flow, and impact while keeping the original meaning.",
    "formal" := "Rewrite in a formal, professional tone.",
    "casual" := "Rewrite in a casual, conversational tone.",
    "concise" := "Make it significantly more concise while keeping key points.",
    "expanded" := "Expand with more detail, examples, and depth."
  ]

  const DefaultStyle: string := "improved"

  /** The instruction for a requested style: an absent or empty style means
      "improved", and an unknown style silently falls back to it. */
  function StyleInstruction(style: Option<string>): (instruction: string)
    ensures instruction in StyleInstructions.Values
    // a known style selects its own instruction
    ensures style.Some? && style.value in StyleInstructions ==> instruction == StyleInstructions[style.value]
    // the "improved" instruction is used exactly for that style and for every style without one
    ensures (instruction == StyleInstructions[DefaultStyle])
            <==> (style.None? || style.value !in StyleInstructions || style.value == DefaultStyle)
  {
    var key := if style.None? || style.value == "" then DefaultStyle else style.value;
    if key in StyleInstructions then StyleInstructions[key] else StyleInstructions[DefaultStyle]
  }

  const EditorPreamble: string := "You are an expert editor and writing coach. "
  const EditorClosing: string :=
    "Return the rewritten text in Markdown format. "
    + "After the rewrite, add a brief '---\\n**Changes made:**' section listing key improvements."

  /** The system prompt of a rewrite request. */
  function RewriteSystem(style: Option<string>): (s: string)
    ensures EditorPreamble <= s
    ensures |s| == |EditorPreamble| + |StyleInstruction(style)| + 1 + |EditorClosing|
    ensures s[|EditorPreamble|..|EditorPreamble| + |StyleInstruction(style)|] == StyleInstruction(style)
    ensures s[|s| - |EditorClosing| - 1..] == " " + EditorClosing
  {
    var head := EditorPreamble + StyleInstruction(style);
    var tail := " " + EditorClosing;
    assert (head + tail)[..|head|] == head;
    assert (head + tail)[|head|..] == tail;
    head + tail
  }

  /** Two rewrite prompts coincide exactly when their styles select the same
      instruction. */
  lemma RewriteSystemSameInstruction(style: Option<string>, other: Option<string>)
    ensures RewriteSystem(style) == RewriteSystem(other) <==> StyleInstruction(style) == StyleInstruction(other)
  {
    var s, t := RewriteSystem(style), RewriteSystem(other);
    if s == t {
      assert |StyleInstruction(style)| == |StyleInstruction(other)|;
    }
  }

  const RewriteRequestPreamble: string := "Please rewrite the following text:\n\n"

  /** The user message of a rewrite request: the text, after a fixed request line. */
  function RewriteUser(text: string): (user: string)
    ensures RewriteRequestPreamble <= user && user[|RewriteRequestPreamble|..] == text
  {
    RewriteRequestPreamble + text
  }

  const TranslatorSystem: string :=
    "You are a professional translator fluent in all major languages. "
    + "Provide accurate, natural-sounding translations that preserve the original tone and meaning. "
    + "If the source language is Chinese, translate to English. "
    + "If the source language is English, translate to Chinese. "
    + "For other language pairs, follow the user's instructions. "
    + "Format the output in Markdown. After the translation, add a brief note about any "
    + "cultural or contextual adaptations you made."

  /** How a formatted string shows an optional field: a missing value reads "None". */
  function Show(field: Option<string>): string {
    if field.None? then "None" else field.value
  }

  /** The line put before the text when the source language is given. */
  function TranslateHeading(sourceLang: Option<string>, targetLang: Option<string>): string {
    "Translate from " + Show(sourceLang) + " to " + Show(targetLang) + ":\n\n"
  }

  /** The user message of a translate request: the raw text when the source
      language is "auto", and otherwise the text after a line naming both
      languages. */
  function TranslateUser(text: string, sourceLang: Option<string>, targetLang: Option<string>): (user: string)
    // the raw text is sent exactly when the source language is "auto"
    ensures user == text <==> sourceLang == Some("auto")
    // the text always ends the message
    ensures |text| <= |user| && user[|user| - |text|..] == text
    // otherwise the heading names the two languages
    ensures sourceLang != Some("auto") ==> TranslateHeading(sourceLang, targetLang) <= user
    // and nothing lies between the heading and the text
    ensures sourceLang != Some("auto") ==> |user| == |TranslateHeading(sourceLang, targetLang)| + |text|
  {
    if sourceLang != Some("auto") then
      var user := TranslateHeading(sourceLang, targetLang) + text;
      assert user[|user| - |text|..] == text;
      user
    else text
  }
}
