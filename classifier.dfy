/**
 * The keyword classifier `mock_llm` (a stand-in for a language model), the
 * quick-template picker built on it, the text-to-speech language choice and
 * the fixed transcript of the mocked speech-to-text path.
 */
module Classifier {
  import opened Options
  import opened Text

  /** What `mock_llm` returns: a summary line, a risk label and a draft letter. */
  datatype Analysis = Analysis(summary: string, risk: string, draft: string)

  const EvictionKeywords: seq<string> := ["evict", "notice", "नोटीस"]
  const DepositKeywords: seq<string> := ["deposit", "refund", "डिपॉझिट"]

  /** The opening lines of each draft, up to and including its subject line. */
  const EvictionHeading: string := "To,\nThe Landlord,\nSubject: Reply to eviction notice"
  const DepositHeading: string := "To,\nThe Landlord,\nSubject: Request for refund of security deposit"
  const GeneralHeading: string := "To,\nConcerned,\nSubject: Request for clarification"

  const EvictionDraft: string :=
    EvictionHeading + "\n\nDear Sir/Madam,\n"
    + "I received your eviction notice dated [DATE]. Kindly clarify the grounds and provide supporting documents.\n"
    + "Regards,\n[Your name]"
  const DepositDraft: string :=
    DepositHeading + "\n\nDear Sir/Madam,\n"
    + "The security deposit is refundable as per the agreement. I request prompt processing.\n"
    + "Regards,\n[Your name]"
  const GeneralDraft: string :=
    GeneralHeading + "\n\nDear Sir/Madam,\n"
    + "Please share the necessary details and timelines so I can proceed.\n"
    + "Regards,\n[Your name]"

  const EvictionReply: Analysis := Analysis("Eviction-related document detected.", "Medium", EvictionDraft)
  const DepositRefund: Analysis := Analysis("Deposit refund issue detected.", "Low", DepositDraft)
  const GeneralClarification: Analysis := Analysis("General legal document detected.", "Low", GeneralDraft)

  /** The three answers `mock_llm` can give. */
  predicate IsCannedAnswer(a: Analysis) {
    a == EvictionReply || a == DepositRefund || a == GeneralClarification
  }

  /** `any(k in t for k in keywords)`: false for no keywords, true as soon as one keyword occurs. */
  predicate AnyKeyword(t: string, keywords: seq<string>)
    ensures keywords == [] ==> !AnyKeyword(t, keywords)
    ensures forall k :: 0 <= k < |keywords| && Contains(t, keywords[k]) ==> AnyKeyword(t, keywords)
  {
    exists k :: 0 <= k < |keywords| && Contains(t, keywords[k])
  }

  /** The text `mock_llm` inspects: `(text or "").lower()`. */
  function Normalize(text: Option<string>): (t: string)
    ensures text.None? ==> t == []
    ensures text.Some? ==> t == Lower(text.value)
  {
    Lower(text.GetOr(""))
  }

  /** The eviction rule: the normalised text holds one of the eviction keywords. */
  predicate MentionsEviction(t: string) {
    AnyKeyword(t, EvictionKeywords)
  }

  /** The deposit rule: the normalised text holds one of the deposit keywords. */
  predicate MentionsDeposit(t: string) {
    AnyKeyword(t, DepositKeywords)
  }

  /** `mock_llm(text)`, with `None` as `Option.None`. */
  function MockLlm(text: Option<string>): (a: Analysis)
    ensures IsCannedAnswer(a)
  {
    var t := Normalize(text);
    if MentionsEviction(t) then EvictionReply
    else if MentionsDeposit(t) then DepositRefund
    else GeneralClarification
  }

  lemma EvictionKeywordsSpelledOut(t: string)
    ensures MentionsEviction(t) <==> Contains(t, "evict") || Contains(t, "notice") || Contains(t, "नोटीस")
  {
    assert EvictionKeywords[0] == "evict" && EvictionKeywords[1] == "notice" && EvictionKeywords[2] == "नोटीस";
  }

  lemma DepositKeywordsSpelledOut(t: string)
    ensures MentionsDeposit(t) <==> Contains(t, "deposit") || Contains(t, "refund") || Contains(t, "डिपॉझिट")
  {
    assert DepositKeywords[0] == "deposit" && DepositKeywords[1] == "refund" && DepositKeywords[2] == "डिपॉझिट";
  }

  /**
   * Any eviction keyword in the lower-cased text gives the eviction reply with
   * risk "Medium", whatever else the text holds (deposit words included).
   */
  lemma EvictionWins(text: string)
    requires Contains(Lower(text), "evict") || Contains(Lower(text), "notice") || Contains(Lower(text), "नोटीस")
    ensures MockLlm(Some(text)) == EvictionReply
    ensures MockLlm(Some(text)).risk == "Medium"
    ensures MockLlm(Some(text)).summary == "Eviction-related document detected."
    ensures EvictionHeading <= MockLlm(Some(text)).draft
  {
    EvictionKeywordsSpelledOut(Lower(text));
  }

  /** Without an eviction keyword, a deposit keyword gives the deposit refund request with risk "Low". */
  lemma DepositWhenNoEviction(text: string)
    requires !Contains(Lower(text), "evict") && !Contains(Lower(text), "notice") && !Contains(Lower(text), "नोटीस")
    requires Contains(Lower(text), "deposit") || Contains(Lower(text), "refund") || Contains(Lower(text), "डिपॉझिट")
    ensures MockLlm(Some(text)) == DepositRefund
    ensures MockLlm(Some(text)).risk == "Low"
    ensures DepositHeading <= MockLlm(Some(text)).draft
  {
    EvictionKeywordsSpelledOut(Lower(text));
    DepositKeywordsSpelledOut(Lower(text));
  }

  /** Text with no keyword of either set gets the general clarification letter with risk "Low". */
  lemma GeneralOtherwise(text: string)
    requires !Contains(Lower(text), "evict") && !Contains(Lower(text), "notice") && !Contains(Lower(text), "नोटीस")
    requires !Contains(Lower(text), "deposit") && !Contains(Lower(text), "refund") && !Contains(Lower(text), "डिपॉझिट")
    ensures MockLlm(Some(text)) == GeneralClarification
    ensures MockLlm(Some(text)).risk == "Low"
    ensures GeneralHeading <= MockLlm(Some(text)).draft
  {
    EvictionKeywordsSpelledOut(Lower(text));
    DepositKeywordsSpelledOut(Lower(text));
  }

  /** `None` and the empty string both get the general letter. */
  lemma NoTextIsGeneral()
    ensures MockLlm(None) == GeneralClarification
    ensures MockLlm(Some("")) == GeneralClarification
  {
    assert Normalize(None) == [] && Normalize(Some("")) == [];
    EvictionKeywordsSpelledOut([]);
    DepositKeywordsSpelledOut([]);
  }

  /**
   * The classification reads the text only through its lower case: two texts
   * that agree letter by letter up to ASCII case get the same answer.
   */
  lemma CaseInsensitive(a: string, b: string)
    requires |a| == |b|
    requires forall i :: 0 <= i < |a| ==> ToLower(a[i]) == ToLower(b[i])
    ensures MockLlm(Some(a)) == MockLlm(Some(b))
  {
    assert Lower(a) == Lower(b);
  }

  /** A keyword written in any ASCII case inside the original text still fires its rule. */
  lemma KeywordInAnyCase(text: string, word: string)
    requires Contains(text, word)
    ensures Lower(word) in EvictionKeywords ==> MockLlm(Some(text)) == EvictionReply
    ensures Lower(word) in DepositKeywords && !MentionsEviction(Lower(text)) ==> MockLlm(Some(text)) == DepositRefund
  {
    LowerKeepsContains(text, word);
  }

  /** The risk is "Medium" exactly when the eviction rule fires, and the draft is one of three literals. */
  lemma RiskAndDraftShape(text: Option<string>)
    ensures MockLlm(text).risk == "Medium" <==> MentionsEviction(Normalize(text))
    ensures MockLlm(text).draft in {EvictionDraft, DepositDraft, GeneralDraft}
    ensures MockLlm(text).risk in {"Medium", "Low"}
  {
  }

  /** One row of a first-match-wins decision table. */
  datatype Rule = Rule(keywords: seq<string>, outcome: Analysis)

  /** The classifier as a table: eviction is tried before deposit. */
  const DecisionTable: seq<Rule> := [Rule(EvictionKeywords, EvictionReply), Rule(DepositKeywords, DepositRefund)]

  /** The outcome of the first rule whose keywords occur in `t`, or `fallback` when none does. */
  function FirstMatch(rules: seq<Rule>, t: string, fallback: Analysis): (a: Analysis)
    ensures a == fallback || exists i :: 0 <= i < |rules| && a == rules[i].outcome && AnyKeyword(t, rules[i].keywords)
    ensures (forall i :: 0 <= i < |rules| ==> !AnyKeyword(t, rules[i].keywords)) ==> a == fallback
    ensures forall i ::
              (0 <= i < |rules| && AnyKeyword(t, rules[i].keywords)
               && forall j :: 0 <= j < i ==> !AnyKeyword(t, rules[j].keywords)) ==> a == rules[i].outcome
  {
    if rules == [] then fallback
    else if AnyKeyword(t, rules[0].keywords) then rules[0].outcome
    else
      assert forall i :: 1 <= i < |rules| ==> rules[i] == rules[1..][i - 1];
      FirstMatch(rules[1..], t, fallback)
  }

  /** `mock_llm` is the decision table evaluated first-match-wins, with the general letter as fallback. */
  lemma MockLlmIsDecisionTable(text: Option<string>)
    ensures MockLlm(text) == FirstMatch(DecisionTable, Normalize(text), GeneralClarification)
  {
    var t := Normalize(text);
    assert DecisionTable[1..] == [Rule(DepositKeywords, DepositRefund)];
    assert DecisionTable[1..][1..] == [];
  }

  /** When every eviction keyword has a character the text avoids in either case, the eviction rule stays silent. */
  lemma EvictionRuleSilent(text: string, forbidden: string, e: nat, n: nat, d: nat)
    requires Avoids(text, forbidden)
    requires e < 5 && n < 6 && d < 5
    requires ForbiddenAnyCase("evict"[e], forbidden) && ForbiddenAnyCase("notice"[n], forbidden)
    requires ForbiddenAnyCase("नोटीस"[d], forbidden)
    ensures !Contains(Lower(text), "evict") && !Contains(Lower(text), "notice") && !Contains(Lower(text), "नोटीस")
  {
    LacksInLower(text, forbidden, "evict", e);
    LacksInLower(text, forbidden, "notice", n);
    LacksInLower(text, forbidden, "नोटीस", d);
  }

  /** When every deposit keyword has a character the text avoids in either case, the deposit rule stays silent. */
  lemma DepositRuleSilent(text: string, forbidden: string, p: nat, r: nat, d: nat)
    requires Avoids(text, forbidden)
    requires p < 7 && r < 6 && d < 7
    requires ForbiddenAnyCase("deposit"[p], forbidden) && ForbiddenAnyCase("refund"[r], forbidden)
    requires ForbiddenAnyCase("डिपॉझिट"[d], forbidden)
    ensures !Contains(Lower(text), "deposit") && !Contains(Lower(text), "refund") && !Contains(Lower(text), "डिपॉझिट")
  {
    LacksInLower(text, forbidden, "deposit", p);
    LacksInLower(text, forbidden, "refund", r);
    LacksInLower(text, forbidden, "डिपॉझिट", d);
  }

  /** A text avoiding a character of each of the six keywords, in either case, gets the general letter. */
  lemma GeneralWhenAvoiding(text: string, forbidden: string, e: nat, n: nat, d: nat, p: nat, r: nat, q: nat)
    requires Avoids(text, forbidden)
    requires e < 5 && n < 6 && d < 5 && p < 7 && r < 6 && q < 7
    requires ForbiddenAnyCase("evict"[e], forbidden) && ForbiddenAnyCase("notice"[n], forbidden)
    requires ForbiddenAnyCase("नोटीस"[d], forbidden)
    requires ForbiddenAnyCase("deposit"[p], forbidden) && ForbiddenAnyCase("refund"[r], forbidden)
    requires ForbiddenAnyCase("डिपॉझिट"[q], forbidden)
    ensures MockLlm(Some(text)) == GeneralClarification
  {
    EvictionRuleSilent(text, forbidden, e, n, d);
    DepositRuleSilent(text, forbidden, p, r, q);
    GeneralOtherwise(text);
  }

  /** A text holding `word` at `i` and avoiding a character of each eviction keyword gets the deposit letter. */
  lemma DepositWhenAvoiding(text: string, forbidden: string, word: string, i: int, e: nat, n: nat, d: nat)
    requires word in DepositKeywords && OccursAt(text, word, i)
    requires Avoids(text, forbidden)
    requires e < 5 && n < 6 && d < 5
    requires ForbiddenAnyCase("evict"[e], forbidden) && ForbiddenAnyCase("notice"[n], forbidden)
    requires ForbiddenAnyCase("नोटीस"[d], forbidden)
    ensures MockLlm(Some(text)) == DepositRefund
  {
    EvictionRuleSilent(text, forbidden, e, n, d);
    assert Lower(word) == word;
    LowerKeepsOccurrence(text, word, i);
    DepositWhenNoEviction(text);
  }

  /** "This is an eviction notice dated 1st Jan" gets the eviction reply. */
  lemma EvictionScenario(s: string)
    requires s == "This is an eviction notice dated 1st Jan"
    ensures MockLlm(Some(s)) == EvictionReply
  {
    assert s[11] == 'e' && s[12] == 'v' && s[13] == 'i' && s[14] == 'c' && s[15] == 't';
    assert s[11..16] == "evict";
    assert Lower("evict") == "evict";
    LowerKeepsOccurrence(s, "evict", 11);
    EvictionWins(s);
  }

  /**
   * The deposit scenario generalised to every text that holds "deposit" and
   * avoids the letters the scenario avoids (`v`, `c`, `न`, in either case).
   * Proving it apart keeps the scenario's literal out of the solver's context
   * while the keyword facts are derived.
   */
  lemma DepositScenarioGeneralised(text: string, i: int)
    requires OccursAt(text, "deposit", i)
    requires Avoids(text, "vVcCन")
    ensures MockLlm(Some(text)) == DepositRefund
  {
    DepositWhenAvoiding(text, "vVcCन", "deposit", i, 1, 4, 0);
  }

  /** "I want my deposit refund" gets the deposit refund request. */
  lemma DepositScenario(s: string)
    requires s == "I want my deposit refund"
    ensures MockLlm(Some(s)) == DepositRefund
  {
    assert s[10] == 'd' && s[11] == 'e' && s[12] == 'p' && s[13] == 'o' && s[14] == 's' && s[15] == 'i' && s[16] == 't';
    assert s[10..17] == "deposit";
    assert Avoids(s, "vVcCन");
    DepositScenarioGeneralised(s, 10);
  }

  /**
   * The general scenario generalised to every text that avoids the letters
   * the scenario avoids (`v`, `o`, `r` in either case, `न`, `ड`), proved apart
   * for the same reason as `DepositScenarioGeneralised`.
   */
  lemma GeneralScenarioGeneralised(text: string)
    requires Avoids(text, "vVoOrRनड")
    ensures MockLlm(Some(text)) == GeneralClarification
  {
    GeneralWhenAvoiding(text, "vVoOrRनड", 1, 1, 0, 3, 0, 0);
  }

  /** "Please explain clause 4" gets the general clarification letter. */
  lemma GeneralScenario(s: string)
    requires s == "Please explain clause 4"
    ensures MockLlm(Some(s)) == GeneralClarification
  {
    assert Avoids(s, "vVoOrRनड");
    GeneralScenarioGeneralised(s);
  }

  /** The fixed transcript the mocked speech-to-text path returns, whatever the audio. */
  const MockTranscript: string := "मला माझ्या भाडेकराराबाबत माहिती हवी आहे"

  /**
   * The transcript case generalised to every text that avoids the letters
   * the transcript avoids (`e` in either case, `न`, `प`), proved apart for the
   * same reason as `DepositScenarioGeneralised`.
   */
  lemma MockTranscriptGeneralised(text: string)
    requires Avoids(text, "eEनप")
    ensures MockLlm(Some(text)) == GeneralClarification
  {
    GeneralWhenAvoiding(text, "eEनप", 0, 5, 0, 1, 1, 2);
  }

  /** The mock transcript mentions neither eviction nor deposit, so it gets the general letter. */
  lemma MockTranscriptIsGeneral(s: string)
    requires s == MockTranscript
    ensures MockLlm(Some(s)) == GeneralClarification
  {
    assert Avoids(s, "eEनप");
    MockTranscriptGeneralised(s);
  }

  /** The characters whose presence selects the Marathi voice. */
  const MarathiMarkers: string := "अआइईउऊएऐओऔकखगघ"

  /** `any(ch in t for ch in chars)`. */
  predicate AnyCharIn(chars: string, t: string) {
    exists i :: 0 <= i < |chars| && Contains(t, [chars[i]])
  }

  /** Some character of `t` is one of `chars`. */
  lemma AnyCharInIsMembership(chars: string, t: string)
    ensures AnyCharIn(chars, t) <==> exists j :: 0 <= j < |t| && t[j] in chars
  {
    forall i | 0 <= i < |chars| ensures Contains(t, [chars[i]]) <==> chars[i] in t {
      ContainsChar(t, chars[i]);
    }
  }

  /** The voice in which the draft is read aloud, chosen from the extracted text (not from the draft). */
  function TtsLanguage(extracted: string): (lang: string)
    ensures lang == "mr" || lang == "en"
    ensures lang == "mr" <==> exists j :: 0 <= j < |extracted| && extracted[j] in MarathiMarkers
  {
    AnyCharInIsMembership(MarathiMarkers, extracted);
    if AnyCharIn(MarathiMarkers, extracted) then "mr" else "en"
  }

  /**
   * The marker set is not the whole Devanagari block: text made only of `म`
   * or only of the vowel sign `ा` selects the English voice for the draft.
   */
  lemma OtherDevanagariIsEnglish()
    ensures TtsLanguage("म") == "en"
    ensures TtsLanguage("ा") == "en"
    ensures TtsLanguage("मा") == "en"
  {
  }

  /** A single marker character, `क` say, selects the Marathi voice for the draft. */
  lemma MarkerIsMarathi(extracted: string, j: int)
    requires 0 <= j < |extracted| && extracted[j] == 'क'
    ensures TtsLanguage(extracted) == "mr"
  {
    assert MarathiMarkers[10] == 'क';
  }

  /** Extracted text in plain ASCII, such as an English OCR result, selects the English voice for the draft. */
  lemma AsciiIsEnglish(extracted: string)
    requires forall j :: 0 <= j < |extracted| ==> extracted[j] < '\U{80}'
    ensures TtsLanguage(extracted) == "en"
  {
    assert forall i :: 0 <= i < |MarathiMarkers| ==> MarathiMarkers[i] >= '\U{905}';
  }

  /** The options of the template select box that produce a template. */
  const TemplateOptions: set<string> := {"Eviction Reply", "Deposit Refund Request", "General"}

  /** The quick-template picker: the draft for a select-box option, or "" for any other option. */
  function TemplateDraft(option: string): (draft: string)
    ensures draft in {EvictionDraft, DepositDraft, GeneralDraft, ""}
    ensures draft != "" <==> option in TemplateOptions
  {
    ProbeWords();
    if option == "Eviction Reply" then MockLlm(Some("eviction")).draft
    else if option == "Deposit Refund Request" then MockLlm(Some("deposit")).draft
    else if option == "General" then MockLlm(Some("general")).draft
    else ""
  }

  /**
   * Each named option yields its own letter (the probe word "eviction" holds
   * "evict", "deposit" holds no eviction keyword, "general" holds no keyword),
   * and the template is shown exactly for the three named options.
   */
  lemma TemplateDispatch(option: string)
    ensures option == "Eviction Reply" ==> TemplateDraft(option) == EvictionDraft
    ensures option == "Deposit Refund Request" ==> TemplateDraft(option) == DepositDraft
    ensures option == "General" ==> TemplateDraft(option) == GeneralDraft
    ensures option !in TemplateOptions ==> TemplateDraft(option) == ""
    ensures TemplateDraft(option) != "" <==> option in TemplateOptions
  {
    ProbeWords();
  }

  /** What `mock_llm` makes of the three probe words the template picker feeds it. */
  lemma ProbeWords()
    ensures MockLlm(Some("eviction")) == EvictionReply
    ensures MockLlm(Some("deposit")) == DepositRefund
    ensures MockLlm(Some("general")) == GeneralClarification
  {
    ProbeEviction();
    ProbeDeposit();
    ProbeGeneral();
  }

  lemma ProbeEviction()
    ensures MockLlm(Some("eviction")) == EvictionReply
  {
    var t := "eviction";
    assert Lower("eviction") == t;
    assert OccursAt(t, "evict", 0);
    EvictionWins("eviction");
  }

  lemma ProbeDeposit()
    ensures MockLlm(Some("deposit")) == DepositRefund
  {
    var t := "deposit";
    assert Lower("deposit") == t;
    MissingCharNotContained(t, "evict", 1);
    MissingCharNotContained(t, "notice", 0);
    MissingCharNotContained(t, "नोटीस", 0);
    assert OccursAt(t, "deposit", 0);
    DepositWhenNoEviction("deposit");
  }

  lemma ProbeGeneral()
    ensures MockLlm(Some("general")) == GeneralClarification
  {
    var t := "general";
    assert Lower("general") == t;
    MissingCharNotContained(t, "evict", 1);
    MissingCharNotContained(t, "notice", 1);
    MissingCharNotContained(t, "नोटीस", 0);
    MissingCharNotContained(t, "deposit", 0);
    MissingCharNotContained(t, "refund", 2);
    MissingCharNotContained(t, "डिपॉझिट", 0);
    GeneralOtherwise("general");
  }
}
