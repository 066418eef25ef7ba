/**
 * The decoding tail of `ocr_space_image`, which turns the OCR service's
 * response into `{"error": ..., "text": ...}`, and the step of the
 * "Run OCR & Analyze" action that either shows the error or runs the
 * classifier on the extracted text.
 */
module Ocr {
  import opened Options
  import opened Text
  import opened Classifier

  /** One entry of the response's `ParsedResults` list. */
  datatype ParsedResult = ParsedResult(parsedText: string)

  /**
   * The fields of the decoded JSON response that the program reads. An absent
   * `IsErroredOnProcessing` reads as `false`: `dict.get` gives `None`, which is falsy.
   */
  datatype OcrResponse = OcrResponse(
    isErroredOnProcessing: bool,
    errorMessage: Option<string>,
    parsedResults: seq<ParsedResult>)

  /** The dictionary `ocr_space_image` returns. */
  datatype Extraction = Extraction(error: Option<string>, text: string)

  const DefaultOcrError: string := "OCR error"

  /**
   * An errored response yields its `ErrorMessage` (or "OCR error" when the
   * field is absent) and empty text; any other response yields no error and
   * the first parsed text with its surrounding whitespace cut off. The code
   * indexes `ParsedResults[0]` without a guard, so a successful response
   * must carry at least one parsed result.
   */
  function DecodeResponse(response: OcrResponse): (x: Extraction)
    requires !response.isErroredOnProcessing ==> |response.parsedResults| > 0
    ensures response.isErroredOnProcessing ==> x.error.Some? && x.text == []
    ensures response.isErroredOnProcessing && response.errorMessage.Some? ==> x.error == response.errorMessage
    ensures response.isErroredOnProcessing && response.errorMessage.None? ==> x.error == Some(DefaultOcrError)
    ensures !response.isErroredOnProcessing ==> x.error.None? && NoEdgeSpace(x.text)
    ensures !response.isErroredOnProcessing ==>
              exists i, j :: Trims(response.parsedResults[0].parsedText, x.text, i, j)
  {
    if response.isErroredOnProcessing then
      Extraction(Some(response.errorMessage.GetOr(DefaultOcrError)), "")
    else
      Extraction(None, Strip(response.parsedResults[0].parsedText))
  }

  /**
   * The extracted text is exactly Python's `strip()` of the first parsed
   * text: the two properties `DecodeResponse` promises pin it down.
   */
  lemma DecodedTextIsStripped(response: OcrResponse)
    requires !response.isErroredOnProcessing && |response.parsedResults| > 0
    ensures DecodeResponse(response).text == Strip(response.parsedResults[0].parsedText)
    ensures Strip(DecodeResponse(response).text) == DecodeResponse(response).text
  {
    var x := DecodeResponse(response);
    var i, j :| Trims(response.parsedResults[0].parsedText, x.text, i, j);
    StripUnique(response.parsedResults[0].parsedText, x.text, i, j);
    StripIdempotent(response.parsedResults[0].parsedText);
  }

  /** What the "Run OCR & Analyze" action shows for an extraction. */
  datatype Outcome =
    | ShowError(message: string)
    | ShowAnalysis(extracted: string, analysis: Analysis, ttsLanguage: string)

  /** Python truthiness of the `error` entry: `None` and `""` are both false. */
  predicate IsTruthy(error: Option<string>)
    ensures error == None ==> !IsTruthy(error)
    ensures error == Some("") ==> !IsTruthy(error)
    ensures error.Some? && |error.value| > 0 ==> IsTruthy(error)
  {
    error.Some? && error.value != ""
  }

  /**
   * A truthy error is shown and nothing else happens; otherwise the extracted
   * text is classified and the speech language is chosen from it.
   */
  function RunOcrAndAnalyze(x: Extraction): (o: Outcome)
    ensures o.ShowError? <==> IsTruthy(x.error)
    ensures o.ShowError? ==> o.message == x.error.value
    ensures o.ShowAnalysis? ==> o.extracted == x.text && IsCannedAnswer(o.analysis)
    ensures o.ShowAnalysis? ==> o.analysis == MockLlm(Some(x.text)) && o.ttsLanguage == TtsLanguage(x.text)
  {
    if IsTruthy(x.error) then ShowError(x.error.value)
    else ShowAnalysis(x.text, MockLlm(Some(x.text)), TtsLanguage(x.text))
  }

  /**
   * An errored response with a non-empty message, or with none, shows that
   * message (or "OCR error") and never reaches the classifier.
   */
  lemma ErrorStopsPipeline(response: OcrResponse)
    requires response.isErroredOnProcessing
    requires response.errorMessage != Some("")
    ensures RunOcrAndAnalyze(DecodeResponse(response)) == ShowError(response.errorMessage.GetOr(DefaultOcrError))
  {
  }

  /** A response errored with "bad image" shows "bad image", and its extraction has empty text. */
  lemma BadImageScenario(response: OcrResponse)
    requires response.isErroredOnProcessing && response.errorMessage == Some("bad image")
    ensures DecodeResponse(response) == Extraction(Some("bad image"), "")
    ensures RunOcrAndAnalyze(DecodeResponse(response)) == ShowError("bad image")
  {
  }

  /**
   * An errored response whose `ErrorMessage` is the empty string is not
   * treated as an error by the page: the empty text goes on to the
   * classifier and gets the general letter, with the English voice for the draft.
   */
  lemma EmptyErrorMessageFallsThrough(response: OcrResponse)
    requires response.isErroredOnProcessing && response.errorMessage == Some("")
    ensures RunOcrAndAnalyze(DecodeResponse(response)) == ShowAnalysis("", GeneralClarification, "en")
  {
    NoTextIsGeneral();
  }

  /**
   * A successful response is always classified, on its stripped first parsed
   * text, and the answer is the one the unstripped text would get.
   */
  lemma SuccessIsClassified(response: OcrResponse)
    requires !response.isErroredOnProcessing && |response.parsedResults| > 0
    ensures RunOcrAndAnalyze(DecodeResponse(response)).ShowAnalysis?
    ensures RunOcrAndAnalyze(DecodeResponse(response)).extracted == Strip(response.parsedResults[0].parsedText)
    ensures RunOcrAndAnalyze(DecodeResponse(response)).analysis == MockLlm(Some(response.parsedResults[0].parsedText))
  {
    DecodedTextIsStripped(response);
    StripKeepsClassification(response.parsedResults[0].parsedText);
  }

  /**
   * A successful response whose first parsed text is blank is not an error:
   * the page shows empty OCR output, the general letter and the English voice for the draft.
   */
  lemma BlankPageIsGeneral(response: OcrResponse)
    requires !response.isErroredOnProcessing && |response.parsedResults| > 0
    requires AllSpace(response.parsedResults[0].parsedText)
    ensures RunOcrAndAnalyze(DecodeResponse(response)) == ShowAnalysis("", GeneralClarification, "en")
  {
    NoTextIsGeneral();
  }

  /** No keyword holds a whitespace character. */
  lemma KeywordsHaveNoSpace()
    ensures forall k :: 0 <= k < |EvictionKeywords| ==> EvictionKeywords[k] != [] && NoSpace(EvictionKeywords[k])
    ensures forall k :: 0 <= k < |DepositKeywords| ==> DepositKeywords[k] != [] && NoSpace(DepositKeywords[k])
  {
    assert NoSpace("evict") && NoSpace("notice") && NoSpace("नोटीस");
    assert NoSpace("deposit") && NoSpace("refund") && NoSpace("डिपॉझिट");
  }

  /**
   * Cutting off surrounding whitespace never changes the classification:
   * no keyword holds whitespace, so every keyword occurrence lies inside
   * the stripped text.
   */
  lemma StripKeepsClassification(s: string)
    ensures MockLlm(Some(Strip(s))) == MockLlm(Some(s))
  {
    KeywordsHaveNoSpace();
    var i, j :| Trims(s, Strip(s), i, j);
    LowerKeepsTrims(s, Strip(s), i, j);
    forall k | 0 <= k < |EvictionKeywords|
      ensures Contains(Lower(Strip(s)), EvictionKeywords[k]) <==> Contains(Lower(s), EvictionKeywords[k])
    {
      ContainsInTrimmed(Lower(s), Lower(Strip(s)), i, j, EvictionKeywords[k]);
    }
    forall k | 0 <= k < |DepositKeywords|
      ensures Contains(Lower(Strip(s)), DepositKeywords[k]) <==> Contains(Lower(s), DepositKeywords[k])
    {
      ContainsInTrimmed(Lower(s), Lower(Strip(s)), i, j, DepositKeywords[k]);
    }
  }
}
