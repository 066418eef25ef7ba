# NyayAI decision layer in Dafny

NyayAI is a Streamlit prototype of a legal assistant for tenants. It reads a
photographed document through the OCR.Space service and classifies the text
with a keyword stand-in for a language model (`mock_llm`). That classifier
returns a summary, a risk label and a draft letter (to the landlord, or to
"Concerned" in the general case). The page
can also read the draft aloud, fake a speech-to-text transcript and produce
quick letter templates.

This project models the pure decisions behind those pages. It has four
modules.

- `Options` (`text.dfy`) holds the optional value used for Python's `None`.
- `Text` (`text.dfy`) holds the Python string primitives the code depends on:
  - `str.lower()` on ASCII letters;
  - `needle in haystack` as a substring test;
  - `str.strip()` with Python's exact set of whitespace code points.
- `Classifier` (`classifier.dfy`) holds four things:
  - `mock_llm`, with its three canned answers;
  - the first-match-wins decision table it implements;
  - the text-to-speech language choice;
  - the quick-template dispatch and the fixed mock transcript.
- `Ocr` (`ocr.dfy`) holds two steps:
  - the decoding tail of `ocr_space_image`, from the response fields to `{"error", "text"}`;
  - the "Run OCR & Analyze" step, which either shows the error or classifies the text and picks the voice.

Three behaviours of the code are worth knowing:

- After OCR, the draft is read aloud in a voice chosen from the extracted
  text. Only the 14 letters `अआइईउऊएऐओऔकखगघ` select the Marathi voice;
  other Devanagari text, such as `म`, selects the English voice for the draft
  (`OtherDevanagariIsEnglish`). The transcript and template paths always pass
  the Marathi voice.
- The page tests the truthiness of the error string. So an errored response
  whose `ErrorMessage` is `""` is not shown as an error: its empty text is
  classified as a general document (`EmptyErrorMessageFallsThrough`).
- A blank page yields `""` with no error (`BlankPageIsGeneral`).

## Model

| member | source | states |
|---|---|---|
| Classifier.MockLlm | NyayAI.py:142-181 | every input, `None` included, gets one of exactly three canned answers (eviction reply, deposit refund request, general clarification) |
| Classifier.Normalize | NyayAI.py:143 | `None` is treated as the empty text; any other text is classified through its lower case |
| Classifier.EvictionWins | NyayAI.py:144-156 | if the lower-cased text holds "evict", "notice" or "नोटीस", the answer is the eviction reply, with risk "Medium", the eviction summary and a draft opening with the eviction subject line, even when deposit words are present too |
| Classifier.DepositWhenNoEviction | NyayAI.py:157-169 | if no eviction keyword is present and "deposit", "refund" or "डिपॉझिट" is, the answer is the deposit refund request, with risk "Low" and the deposit subject line |
| Classifier.GeneralOtherwise | NyayAI.py:170-181 | if none of the six keywords is present, the answer is the general clarification letter with risk "Low" |
| Classifier.NoTextIsGeneral | NyayAI.py:143-181 | `None` and the empty string both get the general letter |
| Classifier.CaseInsensitive | NyayAI.py:143 | two texts that agree up to ASCII case get the same answer |
| Classifier.KeywordInAnyCase | NyayAI.py:143-157 | a keyword written in any ASCII case ("EVICT", "Refund") still fires its rule |
| Classifier.RiskAndDraftShape | NyayAI.py:144-181 | risk is "Medium" exactly when an eviction keyword occurs and "Low" otherwise; the draft is always one of the three fixed letters |
| Classifier.AnyKeyword | NyayAI.py:144 | `any(k in t for k in keywords)` is false for an empty keyword list and true as soon as one keyword occurs in `t` |
| Classifier.FirstMatch | NyayAI.py:144-181 | a first-match-wins rule table returns the outcome of the first rule whose keywords occur (no earlier rule matching), the fallback when no rule matches, and never anything else |
| Classifier.MockLlmIsDecisionTable | NyayAI.py:142-181 | `mock_llm` equals the table [eviction rule, deposit rule] evaluated first-match-wins, with the general letter as fallback |
| Classifier.GeneralWhenAvoiding | NyayAI.py:143-181 | a text that, in either case, lacks some character of each of the six keywords gets the general letter |
| Classifier.DepositWhenAvoiding | NyayAI.py:143-169 | a text holding a deposit keyword and lacking, in either case, some character of each eviction keyword gets the deposit letter |
| Classifier.EvictionScenario | NyayAI.py:144-156 | "This is an eviction notice dated 1st Jan" gets the eviction reply |
| Classifier.DepositScenario | NyayAI.py:157-169 | "I want my deposit refund" gets the deposit refund request |
| Classifier.GeneralScenario | NyayAI.py:170-181 | "Please explain clause 4" gets the general clarification letter |
| Classifier.MockTranscriptIsGeneral | NyayAI.py:269-273 | the fixed Marathi transcript of the mock speech-to-text path gets the general letter |
| Classifier.TtsLanguage | NyayAI.py:250 | the voice for reading the draft aloud is "mr" or "en", and it is "mr" exactly when some character of the extracted text is one of the 14 marker letters |
| Classifier.OtherDevanagariIsEnglish | NyayAI.py:250 | extracted Devanagari text without a marker letter ("म", "ा", "मा") selects the English voice for the draft |
| Classifier.MarkerIsMarathi | NyayAI.py:250 | one marker letter (`क`) anywhere in the extracted text selects the Marathi voice for the draft |
| Classifier.AsciiIsEnglish | NyayAI.py:250 | plain ASCII extracted text selects the English voice for the draft |
| Classifier.TemplateDraft | NyayAI.py:285-292 | the template is one of the three letters or ""; it is non-empty exactly for the three named options |
| Classifier.TemplateDispatch | NyayAI.py:284-295 | "Eviction Reply", "Deposit Refund Request" and "General" yield the eviction, deposit and general letters; every other option ("Select..." included) yields "", and the template is shown exactly for the three named options |
| Classifier.ProbeWords | NyayAI.py:286-290 | the probe words "eviction", "deposit" and "general" classify as eviction, deposit and general |
| Ocr.DecodeResponse | NyayAI.py:132-136 | an errored response gives its `ErrorMessage` (or "OCR error" when absent) and empty text; any other response gives no error and the first parsed text with whitespace-only margins cut off and no whitespace at either end |
| Ocr.DecodedTextIsStripped | NyayAI.py:135-136 | the decoded text of a successful response is exactly `strip()` of the first parsed text, and stripping it again changes nothing |
| Ocr.RunOcrAndAnalyze | NyayAI.py:232-250 | a truthy error is shown and stops the step; otherwise the extracted text is classified and the voice is chosen from it |
| Ocr.IsTruthy | NyayAI.py:234 | `if res["error"]:` is false for `None` and for `""`, and true for any non-empty message |
| Ocr.ErrorStopsPipeline | NyayAI.py:132-135 | an errored response with a non-empty message, or with none, shows that message (or "OCR error") and never reaches the classifier |
| Ocr.BadImageScenario | NyayAI.py:132-135 | a response errored with "bad image" decodes to that error with empty text and shows "bad image" |
| Ocr.EmptyErrorMessageFallsThrough | NyayAI.py:132-240 | an errored response with `ErrorMessage == ""` is not shown as an error: its empty text gets the general letter and the English voice for the draft |
| Ocr.SuccessIsClassified | NyayAI.py:135-240 | a successful response is always classified, on the stripped first parsed text, and gets the answer the unstripped text would get |
| Ocr.BlankPageIsGeneral | NyayAI.py:135-240 | a successful response with a blank first parsed text shows empty output, the general letter and the English voice for the draft |
| Ocr.StripKeepsClassification | NyayAI.py:136-144 | stripping whitespace never changes the classification, because no keyword holds whitespace |
| Ocr.KeywordsHaveNoSpace | NyayAI.py:144-157 | every keyword is non-empty and free of whitespace |
| Text.IsSpace | NyayAI.py:136 | the whitespace `strip()` removes: blank, tab, line feed and carriage return are whitespace; ASCII letters, digits and Devanagari are not |
| Text.Contains | NyayAI.py:144 | `needle in haystack`: the empty needle occurs everywhere, a string occurs in itself, and a needle longer than the haystack never occurs |
| Text.Strip | NyayAI.py:136 | `strip()` returns a piece of its input with whitespace-only margins and no whitespace at its own ends; it is empty exactly when the input is all whitespace |
| Text.StripUnique | NyayAI.py:136 | any piece with those two properties is the strip, so the properties define `strip()` |
| Text.StripIdempotent | NyayAI.py:136 | stripping twice is stripping once |
| Text.ContainsInTrimmed | NyayAI.py:136-144 | a non-empty needle without whitespace occurs in a text exactly when it occurs in the text with its whitespace margins cut off |
| Text.Lower | NyayAI.py:143 | `lower()` keeps the length and lower-cases each character on its own |
| Text.ToLower | NyayAI.py:143 | an ASCII capital maps to its small letter (code point + 32); every other character is unchanged; no capital survives |
| Text.LowerKeepsContains | NyayAI.py:143-144 | a substring of a text stays a substring after lower-casing both |
| Text.ContainsChar | NyayAI.py:250 | for a single character, `ch in text` is membership of that character |
| Classifier.AnyCharInIsMembership | NyayAI.py:250 | `any(ch in t for ch in chars)` holds exactly when some character of `t` is in `chars` |

## Left out

- The HTTP request to OCR.Space (`requests.post`, `response.json()`, lines 119-130) is not modelled: it is network I/O. The model starts from the decoded response fields.
- Ocr.DecodeResponse: a successful response with an empty or missing `ParsedResults` list makes the code raise an exception. The model requires a non-empty list instead of modelling the exception.
- Ocr.OcrResponse: `IsErroredOnProcessing` is modelled as a boolean, with an absent field read as false. Other truthy JSON values are not distinguished.
- Ocr.OcrResponse: `ErrorMessage` is modelled as an optional string. The OCR service may also send a list of strings or `null`, which the page would show or let through; those shapes are not modelled.
- `tts_bytes` (lines 187-197) calls gTTS, writes a temporary file and reads it back. It is not modelled, and neither is its fallback to English when gTTS rejects a language. Only the choice of language passed to it is modelled.
- The fixed "mr" voice on the transcript and template paths (lines 276 and 298) is a constant argument to `tts_bytes` and has no model of its own.
- Streamlit rendering, file upload, image preview, audio playback and the styling block are not modelled: they are UI.
- Ocr.RunOcrAndAnalyze: the "Play TTS" button sits inside the "Run OCR & Analyze" branch, and Streamlit re-runs the script on every click. The model records the language that would be chosen, and does not model whether the nested button can fire.
- The OCR API key and the `language="eng,mar"` request options are configuration sent over the network and are not modelled.
- Text.Lower: only ASCII letters are lower-cased. Python's full Unicode `lower()` also maps non-ASCII capitals. The only ones it maps into ASCII are the Kelvin sign (to `k`) and `İ` (to `i` plus a combining dot). Neither can complete one of the six keywords, but the model does not state this.
- The page's determinism and repeatability (same input, same answer) follow from every operation being a function and need no separate statement.
