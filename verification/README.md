# CaptureLingo / SnapLingo text resolution in Dafny

This project models the part of the two macOS screen-translation apps,
CaptureLingo and SnapLingo, that turns a captured image into text and the
text into a translation, and proves properties of that model. The part it
models:

- the script and quality classifiers (`containsJapanese`, `containsChinese`,
  `isUsableOCRText` / `isLikelyNoiseText`, `guessLanguageCode`,
  `shouldKeepOriginalTextAsJapanese`);
- the local Apple Vision path: `performOCR` with hint filtering and per-line
  candidate selection, the six-pass `performLocalFallbackOCR` cascade, the
  image variants of `makeLocalOCRVariants`, and CaptureLingo's
  `performBestLocalFallbackOCR` loop;
- the Google Cloud Vision path: `performCloudVisionOCR`, `encodeImageData`
  and `extractCloudVisionErrorMessage`;
- `recognizeText`: cloud first when a key is set (two attempts in
  CaptureLingo, one in SnapLingo), then the local path;
- SnapLingo's `TranslationService`: key and target resolution, the order of
  the checks in `generateTranslationOutput`, its two short-circuits and the
  HTML-entity decoder;
- the result view's `previewSize`, `formatLanguageLabel` and the
  translation task's state changes;
- SnapLingo's drag selection rectangle.

Everything is pure functions over immutable datatypes. These are oracles
passed in as function-valued fields:

- the OCR engine (`Recognition.Engine`);
- the image filters and encoders (`ImageVariants.ImageOps`);
- the two HTTP endpoints (`TranslationService.TranslateClient` and
  `CloudVision.VisionClient`);
- the Unicode `CharacterSet` classes (`TextOps.CharTable`);
- the locale's display names (`ResultPanel.LocaleNames`).

Thrown errors become the `Failure` case of a `Result`, and a completion
handler becomes the returned value. A `nil` becomes `None`.

Representation choices:

- A string is a Dafny `string`, a sequence of Unicode scalar values. The
  only concrete scalar ranges are the hex ranges the code writes: U+3040…U+30FF,
  U+4E00…U+9FFF, U+3005, and the letters a–z and A–Z.
- The `CharacterSet` classes are uninterpreted and may overlap. Each class
  count is taken on its own.
- `ScriptDetector.WellFormed` states the few facts about the real tables that
  some lemmas need: no kana, ideograph, U+3005, letter or printable ASCII
  character is whitespace.
- The `Double` noise ratios are integer cross-multiplications.
  `100 * (punct + symbol) > 35 * n` stands for `nonWordRatio > 0.35`, and
  likewise for the 0.65 bound.
- `CGFloat` sizes and points are exact `real`s.

Modules, one per file, in dependency order:

- `Wrappers` (Option/Result)
- `Common` (apps, error values, HTTP outcomes)
- `TextOps` (trimming, lower-casing, replacing, splitting)
- `ScriptDetector`
- `TextQuality`
- `ImageVariants`
- `Recognition` (`performOCR`)
- `LocalCascade`
- `HtmlEntities`
- `TranslationService`
- `CloudVision`
- `OCRService` (`recognizeText`)
- `ResultPanel` (TranslationView)
- `Selection` (SelectionView)

## Model

| member | source | states |
|---|---|---|
| TextOps.Trim | Sources/CaptureLingo/Services/OCRService.swift:371 | The trimmed text is the slice of the input after its leading whitespace and before a whitespace-only suffix, and neither starts nor ends with whitespace |
| TextOps.TrimEmptyIff | Sources/CaptureLingo/Services/OCRService.swift:371-374 | Trimming gives "" exactly when every character is whitespace |
| TextOps.TrimKeepsNonWhitespace | Sources/CaptureLingo/Services/OCRService.swift:379 | Trimming keeps every non-whitespace character in order, so the noise test sees the same scalars on trimmed and untrimmed text |
| TextOps.TrimIdempotent | Sources/SnapLingo/Services/TranslationService.swift:46 | Trimming already trimmed text changes nothing |
| TextOps.TrimKeepsChar | Sources/SnapLingo/Services/TranslationService.swift:46 | A non-whitespace character occurs in the trimmed text exactly when it occurs in the original |
| TextOps.Lower | Sources/SnapLingo/Services/TranslationService.swift:51 | `lowercased()` keeps the length and maps each character through the ASCII case mapping |
| TextOps.LowerIdempotent | Sources/SnapLingo/Services/TranslationService.swift:90 | Lower-casing twice is lower-casing once |
| TextOps.FirstComponent | Sources/CaptureLingo/UI/Results/TranslationView.swift:193 | `split(separator:).first` is nil exactly when the text is all separators; otherwise it is the first maximal run without the separator, found after the leading separators and ending at the next separator or the end |
| TextOps.ReplaceAllAbsent | Sources/SnapLingo/Services/TranslationService.swift:120-125 | `replacingOccurrences` leaves text alone when the pattern's first character does not occur in it |
| ScriptDetector.ChineseImpliesJapanese | Sources/CaptureLingo/Services/OCRService.swift:351-368 | Any text that satisfies `containsChinese` also satisfies `containsJapanese`; SnapLingo's OCRService.swift lines 217-234 are the same |
| ScriptDetector.GuessLanguageCodeCases | Sources/CaptureLingo/Services/OCRService.swift:400-418 | The guess is only nil, "ja" or "en"; each is given with both directions of its condition on the trimmed text |
| ScriptDetector.GuessNeverChinese | Sources/CaptureLingo/Services/OCRService.swift:404-410 | `guessLanguageCode` never returns "zh"; SnapLingo's OCRService.swift lines 266-284 are the same |
| ScriptDetector.GuessBlankIsNone | Sources/CaptureLingo/Services/OCRService.swift:401-402 | Whitespace-only text has no guess |
| ScriptDetector.GuessLanguageCodeUntrimmed | Sources/CaptureLingo/Services/OCRService.swift:400-418 | With the real tables the guess is "ja" for any Japanese-range scalar, else "en" for any ASCII letter, else nil |
| ScriptDetector.GuessIdeographIsJapanese | Sources/CaptureLingo/Services/OCRService.swift:355 | Any text with a U+4E00…U+9FFF scalar is guessed "ja" |
| TextQuality.CountClasses | Sources/CaptureLingo/Services/OCRService.swift:379-387 | The total the ratios divide by is the number of non-whitespace scalars |
| TextQuality.UsableCharacterization | Sources/CaptureLingo/Services/OCRService.swift:370-398 | Text is usable exactly when it has a non-whitespace scalar and the two ratio tests do not both trip, stated on the untrimmed text; SnapLingo's OCRService.swift lines 236-264 are the same |
| TextQuality.BlankNotUsable | Sources/CaptureLingo/Services/OCRService.swift:371-374 | Empty and whitespace-only text is never usable |
| TextQuality.IdeographsAndKanaUsable | Sources/CaptureLingo/Services/OCRService.swift:386-393 | Non-empty text made only of ideographs and kana is always usable |
| TextQuality.SymbolSoupNotUsable | Sources/CaptureLingo/Services/OCRService.swift:389-395 | Non-blank text whose scalars are all punctuation or symbols, with no alphanumeric, ideograph or kana, is noise |
| Recognition.FilterSupported | Sources/CaptureLingo/Services/OCRService.swift:237 | The filtered hints are exactly the requested hints the engine supports, and the list is no longer than the request |
| Recognition.FilterSupportedAllKept | Sources/CaptureLingo/Services/OCRService.swift:237 | When every hint is supported the filtered list is the request itself, in order |
| Recognition.FilterSupportedSingle | Sources/CaptureLingo/Services/OCRService.swift:237-240 | A single hint survives exactly when it is supported |
| Recognition.FilterSupportedHead | Sources/CaptureLingo/Services/OCRService.swift:247-248 | The first filtered hint is the first requested hint the engine supports |
| Recognition.TopCandidates | Sources/CaptureLingo/Services/OCRService.swift:250 | `topCandidates(3)` is the first min(3, n) candidates |
| Recognition.FirstMatching | Sources/CaptureLingo/Services/OCRService.swift:251 | `first(where:)` is nil exactly when no candidate matches; otherwise it is a matching candidate with no match before it |
| Recognition.SelectCandidate | Sources/CaptureLingo/Services/OCRService.swift:249-257 | Empty observations give nil. Under the Japanese preference the first Japanese candidate of the top three wins; failing that, under the Chinese preference the first Chinese one; otherwise the top candidate; SnapLingo's OCRService.swift lines 203-211 are the same |
| Recognition.SelectLines | Sources/CaptureLingo/Services/OCRService.swift:249-258 | `compactMap` drops exactly the observations without candidates: the k-th line is the choice for the k-th observation that has candidates, against an independent filter of those observations |
| Recognition.PerformOCRFailure | Sources/CaptureLingo/Services/OCRService.swift:236-243 | `performOCR` throws exactly when the supported-languages query or the recognition throws, and it throws that error; SnapLingo's OCRService.swift lines 190-197 are the same |
| Recognition.PerformOCROneCall | Sources/CaptureLingo/Services/OCRService.swift:226-243 | The engine is consulted only for its supported languages and one recognition of the image with the filtered-hint request: engines that agree there give the same result |
| Recognition.PerformOCRLines | Sources/CaptureLingo/Services/OCRService.swift:245-260 | A success is one line per observation that has candidates, in order, each the choice under the preference of the first filtered hint, joined by "\n"; SnapLingo's OCRService.swift lines 199-214 are the same |
| Recognition.NoSupportedHintNoPreference | Sources/CaptureLingo/Services/OCRService.swift:238-248 | With no supported hint the request keeps the default languages and prefers no script |
| ImageVariants.ScaledDimension | Sources/CaptureLingo/Services/OCRService.swift:266-267 | The scaled side is at least 1 and is the truncated product (or 1) |
| ImageVariants.MakeScaledImage | Sources/CaptureLingo/Services/OCRService.swift:263-283 | A scale of at most 1 returns the input image; a larger one draws at the truncated sizes |
| ImageVariants.MakeEnhancedImage | Sources/CaptureLingo/Services/OCRService.swift:314-337 | A colour-controls failure gives nil; a sharpening failure falls back to the unsharpened output |
| ImageVariants.MakeInvertedImage | Sources/CaptureLingo/Services/OCRService.swift:339-349 | The rendered output of the invert filter; nil exactly when the filter or the render fails |
| ImageVariants.MakeCloudRetryImage | Sources/CaptureLingo/Services/OCRService.swift:285-290 | The retry image exists exactly when 2x scaling works; it is the enhanced 2x image, or the plain 2x image when enhancement fails |
| ImageVariants.VariantsAreCollected | Sources/CaptureLingo/Services/OCRService.swift:292-312 | The variant list is exactly the transforms that succeed, in the fixed order |
| ImageVariants.VariantListBounds | Sources/CaptureLingo/Services/OCRService.swift:292-312 | The list starts with the input image and has one to six entries |
| ImageVariants.VariantListShape | Sources/CaptureLingo/Services/OCRService.swift:292-312 | Fixed order with no transform twice. Each transform is present exactly when it succeeds, with its image. Each inversion directly follows the image it inverts |
| LocalCascade.EndsAtSome | Sources/CaptureLingo/Services/OCRService.swift:139-197 | Every cascade ends at one of the six passes |
| LocalCascade.CascadeIsFirstAccepted | Sources/CaptureLingo/Services/OCRService.swift:139-197 | The outcome is that of the pass the cascade ends at: the first accepted text with that pass's label, or the first error thrown; SnapLingo's OCRService.swift lines 121-179 are the same |
| LocalCascade.LaterPassesIrrelevant | Sources/CaptureLingo/Services/OCRService.swift:146-188 | No pass after the one that returns or throws affects the outcome |
| LocalCascade.MixedPassIsLastResort | Sources/CaptureLingo/Services/OCRService.swift:190-196 | When the first five passes are rejected, the mixed pass's text is returned unconditionally with a guessed label |
| LocalCascade.LocalFallbackErrorFromPass | Sources/CaptureLingo/Services/OCRService.swift:141-195 | A cascade failure is the error some pass's `performOCR` threw |
| LocalCascade.SinglePassPreference | Sources/CaptureLingo/Services/OCRService.swift:150-188 | Only the ja-JP pass can prefer Japanese and only the zh-Hant pass Chinese, each exactly when its hint is supported |
| LocalCascade.MixedPassPreference | Sources/CaptureLingo/Services/OCRService.swift:193 | The mixed pass prefers Japanese only without en-US support, and Chinese only without en-US and ja-JP |
| LocalCascade.BestLoopFirstUsable | Sources/CaptureLingo/Services/OCRService.swift:204-213 | The loop returns the first usable variant result |
| LocalCascade.BestLoopLastError | Sources/CaptureLingo/Services/OCRService.swift:214-222 | With no usable result, the loop throws the error of the last variant that threw, even when others returned text |
| LocalCascade.BestLoopNoMoreErrors | Sources/CaptureLingo/Services/OCRService.swift:215-222 | An error seen earlier is still thrown when every later variant returns unusable text |
| LocalCascade.BestLoopLastResult | Sources/CaptureLingo/Services/OCRService.swift:201-223 | With no usable result and no error, the loop returns the last variant's result |
| LocalCascade.BestLoopFailureSource | Sources/CaptureLingo/Services/OCRService.swift:199-224 | A failing loop saw no usable result, and its error is the initial one or one some variant threw |
| LocalCascade.BestLocalFallbackOutcome | Sources/CaptureLingo/Services/OCRService.swift:199-213 | The search answers with the cascade result of the first variant whose result is usable |
| LocalCascade.BestLocalFallbackFailure | Sources/CaptureLingo/Services/OCRService.swift:199-224 | The search fails only when no variant was usable, and then with the error the cascade threw on some variant |
| HtmlEntities.DecodeIsSteps | Sources/SnapLingo/Services/TranslationService.swift:119-126 | The decoder is the five replacements in the fixed order &quot;, &#39;, &amp;, &lt;, &gt; |
| HtmlEntities.DecodeWithoutAmpersand | Sources/SnapLingo/Services/TranslationService.swift:119-126 | Text without '&' is unchanged |
| HtmlEntities.DecodeEscapeRoundTrip | Sources/SnapLingo/Services/TranslationService.swift:119-126 | Decoding undoes HTML escaping of any text without '&' |
| HtmlEntities.DoubleDecoding | Sources/SnapLingo/Services/TranslationService.swift:123-124 | Once '&' is allowed the round trip fails: the escape of "&lt;" decodes to "<" |
| HtmlEntities.DecodeAmpThird | Sources/SnapLingo/Services/TranslationService.swift:121-125 | "&amp;" is decoded after the quote entities and before &lt; and &gt;, which see its result |
| HtmlEntities.DecodeAmpLt | Sources/SnapLingo/Services/TranslationService.swift:123-124 | "&amp;lt;" decodes to "<" |
| HtmlEntities.DecodeOrderMatters | Sources/SnapLingo/Services/TranslationService.swift:121-123 | "&amp;quot;" decodes to "&quot;" and no further |
| HtmlEntities.DecodeExample | Sources/SnapLingo/Services/TranslationService.swift:119-126 | "&quot;Hello&quot; &amp; Goodbye" decodes to "\"Hello\" & Goodbye" |
| TranslationService.APIKeyPrecedence | Sources/SnapLingo/Services/TranslationService.swift:10-15 | The stored key wins whenever it exists, even when blank. The legacy key is used only when it is absent, and with neither there is no key |
| TranslationService.ResolvedSettingsTrimmed | Sources/SnapLingo/Services/TranslationService.swift:10-21 | The resolved key and target are already trimmed |
| TranslationService.DefaultTargetIsJapanese | Sources/SnapLingo/Services/TranslationService.swift:17-21 | With no stored target the default is "ja" |
| TranslationService.SetAPIKeyRoundTrip | Sources/SnapLingo/Services/TranslationService.swift:23-34 | Reading a set key back gives the trimmed key. `hasAPIKey` then holds exactly when it is non-blank, and the other entries are untouched |
| TranslationService.KeepNeedsKana | Sources/SnapLingo/Services/TranslationService.swift:128-143 | Text is kept as Japanese exactly when it has kana and no Latin letter, so ideograph-only text is sent |
| TranslationService.MissingKeyFirst | Sources/SnapLingo/Services/TranslationService.swift:42-44 | A missing key fails with 401 whatever the text |
| TranslationService.BlankTextSecond | Sources/SnapLingo/Services/TranslationService.swift:46-49 | With a key, blank text fails with 422 |
| TranslationService.ShortCircuitA | Sources/SnapLingo/Services/TranslationService.swift:51-54 | A "ja…" target and kana text without Latin letters give the trimmed text labelled "ja" |
| TranslationService.ChecksPrecedeRequest | Sources/SnapLingo/Services/TranslationService.swift:42-54 | In the 401, 422 and short-circuit A cases the endpoint is never consulted |
| TranslationService.RequestDecides | Sources/SnapLingo/Services/TranslationService.swift:56-76 | Past the checks the client matters only through the URL built from the key and its reply to one POST of the trimmed text, the lower-cased target and format "text"; without a URL the result is 400 |
| TranslationService.RespondStatus | Sources/SnapLingo/Services/TranslationService.swift:76-86 | Success exactly for a 200 whose body reads successfully; every other status fails carrying that status and the API's message; a non-HTTP reply is 500; transport errors pass through |
| TranslationService.ExtractAPIErrorMessage | Sources/SnapLingo/Services/TranslationService.swift:110-117 | The envelope's non-empty message, else the UTF-8 body, else "Unknown Error"; the message is empty exactly for an empty UTF-8 body without an envelope message |
| TranslationService.ReadTranslationMeaning | Sources/SnapLingo/Services/TranslationService.swift:86-107 | Decode errors pass through; reading succeeds exactly when the decoded translation is non-empty (else 502), reports the lower-cased detected language, and answers the request text when that language starts with the target, the decoded translation otherwise |
| TranslationService.NoEntryIsEmpty | Sources/SnapLingo/Services/TranslationService.swift:87-94 | A response with no translation entry is the 502 empty response |
| TranslationService.ReadTranslationNonEmpty | Sources/SnapLingo/Services/TranslationService.swift:88-107 | A successful read is never empty, and its detected language is lower-cased |
| TranslationService.TranslationNeverEmpty | Sources/SnapLingo/Services/TranslationService.swift:41-108 | No successful translation is empty, and any detected language it reports is lower-cased |
| TranslationService.GenerateTranslation | Sources/SnapLingo/Services/TranslationService.swift:36-39 | Succeeds exactly when the full output does, with non-empty text; otherwise fails with the same error |
| TranslationService.SourceMatchExamples | Sources/SnapLingo/Services/TranslationService.swift:97 | Short-circuit B tests detected.hasPrefix(target): "zh-cn" matches "zh", but "ja" does not match "ja-jp" |
| CloudVision.EncodeImageData | Sources/CaptureLingo/Services/OCRService.swift:117-123 | CaptureLingo tries PNG, then JPEG at 1.0; SnapLingo (its OCRService.swift lines 99-105) tries JPEG at 0.9, then PNG |
| CloudVision.EncodeFallback | Sources/CaptureLingo/Services/OCRService.swift:117-123 | There is no image data exactly when both encodings fail |
| CloudVision.ExtractCloudVisionErrorMessage | Sources/CaptureLingo/Services/OCRService.swift:125-137 | The top-level message, else the first response's message, else the UTF-8 body, else "Unknown Error"; empty exactly for an empty body; SnapLingo's OCRService.swift lines 107-119 are the same |
| CloudVision.ChecksPrecedeRequest | Sources/CaptureLingo/Services/OCRService.swift:54-61 | A missing key is 401 and an encoding failure is 400; neither consults the endpoint |
| CloudVision.RequestDecides | Sources/CaptureLingo/Services/OCRService.swift:63-85 | Past the checks the endpoint matters only through the URL built from the key and its reply to one POST of the encoded image, the app's feature and the eleven hints; without a URL the result is 400; SnapLingo's request (its OCRService.swift line 56) names DOCUMENT_TEXT_DETECTION, CaptureLingo's TEXT_DETECTION |
| CloudVision.RespondStatus | Sources/CaptureLingo/Services/OCRService.swift:85-95 | Success exactly for a 200 whose body decodes as a batch that reads successfully; every other status fails carrying that status and the extracted message; a non-HTTP reply is 500; transport and decoder errors pass through |
| CloudVision.ReadBatchSuccess | Sources/CaptureLingo/Services/OCRService.swift:96-114 | Reading succeeds exactly when there is a first response with no error message and non-blank text. The text is then trimmed and the locale is the first annotation's |
| CloudVision.ReadBatchFailures | Sources/SnapLingo/Services/OCRService.swift:78-93 | No response is 502. An error message fails with its code, else 500. Blank text is 502 |
| CloudVision.BlankFullTextWins | Sources/SnapLingo/Services/OCRService.swift:86-93 | A present but blank full text fails even when an annotation has text |
| CloudVision.DescriptionFallback | Sources/CaptureLingo/Services/OCRService.swift:104-107 | Without a full text the first annotation's description and locale are read |
| CloudVision.CloudTextTrimmed | Sources/CaptureLingo/Services/OCRService.swift:109-114 | A successful cloud result is non-empty and already trimmed |
| OCRService.CloudInputs | Sources/CaptureLingo/Services/OCRService.swift:14-17 | The captured image first, then the retry image exactly when it could be made |
| OCRService.CloudLoopFirstUsable | Sources/CaptureLingo/Services/OCRService.swift:20-31 | The first input whose call is usable answers, with its text and locale |
| OCRService.CloudLoopNone | Sources/CaptureLingo/Services/OCRService.swift:20-36 | The loop gives nothing exactly when no input's call is usable |
| OCRService.CloudLoopSome | Sources/CaptureLingo/Services/OCRService.swift:25-29 | Any answer comes from a usable call on one of the inputs |
| OCRService.CloudSearchSome | Sources/CaptureLingo/Services/OCRService.swift:13-31 | Any cloud answer is a usable call's text and locale |
| OCRService.FirstImageWins | Sources/CaptureLingo/Services/OCRService.swift:20-30 | A usable call on the captured image answers, whatever the retry image would give |
| OCRService.RetryAfterUnusable | Sources/CaptureLingo/Services/OCRService.swift:14-31 | After an unusable first attempt a usable retry answers |
| OCRService.NoUsableCloudCall | Sources/CaptureLingo/Services/OCRService.swift:19-41 | With neither attempt usable the cloud gives nothing |
| OCRService.SnapLingoSingleAttempt | Sources/SnapLingo/Services/OCRService.swift:11-23 | SnapLingo makes exactly one attempt, on the captured image |
| OCRService.NoKeyMeansLocal | Sources/CaptureLingo/Services/OCRService.swift:13-46 | Without a key the outcome is the local one, whatever the endpoint; SnapLingo's OCRService.swift lines 11-28 are the same |
| OCRService.CloudShortCircuits | Sources/CaptureLingo/Services/OCRService.swift:29-30 | A usable cloud answer is returned and the local engine is never consulted |
| OCRService.FailureIsLocal | Sources/CaptureLingo/Services/OCRService.swift:32-48 | Cloud errors never surface: any failure is the local path's failure, reached with no cloud answer; SnapLingo's OCRService.swift lines 21-30 are the same |
| OCRService.CloudAnswerTrimmed | Sources/CaptureLingo/Services/OCRService.swift:22-29 | A cloud answer's text is non-empty, trimmed and usable |
| ResultPanel.PreviewSize | Sources/CaptureLingo/UI/Results/TranslationView.swift:120-128 | Within 680 by 200 and positive, never larger than the source, same aspect ratio, and unchanged when already within bounds |
| ResultPanel.PreviewOfSmallImage | Sources/CaptureLingo/UI/Results/TranslationView.swift:121-127 | A size within the bounds is shown as it is |
| ResultPanel.PreviewOfWideImage | Sources/CaptureLingo/UI/Results/TranslationView.swift:125 | A wide, short image is capped at width 680 with its height scaled by the same factor |
| ResultPanel.FormatLanguageLabel | Sources/CaptureLingo/UI/Results/TranslationView.swift:179-198 | nil exactly for a nil code or one that normalises to ""; every label starts with "Language: " and is longer than it; SnapLingo's TranslationView.swift lines 134-157 are the same |
| ResultPanel.TaiwanLabelFixed | Sources/CaptureLingo/UI/Results/TranslationView.swift:187-189 | "zh-tw" and "zh-hant-tw" get the fixed label whatever the locale says; SnapLingo's TranslationView.swift lines 143-145 are the same |
| ResultPanel.TaiwanUnderscore | Sources/CaptureLingo/UI/Results/TranslationView.swift:181-187 | "zh_TW" normalises to the Taiwan code "zh-tw" |
| ResultPanel.TaiwanMixedCase | Sources/CaptureLingo/UI/Results/TranslationView.swift:181-187 | "ZH-Hant-TW" is not a Taiwan code as reported, but its normal form is one, so the fixed label applies |
| ResultPanel.ExactNameFirst | Sources/CaptureLingo/UI/Results/TranslationView.swift:190-192 | A non-empty name for the exact identifier is used before the base code |
| ResultPanel.BaseNameFallback | Sources/CaptureLingo/UI/Results/TranslationView.swift:193-196 | Without an exact-identifier name, the base code's name is used, the base being the part before the first "-" of the normalised code |
| ResultPanel.LabelFallback | Sources/CaptureLingo/UI/Results/TranslationView.swift:193-197 | With no name from the locale the label is "Language: " plus the normalised code; SnapLingo's TranslationView.swift lines 147-156 are the same |
| ResultPanel.NormalizeIdempotent | Sources/CaptureLingo/UI/Results/TranslationView.swift:181-184 | Normalising a normalised code changes nothing |
| ResultPanel.FinishLabels | Sources/CaptureLingo/UI/Results/TranslationView.swift:137-160 | On success the label comes from the detected language, else from the hint, and the text is replaced. On an error it comes from the hint and the error message is set. The task is dropped either way; SnapLingo's TranslationView.swift lines 100-123 are the same |
| ResultPanel.CancelledResultDropped | Sources/CaptureLingo/UI/Results/TranslationView.swift:136-153 | A result that arrives after cancellation changes nothing; a CancellationError only stops the spinner |
| ResultPanel.StartTwice | Sources/CaptureLingo/UI/Results/TranslationView.swift:131-133 | Starting while a task is held does nothing; starting twice is starting once |
| ResultPanel.CancelTranslation | Sources/CaptureLingo/UI/Results/TranslationView.swift:165-169 | Cancelling drops the task and the spinner and keeps the text, error and label |
| ResultPanel.CancelThenRestart | Sources/SnapLingo/UI/Results/TranslationView.swift:94-99 | After cancelling, a new translation starts, and the old task's late result is dropped |
| Selection.Span | Sources/SnapLingo/UI/Capture/SelectionView.swift:76-81 | Width and height are non-negative, the origin is the componentwise minimum, and the far edges are the maxima |
| Selection.UpdateSelectionRect | Sources/SnapLingo/UI/Capture/SelectionView.swift:73-82 | With either point missing the rectangle is unchanged; otherwise it is the span of the two points |
| Selection.SpanSymmetric | Sources/SnapLingo/UI/Capture/SelectionView.swift:76-81 | Swapping the two points gives the same rectangle |
| Selection.SpanCorners | Sources/SnapLingo/UI/Capture/SelectionView.swift:76-81 | The two points lie on opposite corners of the closed rectangle |
| Selection.DragChanged | Sources/SnapLingo/UI/Capture/SelectionView.swift:21-29 | The start point is latched if unset, the current point moves, and the rectangle spans the two |
| Selection.DragEnded | Sources/SnapLingo/UI/Capture/SelectionView.swift:30-35 | The current point moves and the rectangle spans the latched start and the end point |
| Selection.StartLatched | Sources/SnapLingo/UI/Capture/SelectionView.swift:24-26 | Once set, the start point is never overwritten by later changes |
| Selection.FreshDrag | Sources/SnapLingo/UI/Capture/SelectionView.swift:21-28 | After a run of changes the start is the first event's start and the current point is the last event's location |
| Selection.CapturedRect | Sources/SnapLingo/UI/Capture/SelectionView.swift:30-35 | The captured rectangle spans the first start location and the end location |

## Left out

- Networking and JSON: `URLSession`, `URLComponents`, `JSONSerialization` and `JSONDecoder` are not modelled. A decoded body is a record of each decoding attempt's outcome (the throwing decode as a `Result`, each `try?` decode and the UTF-8 view as an `Option`). The URL is an oracle that may give none, and the request is an oracle that returns an `HttpOutcome`. The query string, headers and the `JSONSerialization` throw are not modelled.
- Base64 encoding of the image in the Cloud Vision request: the request holds the encoded bytes.
- Apple Vision internals: `VNRecognizeTextRequest`, `supportedRecognitionLanguages()` and the recognizer are an `Engine` oracle. It returns the supported languages and, per request, one candidate list per observation, best first.
- Image processing: pixel work, colour controls, sharpening, inversion, drawing and PNG/JPEG encoding are `ImageOps` oracles. Only their Option-returning shape and their parameters are kept.
- Unicode and locale tables: `CharacterSet` membership and `Locale.current.localizedString` are uninterpreted. `lowercased()` is modelled by the ASCII case mapping only, which agrees with Foundation's mapping on the ASCII language codes it is applied to.
- String comparison: Swift's `hasPrefix`, `==` and `replacingOccurrences` compare by `Character` (canonical equivalence), while the model compares Unicode scalars one by one. The two agree on the ASCII codes and entities these operations see here, but they differ on text with combining marks.
- Floating point: ratios are integer cross-multiplications, and sizes are exact reals without `Double` rounding.
- Concurrency: `Task.detached`, async/await, `MainActor`, `Task.isCancelled` and `DispatchQueue` timing are not modelled. Whether the task was cancelled when its result arrives is a parameter of `ResultPanel.FinishTranslation`.
- Logging: the `print` calls are not modelled.
- UI plumbing: WindowManager, AppDelegate, OverlayWindow, CrosshairHostingView, ScreenCaptureService, SettingsView, CaptureLingoApp and Package.swift are not modelled. The clipboard copy and its feedback timer, and the view layout, are not modelled either.
- CaptureLingo's TranslationService.swift is not part of this model. CaptureLingo's `hasAPIKey` and `storedAPIKey()` are taken to be SnapLingo's.
