# Vasha: verified model of language selection, URL helpers and UI state machines

Vasha is a speech and translation web application. It has a Python backend and a React
front end. This project models the parts of it that are logic rather than markup or
transport:

- **Spoken-language identification** (`LanguageIdentifier` in the backend). The model covers:
  - the table of supported language codes;
  - the mapping of free-form classifier labels onto that table;
  - the filtering of model probabilities to supported codes;
  - the max-merge of labels that map to one code (MMS);
  - the arg-max choice of the detected language, with Python's tie-break (first maximal key
    in insertion order);
  - the constructor's dispatch on the model name.

  Inference is abstracted. The transcription, the proper-noun filter and the probability
  tables are inputs.
- **URL helpers**:
  - `getApiUrl` joins the API base and an endpoint;
  - `getAudioUrl` takes the file name from a server path with `/` or `\` separators;
  - the request and error-message rule of `generateSpeech`;
  - the download file name on the TTS page.
- **UI state machines**, one class per component, whose methods are the event handlers:
  - the text chat wizard (detect, translate, speak) with its progress bar and model
    auto-correction;
  - the landing page's evaluation-plot lightbox and model-details modal;
  - the TTS page;
  - the feedback dialog.

  Each asynchronous handler is split at every `await`. `...Start` is the click, and
  `...Finish` is the continuation with the reply or exception, including the `finally`
  block. `handleTranslate` awaits twice, so saving the chat is the separate event
  `SaveChatFinish`. Interval ticks and timers are separate events. A `...Finish` needs its
  own request to be pending, and a `...Start` needs the page not to be loading, as the
  disabled buttons ensure. So the model covers the orders of events that the enabled
  buttons and the timers allow, except those listed under "Left out".

Files: `common.dfy` (shared string and option helpers), `lid.dfy`, `api_config.dfy`,
`tts_service.dfy`, `text_chat.dfy`, `hero.dfy`, `tts_page.dfy`, `feedback.dfy`.

Remote services, clocks and randomness are parameters:
- the reply of each request;
- `Date.now()` as `now`;
- the random progress step as `k` in 2..9;
- `torch.cuda.is_available()` as `cudaAvailable`;
- the environment's base URLs (`ApiConfig.ApiBaseUrl` and `TtsService.ApiBaseUrl`);
- the page's `isGlobal`/`isIndic` language predicates, which are function-typed constants.

## Model

| member | source | states |
|---|---|---|
| Common.OrElse | frontend/src/pages/TTS.tsx:48 | JavaScript `a \|\| b` on two strings: a non-empty `a` wins, and the empty string falls back to `b` |
| Common.OptOrElse | frontend/src/config/api.ts:5 | JavaScript `a \|\| b` on an optional string: a present non-empty `a` wins, otherwise `b` |
| Common.Strip | backend/lid.py:88-98 | `strip()` yields "" exactly when the text is all whitespace; otherwise the result starts and ends with a non-whitespace character. The whitespace set is a parameter: Python's `str.isspace` set for `lid.py`, JavaScript's `trim()` set for the chat page |
| Common.StripRemovesOnlyEnds | backend/lid.py:88 | the stripped text is a contiguous slice of the input with only whitespace before and after it |
| Common.Lower | backend/lid.py:177 | lower-casing keeps the length and maps each character independently |
| Common.SplitPartsLowerCase | backend/lid.py:182 | splitting a lower-case label gives lower-case parts |
| Common.Split | frontend/src/services/ttsService.ts:32 | splitting always yields at least one part |
| Common.MapChars | backend/lid.py:182 | `replace('-', '_')` as a character map: the length is kept and each position is mapped on its own |
| Common.SplitJoin | backend/lid.py:182 | split and join are inverse: there is one separator fewer than parts, and joining the parts with the separators in order gives the string back |
| Common.SplitPartsHaveNoSeparator | frontend/src/services/ttsService.ts:32 | no part of a split contains a separator |
| Common.SplitPartsAvoid | backend/lid.py:182 | a character the string lacks is lacking from every part of its split |
| Common.SplitWithoutSeparator | frontend/src/services/ttsService.ts:32 | a string without separators splits into itself alone |
| Common.SplitLastIsSuffix | frontend/src/services/ttsService.ts:32 | `split(...).pop()` is the suffix after the last separator; it is the whole string exactly when there is one part, and otherwise a separator precedes it |
| Common.SplitAfterSeparator | frontend/src/components/sections/hero.tsx:595 | the parts of `a + sep + b` end with the parts of `b` |
| Common.SplitIgnoresWhichSeparator | frontend/src/services/ttsService.ts:32 | rewriting any of the separators, at any positions, into other separators leaves the parts unchanged |
| Common.DecimalString | frontend/src/services/ttsService.ts:24 | the `${n}` rendering of a non-negative integer is a non-empty digit string without a leading zero, except for `0` itself |
| Common.DecimalRoundTrip | frontend/src/services/ttsService.ts:24 | reading the rendering back gives the number |
| LanguageId.FirstSupported | backend/lid.py:179-189 | returns the first candidate that is a supported code, and None exactly when no candidate is |
| LanguageId.FirstSupportedAppend | backend/lid.py:179-189 | searching a concatenation of candidate lists searches the left list first |
| LanguageId.Prefix2 | backend/lid.py:187 | `lab[:2]` is a prefix of the label of length `min(2, len(lab))` |
| LanguageId.DashToUnderscore | backend/lid.py:182 | `replace('-', '_')` on one character: `-` becomes `_`, so no `-` is left, and every other character is kept |
| LanguageId.LabelParts | backend/lid.py:182 | `lab.replace('-', '_').split('_')`: at least one part, no part contains `-` or `_`, and joining the parts with the underscores gives the dashed label back |
| LanguageId.LabelToTargetCode | backend/lid.py:176-189 | `_label_to_target_code` returns None or a key of `TARGET_LANGS` |
| LanguageId.Candidates | backend/lid.py:177-188 | at least three candidates: first the whole lower-cased label, last its first two characters; all of them are lower-case |
| LanguageId.LabelPartsLowerCase | backend/lid.py:182 | the `-`/`_` parts of a lower-case label are lower-case |
| LanguageId.LabelToTargetCodeIsFirstCandidate | backend/lid.py:177-189 | the result is the first supported candidate, tried in order: the whole lower-cased label, each `_`/`-` part left to right, then the first two characters |
| LanguageId.LabelToTargetCodeLowerCase | backend/lid.py:176-189 | every returned code is lower-case and non-empty, so the six mixed-case keys are never produced |
| LanguageId.EmptyNotSupported | backend/lid.py:16-59 | the empty string is not a key of `TARGET_LANGS` |
| LanguageId.MixedCaseKeysAreNotLowerCase | backend/lid.py:25-38 | the mixed-case keys are table keys with an upper-case letter |
| LanguageId.FilterKeys | backend/lid.py:113 | filtering keeps exactly the kept keys of an order, and distinct keys stay distinct |
| LanguageId.FilterKeysAppend | backend/lid.py:113 | filtering keeps relative order: the filter of a concatenation is the concatenation of the filters |
| LanguageId.FilterSplitAt | backend/lid.py:113 | filtering an order is filtering its first `i` keys and then the rest |
| LanguageId.FilterKeepsEarlierFirst | backend/lid.py:113 | a kept key that comes earlier in the order also comes earlier among the kept keys |
| LanguageId.FilterOrder | backend/lid.py:113 | the comprehension's insertion order keeps exactly the supported keys and keeps them distinct; it is `FilterKeys` on the supported set, so the two order lemmas above apply |
| LanguageId.FilterSupported | backend/lid.py:113 | the dict comprehension keeps exactly the supported entries with their probabilities, in the input's insertion order, and yields a well-formed dict |
| LanguageId.MaxKey | backend/lid.py:119 | `max(d, key=d.get)` returns a key of the dict |
| LanguageId.MaxKeyIsFirstMaximum | backend/lid.py:119 | that key has the largest probability, and every key before it in insertion order has a strictly smaller one |
| LanguageId.Select | backend/lid.py:115-120 | an empty filtered dict gives `(None, {})`; otherwise the result is the dict with a code whose probability bounds every entry, and every key before it in insertion order is strictly smaller (Python's tie-break) |
| LanguageId.DetectedIsFirstMaximum | backend/lid.py:113-120 | end to end for the Whisper and AI4Bharat branches: a language is detected exactly when some key of the model's table is supported; it is a supported key of largest probability, and every supported key before it in insertion order is strictly smaller |
| LanguageId.DetectedIffSupported | backend/lid.py:113-118 | a language is detected exactly when some key of the model's table is supported |
| LanguageId.DetectedIsSupportedMaximum | backend/lid.py:113-120 | a detected language is a supported key of largest probability, and every supported key before it in insertion order is strictly smaller |
| LanguageId.SupportedFirstMaximum | backend/lid.py:113-120 | the first maximal key of the filtered dict is, in the unfiltered insertion order, a supported key that no supported key exceeds and every earlier supported key is below |
| LanguageId.LabelAt | backend/lid.py:192 | `id2label.get(str(idx), id2label.get(idx))`: the string key wins, the integer key is the fallback, and the result is None exactly when neither key exists |
| LanguageId.CodeAt | backend/lid.py:192-196 | an index without a label has no code; any code found is supported |
| LanguageId.IndexCodes | backend/lid.py:191-196 | the code of every index, all of them supported |
| LanguageId.Accumulate | backend/lid.py:196-198 | the code's new value is `max(old value or 0.0, p)` and every other entry is unchanged; a new code is appended to the insertion order, an existing one keeps its place |
| LanguageId.Merge | backend/lid.py:191-198 | the merged dict is well-formed, and holds only supported codes |
| LanguageId.FilterMmsProbs | backend/lid.py:191-198 | the in-place loop builds exactly the merged dict of all indices |
| LanguageId.MergeAtCode | backend/lid.py:196-198 | the merged dict at one code equals that code's own running maximum |
| LanguageId.CodeValueIsMax | backend/lid.py:196-198 | a code has a value exactly when some index maps to it; the value is at least 0.0, bounds every such index's probability, and is 0.0 or one of them |
| LanguageId.MergeIsMax | backend/lid.py:191-198 | indices without a label or code are skipped; a code is present exactly when some index maps to it, and its value is the max of 0.0 and their probabilities |
| LanguageId.MergeIsMaxOfNonNegative | backend/lid.py:198 | for softmax (non-negative) probabilities, each merged value is one of the merged probabilities |
| LanguageId.Init | backend/lid.py:62-77 | "whisper", "mms" and "facebook_mms" construct; "ai4bharat" raises NotImplementedError; any other name raises ValueError; the device falls back to cuda/cpu |
| LanguageId.TextForDetection | backend/lid.py:97-102 | the raw text is used when proper-noun filtering leaves only whitespace |
| LanguageId.Detect | backend/lid.py:84-207 | an unknown model raises ValueError; a blank transcription gives `(None, {})`; each branch returns the selection over its filtered dict, so its keys are supported and the chosen language is a maximal key; the proper-noun filter does not influence the result |
| ApiConfig.ApiBaseUrl | frontend/src/config/api.ts:5 | the base is the environment's value, or `https://api.vasha.in` when it is unset or empty |
| ApiConfig.CleanEndpoint | frontend/src/config/api.ts:10 | exactly one leading `/` is removed, when present |
| ApiConfig.TrimmedBase | frontend/src/config/api.ts:11 | exactly one trailing `/` is removed, when present |
| ApiConfig.GetApiUrl | frontend/src/config/api.ts:8-13 | the URL is the trimmed base, one `/`, then the cleaned endpoint, and nothing else |
| ApiConfig.LeadingSlashIgnored | frontend/src/config/api.ts:10 | `getApiUrl("/" + x) == getApiUrl(x)` holds exactly when `x` does not itself start with `/` |
| ApiConfig.PlainJoin | frontend/src/config/api.ts:10-12 | with no slash on either side, the result is `base + "/" + endpoint` |
| ApiConfig.SlashOnBothSides | frontend/src/config/api.ts:10-12 | a slash on both sides still gives a single slash at the joint |
| ApiConfig.DoubleLeadingSlashKept | frontend/src/config/api.ts:10-12 | an endpoint starting with `//` keeps one slash, so the URL has a double slash after the base |
| ApiConfig.GetApiUrlInjective | frontend/src/config/api.ts:10-12 | two endpoints give one URL exactly when their cleaned forms agree |
| TtsService.ApiBaseUrl | frontend/src/services/ttsService.ts:1 | the service's base is the environment's value, or `http://localhost:8000` when it is unset or empty |
| TtsService.AudioFilename | frontend/src/services/ttsService.ts:32 | the file name is always a suffix of the path |
| TtsService.GetAudioUrl | frontend/src/services/ttsService.ts:30-34 | the URL is the base, then `/tts/audio/`, then a suffix of the server path |
| TtsService.FilenameIsLastSegment | frontend/src/services/ttsService.ts:32 | for a path not ending in a separator, the file name is the text after the last `/` or `\`, contains neither, and a separator precedes it |
| TtsService.PathWithoutSeparator | frontend/src/services/ttsService.ts:32 | a path without separators is used whole |
| TtsService.TrailingSeparatorUsesWholePath | frontend/src/services/ttsService.ts:32 | a trailing separator gives an empty last segment, so the whole path is used |
| TtsService.SwappedSeparatorsSameFilename | frontend/src/services/ttsService.ts:32 | for a path not ending in a separator, rewriting any of its `/` and `\` into either separator leaves the file name unchanged |
| TtsService.SeparatorKindIrrelevant | frontend/src/services/ttsService.ts:30-34 | for such a rewriting the audio URL is unchanged too |
| TtsService.BuildRequest | frontend/src/services/ttsService.ts:11-20 | the posted body carries the text and language, with the model defaulting to `auto` |
| TtsService.StatusMessage | frontend/src/services/ttsService.ts:24 | `HTTP <status>`: the prefix, then a minus sign exactly for a negative status, then digits |
| TtsService.SpeechOutcome | frontend/src/services/ttsService.ts:22-27 | a non-2xx status rejects with the body's `detail`, else `HTTP <status>`; a 2xx reply resolves with its body |
| TtsService.ToSpeechReply | frontend/src/pages/TTS.tsx:31-36 | what a page's `await generateSpeech(...)` yields: the response's audio path and model, the thrown `Error`'s message for a non-2xx reply, or the parse exception's message |
| TtsService.HttpErrorReachesPage | frontend/src/services/ttsService.ts:22-25 | a non-2xx reply reaches a page as an exception whose message is the `detail` or `HTTP <status>`; it is never empty, so the page shows it rather than its own fallback text |
| TtsService.StatusMessageNamesStatus | frontend/src/services/ttsService.ts:24 | the fallback message is `HTTP ` followed by digits that read back as the status |
| TextChatPage.AdjustMtModel | frontend/src/pages/TextChat.tsx:41-47 | IndicTrans becomes Google for a global target, NLLB becomes IndicTrans for an Indic one, and nothing else changes |
| TextChatPage.AdjustTtsModel | frontend/src/pages/TextChat.tsx:50-56 | Indic becomes XTTS for a global target, XTTS/gTTS become Indic for an Indic one, `auto` and all else are kept |
| TextChatPage.MtEnabled | frontend/src/pages/TextChat.tsx:232-239 | the MT buttons' `disable` flags: Google is always enabled, IndicTrans exactly when the target is not global, NLLB exactly when it is not Indic |
| TextChatPage.TtsEnabled | frontend/src/pages/TextChat.tsx:295-303 | the TTS buttons' `disable` flags: Auto and gTTS are always enabled, XTTS ("Coqui") exactly when the target is not Indic, Indic exactly when it is not global |
| TextChatPage.AdjustedModelsEnabled | frontend/src/pages/TextChat.tsx:41-56 | after correction, neither model is one whose button the target disables |
| TextChatPage.AdjustIdempotent | frontend/src/pages/TextChat.tsx:41-56 | correcting twice equals correcting once; an enabled MT model is never changed |
| TextChatPage.NextProgress | frontend/src/pages/TextChat.tsx:61-65 | a tick turns a hidden bar into 1 and otherwise adds `k` with a cap of 90, so it never exceeds 90 |
| TextChatPage.TicksReachCap | frontend/src/pages/TextChat.tsx:60-66 | after n ticks from 0..90 the bar is between `min(90, p + 2n)` and 90, so it reaches 90 within 45 ticks |
| TextChatPage.DetectError | frontend/src/pages/TextChat.tsx:84-92 | only a successful answer leaves no error; `success == false` shows the reply's error or "Language detection failed"; an exception shows its message or "Detection failed"; never an empty message |
| TextChatPage.TextChat.constructor | frontend/src/pages/TextChat.tsx:18-56 | initial state after the mount-time effects: step 1, detected "en", target "hi", model `auto`, nothing loading; the audio base URL is the TTS service's `ApiBaseUrl` of the environment |
| TextChatPage.TextChat.SetInputText | frontend/src/pages/TextChat.tsx:199-201 | typing changes only the input |
| TextChatPage.TextChat.Begin | frontend/src/pages/TextChat.tsx:58-68 | a request sets loading, clears the error and starts the bar at 0 |
| TextChatPage.TextChat.End | frontend/src/pages/TextChat.tsx:70-74 | every handler ends with loading false, the bar at 100 and a hide timer pending |
| TextChatPage.TextChat.Tick | frontend/src/pages/TextChat.tsx:60-65 | an interval tick changes only the progress |
| TextChatPage.TextChat.HideProgress | frontend/src/pages/TextChat.tsx:72 | the hide timer hides the bar, even during a newer request |
| TextChatPage.TextChat.DetectStart | frontend/src/pages/TextChat.tsx:76-80 | a blank input changes nothing; otherwise the detection request for the input is sent |
| TextChatPage.TextChat.DetectFinish | frontend/src/pages/TextChat.tsx:82-96 | success stores the language and name and moves to step 2; failure only sets the error; step and detected language are otherwise unchanged |
| TextChatPage.TextChat.SetTargetLanguage | frontend/src/pages/TextChat.tsx:40-56 | on step 2 or 3 (the step-2 panel stays mounted from line 216 on), a new target re-runs both corrections; the same target changes nothing |
| TextChatPage.TextChat.SelectMtModel | frontend/src/pages/TextChat.tsx:232-240 | on step 2 or 3, only enabled MT buttons can be chosen, and choosing changes only the model |
| TextChatPage.TextChat.SelectTtsModel | frontend/src/pages/TextChat.tsx:295-304 | only enabled TTS buttons can be chosen |
| TextChatPage.TextChat.TranslateStart | frontend/src/pages/TextChat.tsx:99-103 | on step 2 or 3, an empty input changes nothing; otherwise the translation request with the current languages and model is sent |
| TextChatPage.TextChat.TranslateFinish | frontend/src/pages/TextChat.tsx:105-120 | a translation is shown at once and the error stays cleared; for a signed-in user the request then awaits the chat save, still loading, and otherwise it ends; an exception's message or "Translation failed" becomes the error and the request ends |
| TextChatPage.TextChat.SaveChatFinish | frontend/src/pages/TextChat.tsx:110-120 | whatever becomes of saving the chat, the request ends with the translation kept and no error |
| TextChatPage.TextChat.Continue | frontend/src/pages/TextChat.tsx:272-279 | with a translation, step 2 moves to step 3 and step 3 stays; nothing else changes |
| TextChatPage.TextChat.Back | frontend/src/pages/TextChat.tsx:338 | Back goes from step 3 to 2 |
| TextChatPage.TextChat.SpeechStart | frontend/src/pages/TextChat.tsx:123-128 | without a translation nothing happens; otherwise the error and the previous audio are cleared before the request |
| TextChatPage.TextChat.SpeechFinish | frontend/src/pages/TextChat.tsx:130-139 | the audio URL comes from the returned path; an exception's message or "TTS generation failed" becomes the error |
| TextChatPage.TextChat.ReturnToChat | frontend/src/pages/TextChat.tsx:346-355 | resets exactly step, input, translation, audio and detected language/name |
| HeroSection.PlotsOf | frontend/src/components/sections/hero.tsx:239-323 | each model opens a non-empty list of plots |
| HeroSection.PrevIndex | frontend/src/components/sections/hero.tsx:535 | `max(0, i - 1)` |
| HeroSection.NextIndex | frontend/src/components/sections/hero.tsx:542 | `min(len - 1, i + 1)` |
| HeroSection.NavigationStaysInRange | frontend/src/components/sections/hero.tsx:533-546 | both moves keep the index in range, and stand still at their end of the list |
| HeroSection.PrevNextInverse | frontend/src/components/sections/hero.tsx:533-546 | away from the ends, Previous and Next undo each other |
| HeroSection.ImageName | frontend/src/components/sections/hero.tsx:595 | the lookup name is lower-case |
| HeroSection.Caption | frontend/src/components/sections/hero.tsx:594-604 | a known name gets its caption, and any other name gets "Evaluation plot" |
| HeroSection.CaptionIgnoresDirectory | frontend/src/components/sections/hero.tsx:595 | only the last `/`-segment, lower-cased, decides the caption |
| HeroSection.CaptionIgnoresCase | frontend/src/components/sections/hero.tsx:595 | names that differ only in letter case share a caption |
| HeroSection.KnownCaption | frontend/src/components/sections/hero.tsx:595-603 | a lower-case name under any directory gets the table's caption or the default |
| HeroSection.TableNamesArePlain | frontend/src/components/sections/hero.tsx:596-602 | the table's names are lower-case and contain no `/` |
| HeroSection.SharedCaption | frontend/src/components/sections/hero.tsx:596-602 | two table names with the same caption share it under any directory |
| HeroSection.MtCaptionsShared | frontend/src/components/sections/hero.tsx:598-599 | `mtcombined.png` and `mt_combined.png` share one non-default caption |
| HeroSection.RootCaption | frontend/src/components/sections/hero.tsx:595-603 | a plain path `/name` with a table name gets that name's caption, not the default |
| HeroSection.PlotsHaveCaptions | frontend/src/components/sections/hero.tsx:596-602 | every plot the page opens has its own caption |
| HeroSection.Hero.constructor | frontend/src/components/sections/hero.tsx:11-14 | nothing open, index 0, not zoomed |
| HeroSection.Hero.LearnMore | frontend/src/components/sections/hero.tsx:233 | LEARN MORE opens the details of that model |
| HeroSection.Hero.ModalOpenChange | frontend/src/components/sections/hero.tsx:521 | `onOpenChange(false)` closes and `onOpenChange(true)` changes nothing |
| HeroSection.Hero.OpenPlots | frontend/src/components/sections/hero.tsx:239 | opening plots sets the list, index 0 and unzoomed |
| HeroSection.Hero.Prev | frontend/src/components/sections/hero.tsx:533-539 | Previous moves one back and keeps the index in range |
| HeroSection.Hero.Next | frontend/src/components/sections/hero.tsx:540-546 | Next moves one forward and keeps the index in range |
| HeroSection.Hero.ToggleZoom | frontend/src/components/sections/hero.tsx:551 | the zoom flips, so two toggles restore it |
| HeroSection.Hero.Click | frontend/src/components/sections/hero.tsx:527-528 | the backdrop and Close close the lightbox; a click in the panel does not |
| HeroSection.Hero.CurrentCaption | frontend/src/components/sections/hero.tsx:593-605 | the caption shown is that of the current image |
| TtsPage.DownloadFilename | frontend/src/pages/TTS.tsx:47-48 | the name is never empty; it is either a `/`-free suffix of the URL or a generated name starting with `tts_` |
| TtsPage.DownloadFilenameShape | frontend/src/pages/TTS.tsx:47-48 | the name has no `/`. It is the last segment whenever the URL does not end in `/`. Otherwise it is the generated name, whose extension is always `.wav` |
| TtsPage.SpeechPage.constructor | frontend/src/pages/TTS.tsx:13-23 | text and language code come from the navigation state (empty counts as absent); the language defaults to "hi" and the model to `auto` |
| TtsPage.SpeechPage.SetLanguage | frontend/src/pages/TTS.tsx:77 | changes only the language |
| TtsPage.SpeechPage.SelectModel | frontend/src/pages/TTS.tsx:81-116 | changes only the model |
| TtsPage.SpeechPage.GenerateStart | frontend/src/pages/TTS.tsx:25-30 | without text nothing happens; otherwise error and audio are cleared and the request is sent |
| TtsPage.SpeechPage.GenerateFinish | frontend/src/pages/TTS.tsx:31-39 | the audio URL or the error (the message or "TTS generation failed") is set, and loading is false afterwards |
| TtsPage.SpeechPage.Download | frontend/src/pages/TTS.tsx:42-49 | no audio gives no download; otherwise the derived file name |
| Feedback.RatingField | frontend/src/components/chat/FeedbackButton.tsx:49 | the rating field is never empty |
| Feedback.RatingFieldValues | frontend/src/components/chat/FeedbackButton.tsx:49 | for ratings 0..5 the field is "N/A" or "1/5".."5/5", and "N/A" exactly for 0 |
| Feedback.RatingFieldInjective | frontend/src/components/chat/FeedbackButton.tsx:49 | different ratings give different fields |
| Feedback.BuildPayload | frontend/src/components/chat/FeedbackButton.tsx:45-50 | the username defaults to "Anonymous" and the e-mail to "Not provided"; the message is sent verbatim |
| Feedback.FeedbackForm.constructor | frontend/src/components/chat/FeedbackButton.tsx:21-25 | closed, not submitting, empty fields, no rating |
| Feedback.FeedbackForm.SetOpen | frontend/src/components/chat/FeedbackButton.tsx:77 | opening or closing changes nothing else |
| Feedback.FeedbackForm.SetMessage | frontend/src/components/chat/FeedbackButton.tsx:133-134 | typing changes only the message |
| Feedback.FeedbackForm.SetEmail | frontend/src/components/chat/FeedbackButton.tsx:104-105 | typing changes only the e-mail |
| Feedback.FeedbackForm.SetRating | frontend/src/components/chat/FeedbackButton.tsx:113-117 | a star sets the rating to 1..5 |
| Feedback.FeedbackForm.SubmitStart | frontend/src/components/chat/FeedbackButton.tsx:27-50 | an empty message shows the "Message required" toast and changes nothing; otherwise the payload is sent and the form is submitting |
| Feedback.FeedbackForm.SubmitFinish | frontend/src/components/chat/FeedbackButton.tsx:53-71 | success closes the dialog and clears message, rating and e-mail; failure keeps them; submitting ends either way |

## Left out

- Neural inference and audio handling in `backend/lid.py` are out: model loading, transcription, mel spectrograms, softmax, resampling and spaCy tagging. Their outputs are inputs here. `filter_proper_nouns` is an uninterpreted function.
- Python floats are modelled as reals, so NaN and infinities are not modelled.
- The warnings `lid.py` prints are not modelled.
- The audio-source helpers after line 209 of `backend/lid.py` are not part of this model: ffmpeg extraction, YouTube download and live recording.
- Lower-casing is ASCII-only here. Python's `lower()` and JavaScript's `toLowerCase()` also fold non-ASCII letters. Whitespace follows each language's own set (`PythonWhitespace` for `str.strip()`, `JsWhitespace` for `String.prototype.trim()`).
- `id2label` values are strings. A label stored as `None` under a present key is not modelled.
- LanguageId.Detect: the Whisper and AI4Bharat probability tables must be well-formed (distinct keys in insertion order). That is the invariant of a Python dict, and this model's dicts keep it by construction.
- The HTTP transport of every service call is left out. Replies are inputs that cover success, the error statuses and the exceptions. `localStorage` is the `signedIn` argument of `TranslateFinish`. The chat-saving reply is the event `SaveChatFinish`, and its `console.warn` is not modelled.
- The JavaScript error text for an unparsable OK reply is unknown, so it is the error case `InvalidBody`, and its message is the `parseError` argument of `ToSpeechReply`.
- Rendering is left out: markup, CSS, toasts on screen, the audio player, video playback, fullscreen, hover effects and navigation (`navigate`).
- TextChat's `handleCopy` (clipboard) and `handleDownload` (a DOM link named after `Date.now()`) are browser effects and are left out.
- React runs a state update and the effects it triggers as one step. `SetTargetLanguage` models this by applying the corrections in the same method.
- `isGlobal`/`isIndic` are defined in a component that is not part of this model. The model takes them as parameters and assumes no language is both.
- TextChatPage.AdjustIdempotent: this is stated only for targets that are not both global and Indic. For such a target the two MT corrections chain: NLLB becomes IndicTrans and then Google.
- The 300 ms interval and the 700 ms timeout are events with no clock. The random step `Math.floor(Math.random() * 8) + 2` is the parameter `k` in 2..9.
- The caption lookup reads a plain JavaScript object, so names such as `constructor` would find inherited properties. The page only opens fixed file names, so this is not modelled.
- The browser's `required` attribute on the feedback message blocks an empty submission before `handleSubmit` runs. The model keeps the handler's own empty-message check.
- Each `import.meta.env` lookup is the `Option` argument of `ApiConfig.ApiBaseUrl` or `TtsService.ApiBaseUrl`.
- TtsService.SpeechOutcome: a JSON `null` body and a `detail` that is not a string are not modelled; `detail` is an optional string. FastAPI's validation errors send a list there, which `new Error` would render as `[object Object]`.
- The feedback e-mail input's `type="email"` browser validation is not modelled. The model accepts any text.
- A second click that reaches a handler before React re-renders its disabled button is not modelled. Such a click would start a second request while the first is awaited.
