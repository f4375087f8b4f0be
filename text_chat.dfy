/** The text chat page: a three-step wizard (1 detect the input's language, 2 translate it,
    3 synthesise speech) with its guards, its request/reply handlers, the automatic
    correction of the chosen models when the target language changes, and the progress
    counter shown while a request is in flight.

    Each asynchronous handler is split at every `await`: `...Start` is the synchronous part
    run on the click, `...Finish` the continuation run when the reply (or exception)
    arrives, including its `finally` block. `handleTranslate` awaits twice, so saving the
    chat is the separate event `SaveChatFinish`. The progress interval's ticks and the
    700 ms timer that hides the bar are events of their own. A `...Finish` needs its own
    request to be pending and a `...Start` needs the page not to be loading, as the
    disabled buttons ensure. Which languages are "global" and which "Indic" is
    decided by two predicates the page imports; they are parameters here. */
module TextChatPage {
  import opened Common
  import TtsService

  datatype MtModel = Google | IndicTrans | Nllb

  // ------------------------------------------------------------------ model correction

  /** The translation-model effect: IndicTrans becomes Google for a global target, NLLB
      becomes IndicTrans for an Indic one; every other choice is kept. */
  function AdjustMtModel(global: bool, indic: bool, model: MtModel): (r: MtModel)
    ensures global && model == IndicTrans ==> r == Google
    ensures !(global && model == IndicTrans) && indic && model == Nllb ==> r == IndicTrans
    ensures r != model ==> (global && model == IndicTrans) || (indic && model == Nllb)
  {
    if global && model == IndicTrans then Google
    else if indic && model == Nllb then IndicTrans
    else model
  }

  /** The speech-model effect: Indic becomes XTTS for a global target, XTTS and gTTS
      become Indic for an Indic one; `auto` and every other choice are kept. */
  function AdjustTtsModel(global: bool, indic: bool, model: TtsService.TtsModel): (r: TtsService.TtsModel)
    ensures global && model == TtsService.Indic ==> r == TtsService.Xtts
    ensures !global && indic && model in {TtsService.Xtts, TtsService.Gtts} ==> r == TtsService.Indic
    ensures r != model ==> (global && model == TtsService.Indic) ||
                           (!global && indic && model in {TtsService.Xtts, TtsService.Gtts})
    ensures model == TtsService.Auto ==> r == TtsService.Auto
  {
    if global then (if model == TtsService.Indic then TtsService.Xtts else model)
    else if indic && (model == TtsService.Xtts || model == TtsService.Gtts) then TtsService.Indic
    else model
  }

  /** The model buttons a target disables: IndicTrans for a global target, NLLB for an
      Indic one; XTTS ("Coqui") for an Indic target, Indic for a global one. */
  predicate MtEnabled(global: bool, indic: bool, model: MtModel): (r: bool)
    ensures model == Google ==> r
    ensures model == IndicTrans ==> (r <==> !global)
    ensures model == Nllb ==> (r <==> !indic)
  {
    !(global && model == IndicTrans) && !(indic && model == Nllb)
  }

  predicate TtsEnabled(global: bool, indic: bool, model: TtsService.TtsModel): (r: bool)
    ensures model == TtsService.Auto || model == TtsService.Gtts ==> r
    ensures model == TtsService.Xtts ==> (r <==> !indic)
    ensures model == TtsService.Indic ==> (r <==> !global)
  {
    !(indic && model == TtsService.Xtts) && !(global && model == TtsService.Indic)
  }

  /** For a target that is not both global and Indic, the corrected models are never ones
      whose button the target disables. */
  lemma AdjustedModelsEnabled(global: bool, indic: bool, mt: MtModel, tts: TtsService.TtsModel)
    requires !(global && indic)
    ensures MtEnabled(global, indic, AdjustMtModel(global, indic, mt))
    ensures TtsEnabled(global, indic, AdjustTtsModel(global, indic, tts))
  {
  }

  /** For a target that is not both global and Indic, correcting twice is correcting once, and a model whose button is enabled is only
      changed by the speech effect turning gTTS into Indic for an Indic target. */
  lemma AdjustIdempotent(global: bool, indic: bool, mt: MtModel, tts: TtsService.TtsModel)
    requires !(global && indic)
    ensures AdjustMtModel(global, indic, AdjustMtModel(global, indic, mt)) == AdjustMtModel(global, indic, mt)
    ensures AdjustTtsModel(global, indic, AdjustTtsModel(global, indic, tts)) == AdjustTtsModel(global, indic, tts)
    ensures MtEnabled(global, indic, mt) ==> AdjustMtModel(global, indic, mt) == mt
    ensures TtsEnabled(global, indic, tts) && AdjustTtsModel(global, indic, tts) != tts ==>
              !global && indic && tts == TtsService.Gtts
  {
  }

  // ------------------------------------------------------------------ progress

  /** One tick of the progress interval with random step `k` (2..9): a hidden bar shows 1,
      otherwise the value grows by `k` up to a cap of 90. */
  function NextProgress(p: Option<int>, k: int): (r: int)
    requires 2 <= k <= 9
    ensures 1 <= r || (p.Some? && p.value + k < 1 && r == p.value + k)
    ensures r <= 90
    ensures p.None? ==> r == 1
    ensures p.Some? && p.value <= 88 ==> r > p.value
    ensures p.Some? && p.value + k >= 90 ==> r == 90
    ensures p.Some? && p.value + k < 90 ==> r == p.value + k
  {
    if p.None? then 1
    else if p.value + k >= 90 then 90
    else p.value + k
  }

  /** The progress after the ticks `ks`. */
  function AfterTicks(p: Option<int>, ks: seq<int>): Option<int>
    requires forall i :: 0 <= i < |ks| ==> 2 <= ks[i] <= 9
    decreases |ks|
  {
    if ks == [] then p
    else AfterTicks(Some(NextProgress(p, ks[0])), ks[1..])
  }

  function Min(a: int, b: int): int {
    if a <= b then a else b
  }

  /** From a value in 0..90, `n` ticks leave the bar in 0..90 and at least `min(90, p + 2n)`:
      the bar never passes 90 and reaches it after at most 45 ticks. */
  lemma {:induction false} TicksReachCap(p: int, ks: seq<int>)
    requires 0 <= p <= 90
    requires forall i :: 0 <= i < |ks| ==> 2 <= ks[i] <= 9
    ensures var r := AfterTicks(Some(p), ks);
            r.Some? && Min(90, p + 2 * |ks|) <= r.value <= 90
    decreases |ks|
  {
    if ks != [] {
      TicksReachCap(NextProgress(Some(p), ks[0]), ks[1..]);
    }
  }

  // ------------------------------------------------------------------ replies

  /** What `lidService.detectTextLanguage` resolves with, or the exception it rejects with. */
  datatype DetectReply =
    | DetectAnswered(success: bool, topLanguage: string, languageName: string, error: Option<string>)
    | DetectThrew(message: Option<string>)

  /** What `mtService.translate` resolves with, or the exception it rejects with. */
  datatype TranslateReply =
    | Translated(translation: string)
    | TranslateThrew(message: Option<string>)

  /** The error a detection reply leaves on the page, if any: an unsuccessful answer is
      re-thrown with its own error (or a default), and the handler shows the caught message
      (or a default). The message is never empty. */
  function DetectError(reply: DetectReply): (r: Option<string>)
    ensures r.None? <==> reply.DetectAnswered? && reply.success
    ensures r.Some? ==> r.value != ""
    ensures reply.DetectAnswered? && !reply.success ==>
              r == Some(OptOrElse(reply.error, "Language detection failed"))
    ensures reply.DetectThrew? ==> r == Some(OptOrElse(reply.message, "Detection failed"))
  {
    match reply
    case DetectAnswered(success, _, _, error) =>
      if success then None
      else Some(OptOrElse(Some(OptOrElse(error, "Language detection failed")), "Detection failed"))
    case DetectThrew(message) => Some(OptOrElse(message, "Detection failed"))
  }

  /** Requests in flight. */
  datatype Request =
    | DetectRequest(text: string)
    | TranslateRequest(text: string, source: string, target: string, model: MtModel)
    | SpeechRequest(body: TtsService.SpeechRequest)
    | SaveChatRequest(translation: string)   // `chatService.saveChat`, inside `handleTranslate`

  // ------------------------------------------------------------------ page state

  /** The page's state variables, as one value. */
  datatype ChatState = ChatState(
    step: int, inputText: string, detectedLang: string, detectedLangName: string,
    tgtLang: string, mtModel: MtModel, mtResult: Option<string>,
    ttsModel: TtsService.TtsModel, audioUrl: Option<string>,
    loading: bool, error: Option<string>, progress: Option<int>,
    pending: Option<Request>, hideTimers: nat)

  /** No language is both global and Indic. */
  ghost predicate Exclusive(isGlobal: string -> bool, isIndic: string -> bool) {
    forall lang :: !(isGlobal(lang) && isIndic(lang))
  }

  class TextChat {
    const isGlobal: string -> bool
    const isIndic: string -> bool
    /** The TTS service's base URL. */
    const apiBase: string

    var step: int
    var inputText: string
    var detectedLang: string
    var detectedLangName: string
    var tgtLang: string
    var mtModel: MtModel
    var mtResult: Option<string>
    var ttsModel: TtsService.TtsModel
    var audioUrl: Option<string>
    var loading: bool
    var error: Option<string>
    var progress: Option<int>
    /** The request whose reply is awaited. */
    var pending: Option<Request>
    /** Hide timers started by `stopProgress` that have not fired yet. */
    var hideTimers: nat

    ghost function View(): ChatState
      reads this
    {
      ChatState(step, inputText, detectedLang, detectedLangName, tgtLang, mtModel, mtResult,
                ttsModel, audioUrl, loading, error, progress, pending, hideTimers)
    }

    /** The step is 1, 2 or 3, and step 3 is only reached with a translation; `loading` holds
        exactly while a reply is awaited; the bar is hidden, in 0..90, or at 100 (only
        after the request ended); no error is shown while loading, and an error shown is
        never empty; and no chosen model is one the target disables. */
    ghost predicate Valid()
      reads this
    {
      Exclusive(isGlobal, isIndic) &&
      1 <= step <= 3 &&
      (step == 3 ==> mtResult.Some?) &&
      (loading <==> pending.Some?) &&
      (progress.Some? ==> 0 <= progress.value <= 90 || progress.value == 100) &&
      (loading && progress.Some? ==> progress.value <= 90) &&
      (loading ==> error.None?) &&
      (error.Some? ==> error.value != "") &&
      MtEnabled(isGlobal(tgtLang), isIndic(tgtLang), mtModel) &&
      TtsEnabled(isGlobal(tgtLang), isIndic(tgtLang), ttsModel)
    }

    /** The initial state, after the two effects have run once on mount. `env` is the
        environment's `VITE_API_BASE_URL`. */
    constructor(isGlobal: string -> bool, isIndic: string -> bool, env: Option<string>)
      requires Exclusive(isGlobal, isIndic)
      ensures Valid()
      ensures this.isGlobal == isGlobal && this.isIndic == isIndic
      ensures apiBase == TtsService.ApiBaseUrl(env)
      ensures View() == ChatState(1, "", "en", "", "hi",
                                  AdjustMtModel(isGlobal("hi"), isIndic("hi"), IndicTrans),
                                  None, TtsService.Auto, None, false, None, None, None, 0)
    {
      this.isGlobal := isGlobal;
      this.isIndic := isIndic;
      this.apiBase := TtsService.ApiBaseUrl(env);
      step := 1;
      inputText := "";
      detectedLang := "en";
      detectedLangName := "";
      tgtLang := "hi";
      mtModel := AdjustMtModel(isGlobal("hi"), isIndic("hi"), IndicTrans);
      mtResult := None;
      ttsModel := AdjustTtsModel(isGlobal("hi"), isIndic("hi"), TtsService.Auto);
      audioUrl := None;
      loading := false;
      error := None;
      progress := None;
      pending := None;
      hideTimers := 0;
      AdjustedModelsEnabled(isGlobal("hi"), isIndic("hi"), IndicTrans, TtsService.Auto);
    }

    /** Typing in the step-1 text area. */
    method SetInputText(text: string)
      requires Valid() && step == 1
      modifies this
      ensures Valid()
      ensures View() == old(View()).(inputText := text)
    {
      inputText := text;
    }

    /** The synchronous part shared by every request: `setLoading(true)`, `setError(null)`
        and `startProgress()`. */
    method Begin(request: Request)
      requires Valid() && !loading
      modifies this
      ensures Valid()
      ensures View() == old(View()).(loading := true, error := None, progress := Some(0),
                                     pending := Some(request))
    {
      loading := true;
      error := None;
      progress := Some(0);
      pending := Some(request);
    }

    /** The `finally` part shared by every request: `stopProgress` (bar at 100, a hide timer
        started) and `setLoading(false)`. */
    method End()
      requires Valid() && loading
      modifies this
      ensures Valid()
      ensures View() == old(View()).(loading := false, progress := Some(100), pending := None,
                                     hideTimers := old(hideTimers) + 1)
    {
      progress := Some(100);
      hideTimers := hideTimers + 1;
      loading := false;
      pending := None;
    }

    /** A tick of the progress interval, which runs while a request is in flight. */
    method Tick(k: int)
      requires Valid() && loading && 2 <= k <= 9
      modifies this
      ensures Valid()
      ensures View() == old(View()).(progress := Some(NextProgress(old(progress), k)))
    {
      progress := Some(NextProgress(progress, k));
    }

    /** A hide timer firing: the bar disappears, even if a newer request has started. */
    method HideProgress()
      requires Valid() && hideTimers > 0
      modifies this
      ensures Valid()
      ensures View() == old(View()).(progress := None, hideTimers := old(hideTimers) - 1)
    {
      progress := None;
      hideTimers := hideTimers - 1;
    }

    /** `handleDetect`, up to the request: nothing happens for a blank input. */
    method DetectStart()
      requires Valid() && step == 1 && !loading
      modifies this
      ensures Valid()
      ensures IsBlank(old(inputText), JsWhitespace) ==> View() == old(View())
      ensures !IsBlank(old(inputText), JsWhitespace) ==>
                View() == old(View()).(loading := true, error := None, progress := Some(0),
                                       pending := Some(DetectRequest(old(inputText))))
    {
      if Strip(inputText, JsWhitespace) == [] {
        return;
      }
      Begin(DetectRequest(inputText));
    }

    /** `handleDetect`, after the reply: a successful answer records the language and moves
        to step 2; anything else only sets the error. */
    method DetectFinish(reply: DetectReply)
      requires Valid() && pending.Some? && pending.value.DetectRequest?
      modifies this
      ensures Valid()
      ensures DetectError(reply).None? ==>
                View() == old(View()).(detectedLang := reply.topLanguage,
                                       detectedLangName := reply.languageName, step := 2,
                                       loading := false, progress := Some(100), pending := None,
                                       hideTimers := old(hideTimers) + 1)
      ensures DetectError(reply).Some? ==>
                View() == old(View()).(error := DetectError(reply),
                                       loading := false, progress := Some(100), pending := None,
                                       hideTimers := old(hideTimers) + 1)
    {
      var failure := DetectError(reply);
      End();
      if failure.None? {
        detectedLang := reply.topLanguage;
        detectedLangName := reply.languageName;
        step := 2;
      } else {
        error := failure;
      }
    }

    /** Choosing a target language; the two effects run only when the value changes. The
        step-2 panel stays mounted on step 3 (dimmed, but reachable from the keyboard). */
    method SetTargetLanguage(lang: string)
      requires Valid() && step >= 2
      modifies this
      ensures Valid()
      ensures lang == old(tgtLang) ==> View() == old(View())
      ensures lang != old(tgtLang) ==>
                View() == old(View()).(tgtLang := lang,
                                       mtModel := AdjustMtModel(isGlobal(lang), isIndic(lang), old(mtModel)),
                                       ttsModel := AdjustTtsModel(isGlobal(lang), isIndic(lang), old(ttsModel)))
    {
      if lang == tgtLang {
        return;
      }
      tgtLang := lang;
      AdjustedModelsEnabled(isGlobal(lang), isIndic(lang), mtModel, ttsModel);
      mtModel := AdjustMtModel(isGlobal(lang), isIndic(lang), mtModel);
      ttsModel := AdjustTtsModel(isGlobal(lang), isIndic(lang), ttsModel);
    }

    /** Clicking an enabled translation-model button, on step 2 or the dimmed panel of step 3. */
    method SelectMtModel(model: MtModel)
      requires Valid() && step >= 2 && MtEnabled(isGlobal(tgtLang), isIndic(tgtLang), model)
      modifies this
      ensures Valid()
      ensures View() == old(View()).(mtModel := model)
    {
      mtModel := model;
    }

    /** Clicking an enabled speech-model button. */
    method SelectTtsModel(model: TtsService.TtsModel)
      requires Valid() && step == 3 && TtsEnabled(isGlobal(tgtLang), isIndic(tgtLang), model)
      modifies this
      ensures Valid()
      ensures View() == old(View()).(ttsModel := model)
    {
      ttsModel := model;
    }

    /** `handleTranslate`, up to the request: nothing happens for an empty input. "Run
        Translation"/"Retranslate" is disabled only while loading. */
    method TranslateStart()
      requires Valid() && step >= 2 && !loading
      modifies this
      ensures Valid()
      ensures old(inputText) == "" ==> View() == old(View())
      ensures old(inputText) != "" ==>
                View() == old(View()).(loading := true, error := None, progress := Some(0),
                                       pending := Some(TranslateRequest(old(inputText), old(detectedLang),
                                                                        old(tgtLang), old(mtModel))))
    {
      if inputText == "" {
        return;
      }
      Begin(TranslateRequest(inputText, detectedLang, tgtLang, mtModel));
    }

    /** `handleTranslate`, after the translation reply: a translation is shown at once; for a
        signed-in user (`signedIn`: an access token is stored) the chat is then saved,
        which is awaited while still loading; otherwise, and after an exception, the
        request ends. The error stays cleared after a translation. */
    method TranslateFinish(reply: TranslateReply, signedIn: bool)
      requires Valid() && pending.Some? && pending.value.TranslateRequest?
      modifies this
      ensures Valid()
      ensures reply.Translated? ==> error.None? && mtResult == Some(reply.translation)
      ensures reply.Translated? && signedIn ==>
                View() == old(View()).(mtResult := Some(reply.translation),
                                       pending := Some(SaveChatRequest(reply.translation)))
      ensures reply.Translated? && !signedIn ==>
                View() == old(View()).(mtResult := Some(reply.translation),
                                       loading := false, progress := Some(100), pending := None,
                                       hideTimers := old(hideTimers) + 1)
      ensures reply.TranslateThrew? ==>
                View() == old(View()).(error := Some(OptOrElse(reply.message, "Translation failed")),
                                       loading := false, progress := Some(100), pending := None,
                                       hideTimers := old(hideTimers) + 1)
    {
      match reply {
        case Translated(translation) =>
          mtResult := Some(translation);
          if signedIn {
            pending := Some(SaveChatRequest(translation));
          } else {
            End();
          }
        case TranslateThrew(message) =>
          End();
          error := Some(OptOrElse(message, "Translation failed"));
      }
    }

    /** `handleTranslate`, after saving the chat: a failure is only logged, so either way
        the request ends with the translation kept and no error. */
    method SaveChatFinish()
      requires Valid() && pending.Some? && pending.value.SaveChatRequest?
      modifies this
      ensures Valid()
      ensures error.None?
      ensures View() == old(View()).(loading := false, progress := Some(100), pending := None,
                                     hideTimers := old(hideTimers) + 1)
    {
      End();
    }

    /** "Continue to TTS", offered once there is a translation, not disabled while loading,
        and still reachable on step 3, where it changes nothing. */
    method Continue()
      requires Valid() && step >= 2 && Truthy(mtResult)
      modifies this
      ensures Valid()
      ensures View() == old(View()).(step := 3)
    {
      step := 3;
    }

    /** "Back" on step 3. */
    method Back()
      requires Valid() && step == 3
      modifies this
      ensures Valid()
      ensures View() == old(View()).(step := 2)
    {
      step := 2;
    }

    /** `handleGenerateSpeech`, up to the request: nothing happens without a translation;
        otherwise the previous audio is cleared too. */
    method SpeechStart()
      requires Valid() && step == 3 && !loading
      modifies this
      ensures Valid()
      ensures !Truthy(old(mtResult)) ==> View() == old(View())
      ensures Truthy(old(mtResult)) ==>
                View() == old(View()).(loading := true, error := None, progress := Some(0),
                                       audioUrl := None,
                                       pending := Some(SpeechRequest(TtsService.BuildRequest(
                                         old(mtResult).value, old(tgtLang), Some(old(ttsModel))))))
    {
      if !Truthy(mtResult) {
        return;
      }
      var request := SpeechRequest(TtsService.BuildRequest(mtResult.value, tgtLang, Some(ttsModel)));
      Begin(request);
      audioUrl := None;
    }

    /** `handleGenerateSpeech`, after the reply: the audio URL is derived from the returned
        path; an exception sets the error. */
    method SpeechFinish(reply: TtsService.SpeechReply)
      requires Valid() && pending.Some? && pending.value.SpeechRequest?
      modifies this
      ensures Valid()
      ensures reply.SpeechGenerated? ==>
                View() == old(View()).(audioUrl := Some(TtsService.GetAudioUrl(apiBase, reply.audioPath)),
                                       loading := false, progress := Some(100), pending := None,
                                       hideTimers := old(hideTimers) + 1)
      ensures reply.SpeechThrew? ==>
                View() == old(View()).(error := Some(OptOrElse(reply.message, "TTS generation failed")),
                                       loading := false, progress := Some(100), pending := None,
                                       hideTimers := old(hideTimers) + 1)
    {
      End();
      match reply {
        case SpeechGenerated(audioPath, _) =>
          audioUrl := Some(TtsService.GetAudioUrl(apiBase, audioPath));
        case SpeechThrew(message) =>
          error := Some(OptOrElse(message, "TTS generation failed"));
      }
    }

    /** "Return to Chat", offered on step 3 once there is audio: back to an empty step 1,
        resetting exactly the input, the detection, the translation and the audio. */
    method ReturnToChat()
      requires Valid() && step == 3 && Truthy(audioUrl)
      modifies this
      ensures Valid()
      ensures View() == old(View()).(step := 1, inputText := "", mtResult := None, audioUrl := None,
                                     detectedLang := "en", detectedLangName := "")
    {
      step := 1;
      inputText := "";
      mtResult := None;
      audioUrl := None;
      detectedLang := "en";
      detectedLangName := "";
    }
  }
}
