/** The standalone text-to-speech page: its state taken from the navigation that opened
    it, the generate handler, and the name under which the audio is downloaded. */
module TtsPage {
  import opened Common
  import TtsService

  predicate EndsWith(s: string, suffix: string) {
    |suffix| <= |s| && s[|s| - |suffix|..] == suffix
  }

  /** The name `handleDownload` gives the file: the URL's last `/`-segment, or, when that
      is empty, `tts_<now>.mp3` or `tts_<now>.wav` by the URL's ending. `now` stands for
      `Date.now()`. */
  function DownloadFilename(audioUrl: string, now: nat): (r: string)
    ensures r != ""
    ensures (EndsWith(audioUrl, r) && HasNone(r, {'/'})) || (|r| > 4 && r[..4] == "tts_")
  {
    var segment := Last(Split(audioUrl, {'/'}));
    SplitLastIsSuffix(audioUrl, {'/'});
    SplitPartsHaveNoSeparator(audioUrl, {'/'});
    OrElse(segment, "tts_" + DecimalString(now) + "." + (if EndsWith(audioUrl, ".mp3") then "mp3" else "wav"))
  }

  /** The generated name, for a URL whose last segment is empty. */
  function FallbackName(now: nat): string {
    "tts_" + DecimalString(now) + ".wav"
  }

  /** The download name never contains `/`. When the URL does not end in `/` it is the
      suffix after the URL's last `/`; otherwise (a URL that cannot end in `.mp3`) it is
      the generated `.wav` name. */
  lemma {:induction false} DownloadFilenameShape(audioUrl: string, now: nat)
    ensures HasNone(DownloadFilename(audioUrl, now), {'/'})
    ensures audioUrl != "" && audioUrl[|audioUrl| - 1] != '/' ==>
              var f := DownloadFilename(audioUrl, now);
              f != "" && |f| <= |audioUrl| && audioUrl[|audioUrl| - |f|..] == f &&
              (|f| < |audioUrl| ==> audioUrl[|audioUrl| - |f| - 1] == '/')
    ensures audioUrl == "" || audioUrl[|audioUrl| - 1] == '/' ==>
              DownloadFilename(audioUrl, now) == FallbackName(now)
  {
    var segment := Last(Split(audioUrl, {'/'}));
    SplitLastIsSuffix(audioUrl, {'/'});
    SplitPartsHaveNoSeparator(audioUrl, {'/'});
    assert HasNone(segment, {'/'});
    if audioUrl != "" && audioUrl[|audioUrl| - 1] != '/' {
      assert segment != "";
    } else {
      assert !EndsWith(audioUrl, ".mp3") by {
        if |audioUrl| >= 4 {
          assert audioUrl[|audioUrl| - 4..][3] == audioUrl[|audioUrl| - 1];
        }
      }
      var fallback := "tts_" + DecimalString(now) + ".wav";
      assert HasNone(fallback, {'/'}) by {
        forall i | 0 <= i < |fallback| ensures fallback[i] != '/' {
          if 4 <= i < 4 + |DecimalString(now)| {
            assert fallback[i] == DecimalString(now)[i - 4];
          }
        }
      }
    }
  }

  /** The page's state. `text` and `langCode` come from the navigation state. */
  class SpeechPage {
    const text: Option<string>
    const langCode: Option<string>
    /** The TTS service's base URL. */
    const apiBase: string

    var selectedModel: TtsService.TtsModel
    var selectedLang: string
    var loading: bool
    var audioUrl: Option<string>
    var error: Option<string>
    /** The request whose reply is awaited. */
    var pending: Option<TtsService.SpeechRequest>

    /** A request is awaited exactly while loading, and meanwhile no error is shown; an
        error shown is never empty. */
    ghost predicate Valid()
      reads this
    {
      (loading <==> pending.Some?) && (loading ==> error.None?) &&
      (error.Some? ==> error.value != "") &&
      (text.Some? ==> text.value != "") && (langCode.Some? ==> langCode.value != "")
    }

    /** `state.text || null`, `state.lang_code || null`; the language starts as the given
        code, else Hindi, and the model as `auto`. `env` is the environment's
        `VITE_API_BASE_URL`. */
    constructor(stateText: Option<string>, stateLangCode: Option<string>, env: Option<string>)
      ensures Valid()
      ensures text == (if Truthy(stateText) then stateText else None)
      ensures langCode == (if Truthy(stateLangCode) then stateLangCode else None)
      ensures apiBase == TtsService.ApiBaseUrl(env)
      ensures selectedLang == OptOrElse(stateLangCode, "hi") && selectedModel == TtsService.Auto
      ensures !loading && audioUrl.None? && error.None? && pending.None?
    {
      text := if Truthy(stateText) then stateText else None;
      langCode := if Truthy(stateLangCode) then stateLangCode else None;
      this.apiBase := TtsService.ApiBaseUrl(env);
      selectedModel := TtsService.Auto;
      selectedLang := OptOrElse(if Truthy(stateLangCode) then stateLangCode else None, "hi");
      loading := false;
      audioUrl := None;
      error := None;
      pending := None;
    }

    /** The language selector. */
    method SetLanguage(lang: string)
      requires Valid() && text.Some?
      modifies this
      ensures Valid()
      ensures selectedLang == lang
      ensures selectedModel == old(selectedModel) && loading == old(loading) && audioUrl == old(audioUrl)
      ensures error == old(error) && pending == old(pending)
    {
      selectedLang := lang;
    }

    /** The model radio buttons. */
    method SelectModel(model: TtsService.TtsModel)
      requires Valid() && text.Some?
      modifies this
      ensures Valid()
      ensures selectedModel == model
      ensures selectedLang == old(selectedLang) && loading == old(loading) && audioUrl == old(audioUrl)
      ensures error == old(error) && pending == old(pending)
    {
      selectedModel := model;
    }

    /** `handleGenerateSpeech`, up to the request: nothing happens without text; otherwise
        the error and the previous audio are cleared. */
    method GenerateStart()
      requires Valid() && !loading
      modifies this
      ensures Valid()
      ensures text.None? ==> loading == old(loading) && audioUrl == old(audioUrl) &&
                             error == old(error) && pending == old(pending)
      ensures text.Some? ==> loading && audioUrl.None? && error.None? &&
                             pending == Some(TtsService.BuildRequest(text.value, old(selectedLang),
                                                                     Some(old(selectedModel))))
      ensures selectedLang == old(selectedLang) && selectedModel == old(selectedModel)
    {
      if text.None? {
        return;
      }
      loading := true;
      error := None;
      audioUrl := None;
      pending := Some(TtsService.BuildRequest(text.value, selectedLang, Some(selectedModel)));
    }

    /** `handleGenerateSpeech`, after the reply: the audio URL from the returned path, or
        the exception's message (or a default) as the error; not loading in either case. */
    method GenerateFinish(reply: TtsService.SpeechReply)
      requires Valid() && loading
      modifies this
      ensures Valid()
      ensures !loading && pending.None?
      ensures reply.SpeechGenerated? ==>
                audioUrl == Some(TtsService.GetAudioUrl(apiBase, reply.audioPath)) && error.None?
      ensures reply.SpeechThrew? ==>
                error == Some(OptOrElse(reply.message, "TTS generation failed")) && audioUrl == old(audioUrl)
      ensures selectedLang == old(selectedLang) && selectedModel == old(selectedModel)
    {
      match reply {
        case SpeechGenerated(audioPath, _) =>
          audioUrl := Some(TtsService.GetAudioUrl(apiBase, audioPath));
        case SpeechThrew(message) =>
          error := Some(OptOrElse(message, "TTS generation failed"));
      }
      loading := false;
      pending := None;
    }

    /** `handleDownload`: the name the file is saved under, or nothing without audio. */
    method Download(now: nat) returns (filename: Option<string>)
      requires Valid()
      ensures !Truthy(audioUrl) ==> filename.None?
      ensures Truthy(audioUrl) ==> filename == Some(DownloadFilename(audioUrl.value, now))
    {
      if !Truthy(audioUrl) {
        return None;
      }
      filename := Some(DownloadFilename(audioUrl.value, now));
    }
  }
}
