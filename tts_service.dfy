/** The front-end TTS service: the audio URL built from a server-side path (`getAudioUrl`)
    and the request/response rule of `generateSpeech`. The HTTP transport is abstracted:
    the status and the decoded body of the reply are inputs. */
module TtsService {
  import opened Common

  /** The base URL this service uses when `VITE_API_BASE_URL` is not set (or empty); it
      differs from the default of the shared API configuration. */
  const DefaultApiBase: string := "http://localhost:8000"

  /** The service's own `API_BASE_URL`: the environment's value, or the local default. */
  function ApiBaseUrl(env: Option<string>): (r: string)
    ensures Truthy(env) ==> r == env.value
    ensures !Truthy(env) ==> r == DefaultApiBase
  {
    OptOrElse(env, DefaultApiBase)
  }

  /** Both path separators `getAudioUrl` splits on. */
  const PathSeparators: set<char> := {'/', '\\'}

  predicate EndsWithSeparator(path: string) {
    |path| > 0 && path[|path| - 1] in PathSeparators
  }

  /** `audioPath.split(/[/\\]/).pop() || audioPath`: always a suffix of the path. */
  function AudioFilename(audioPath: string): (r: string)
    ensures |r| <= |audioPath| && r == audioPath[|audioPath| - |r|..]
  {
    SplitLastIsSuffix(audioPath, PathSeparators);
    OrElse(Last(Split(audioPath, PathSeparators)), audioPath)
  }

  /** `getAudioUrl(audioPath)` against the base URL `base`. */
  function GetAudioUrl(base: string, audioPath: string): (r: string)
    ensures |r| >= |base| + 11 && r[..|base|] == base && r[|base|..|base| + 11] == "/tts/audio/"
    ensures exists k :: 0 <= k <= |audioPath| && r[|base| + 11..] == audioPath[k..]
  {
    base + "/tts/audio/" + AudioFilename(audioPath)
  }

  /** For a path not ending in a separator, the filename is the suffix after the last
      separator (the whole path when there is none), and contains no separator. */
  lemma {:induction false} FilenameIsLastSegment(audioPath: string)
    requires !EndsWithSeparator(audioPath)
    ensures var f := AudioFilename(audioPath);
            var k := |audioPath| - |f|;
            audioPath[k..] == f && HasNone(f, PathSeparators) &&
            (k > 0 ==> audioPath[k - 1] in PathSeparators)
  {
    var parts := Split(audioPath, PathSeparators);
    SplitLastIsSuffix(audioPath, PathSeparators);
    SplitPartsHaveNoSeparator(audioPath, PathSeparators);
    assert HasNone(Last(parts), PathSeparators);
    if audioPath != "" {
      assert audioPath[|audioPath| - 1] !in PathSeparators;
      assert Last(parts) != "";
    }
  }

  /** A path without any separator is its own filename. */
  lemma PathWithoutSeparator(audioPath: string)
    requires HasNone(audioPath, PathSeparators)
    ensures AudioFilename(audioPath) == audioPath
  {
    SplitWithoutSeparator(audioPath, PathSeparators);
  }

  /** A path ending in a separator has an empty last segment, so the whole path is used. */
  lemma {:induction false} TrailingSeparatorUsesWholePath(audioPath: string)
    requires EndsWithSeparator(audioPath)
    ensures AudioFilename(audioPath) == audioPath
    ensures Last(Split(audioPath, PathSeparators)) == ""
  {
    var parts := Split(audioPath, PathSeparators);
    SplitLastIsSuffix(audioPath, PathSeparators);
    SplitPartsHaveNoSeparator(audioPath, PathSeparators);
    assert HasNone(Last(parts), PathSeparators);
  }

  /** Writing any of the separators of a path that does not end in a separator as the
      other kind, at any chosen positions, leaves the filename unchanged. */
  lemma SwappedSeparatorsSameFilename(audioPath: string, rewritten: string)
    requires !EndsWithSeparator(audioPath)
    requires SameSeparatorPositions(audioPath, rewritten, PathSeparators)
    ensures AudioFilename(rewritten) == AudioFilename(audioPath)
  {
    SplitIgnoresWhichSeparator(audioPath, rewritten, PathSeparators);
    var last := Last(Split(audioPath, PathSeparators));
    SplitLastIsSuffix(audioPath, PathSeparators);
    if audioPath != "" {
      assert audioPath[|audioPath| - 1] !in PathSeparators;
      assert last != "";
    } else {
      assert rewritten == "";
    }
  }

  /** The same holds for the audio URL. */
  lemma SeparatorKindIrrelevant(base: string, audioPath: string, rewritten: string)
    requires !EndsWithSeparator(audioPath)
    requires SameSeparatorPositions(audioPath, rewritten, PathSeparators)
    ensures GetAudioUrl(base, rewritten) == GetAudioUrl(base, audioPath)
  {
    SwappedSeparatorsSameFilename(audioPath, rewritten);
  }

  // ------------------------------------------------------------------ generateSpeech

  datatype TtsModel = Xtts | Gtts | Indic | Auto

  /** The JSON body posted to `/tts/generate`. */
  datatype SpeechRequest = SpeechRequest(text: string, langCode: string, model: TtsModel)

  /** The request built from the arguments; the model parameter defaults to `'auto'`. */
  function BuildRequest(text: string, langCode: string, model: Option<TtsModel>): (r: SpeechRequest)
    ensures r.text == text && r.langCode == langCode
    ensures model.Some? ==> r.model == model.value
    ensures model.None? ==> r.model == Auto
  {
    SpeechRequest(text, langCode, if model.Some? then model.value else Auto)
  }

  /** The server's answer to a successful request. */
  datatype TtsResponse = TtsResponse(success: bool, audioPath: string, message: string, modelUsed: string)

  /** A reply: its status, the `detail` field of its JSON body when the body is an object
      with one, and the decoded response when the body parses as one. */
  datatype HttpReply = HttpReply(status: int, detail: Option<string>, body: Option<TtsResponse>)

  datatype SpeechError =
    | HttpError(message: string)   // the `Error` thrown for a non-2xx status
    | InvalidBody                  // `res.json()` rejecting an OK reply

  predicate StatusOk(status: int) {
    200 <= status <= 299
  }

  /** `HTTP <status>`: the prefix, then a minus sign exactly for a negative status, then
      digits. */
  function StatusMessage(status: int): (r: string)
    ensures |r| > 5 && r[..5] == "HTTP "
    ensures r[5] == '-' <==> status < 0
    ensures forall i :: (if status < 0 then 6 else 5) <= i < |r| ==> '0' <= r[i] <= '9'
  {
    "HTTP " + (if status < 0 then "-" + DecimalString(-status) else DecimalString(status))
  }

  /** The outcome `generateSpeech` resolves or rejects with for a reply. */
  function SpeechOutcome(reply: HttpReply): (r: Result<TtsResponse, SpeechError>)
    ensures r.Success? <==> StatusOk(reply.status) && reply.body.Some?
    ensures r.Success? ==> r.value == reply.body.value
    ensures !StatusOk(reply.status) ==> r.Failure? && r.error.HttpError?
    ensures !StatusOk(reply.status) && Truthy(reply.detail) ==> r == Failure(HttpError(reply.detail.value))
    ensures !StatusOk(reply.status) && !Truthy(reply.detail) ==> r == Failure(HttpError(StatusMessage(reply.status)))
  {
    if !StatusOk(reply.status) then Failure(HttpError(OptOrElse(reply.detail, StatusMessage(reply.status))))
    else if reply.body.Some? then Success(reply.body.value)
    else Failure(InvalidBody)
  }

  /** How a call to `generateSpeech` ends, as a page sees it: the response's audio path
      and model, or the message of the exception (absent when it has none). */
  datatype SpeechReply =
    | SpeechGenerated(audioPath: string, modelUsed: string)
    | SpeechThrew(message: Option<string>)

  /** What a page's `await ttsService.generateSpeech(...)` yields: the response's path and
      model, or the thrown error's message. `parseError` is the message of the exception
      `res.json()` raises for an OK reply that does not parse. */
  function ToSpeechReply(outcome: Result<TtsResponse, SpeechError>, parseError: Option<string>): (r: SpeechReply)
    ensures outcome.Success? ==> r == SpeechGenerated(outcome.value.audioPath, outcome.value.modelUsed)
    ensures outcome.Failure? && outcome.error.HttpError? ==> r == SpeechThrew(Some(outcome.error.message))
    ensures outcome.Failure? && outcome.error.InvalidBody? ==> r == SpeechThrew(parseError)
  {
    match outcome
    case Success(response) => SpeechGenerated(response.audioPath, response.modelUsed)
    case Failure(HttpError(message)) => SpeechThrew(Some(message))
    case Failure(InvalidBody) => SpeechThrew(parseError)
  }

  /** A non-2xx reply reaches a page as an exception whose message is the body's `detail`
      or `HTTP <status>`; that message is never empty, so the page shows it rather than its
      own fallback text. */
  lemma HttpErrorReachesPage(reply: HttpReply, parseError: Option<string>, fallback: string)
    requires !StatusOk(reply.status)
    ensures var r := ToSpeechReply(SpeechOutcome(reply), parseError);
            var shown := if Truthy(reply.detail) then reply.detail.value else StatusMessage(reply.status);
            r == SpeechThrew(Some(shown)) && shown != "" && OptOrElse(r.message, fallback) == shown
  {
  }

  /** The fallback message names the status: the status is read back from it. */
  lemma {:induction false} StatusMessageNamesStatus(status: nat)
    ensures var m := StatusMessage(status);
            |m| > 5 && m[..5] == "HTTP " &&
            (forall i :: 5 <= i < |m| ==> '0' <= m[i] <= '9') &&
            ParseDecimal(m[5..]) == status
  {
    var m := StatusMessage(status);
    assert m[5..] == DecimalString(status);
    DecimalRoundTrip(status);
  }
}
