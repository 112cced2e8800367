/** The HTTP route layer: how a request becomes a response or an error
    status. Each handler body runs inside a `try` whose `except ValueError`
    answers 400 with the message and whose `except Exception` answers 500
    with a fixed detail. The loaded model handles are an explicit input. */
module TranslatorRoutes {
  import opened Results
  import opened Text
  import opened Sorting
  import TS = TranslationService
  import LD = LanguageDetection

  /** The process-wide handles, each absent when its load failed. The
      tokenizer is loaded together with the model and is part of `Engine`. */
  datatype ModelHandles = ModelHandles(detector: Option<LD.Ranker>, translator: Option<TS.Engine>)

  datatype DetectRequest = DetectRequest(text: string)

  datatype DetectResponse = DetectResponse(detectedLanguage: string, languageName: string, confidence: real)

  datatype TranslateRequest = TranslateRequest(text: string, sourceLanguage: Option<string>, targetLanguage: string)

  datatype TranslateResponse = TranslateResponse(
    originalText: string,
    translatedText: string,
    sourceLanguage: string,
    sourceLanguageName: string,
    targetLanguage: string,
    targetLanguageName: string,
    confidence: real)

  /** What the client receives: a body, or a status with a detail text. */
  datatype Reply<T> = Success(body: T) | HttpError(status: int, detail: string)

  datatype LanguageEntry = LanguageEntry(code: string, name: string)

  datatype LanguageListing = LanguageListing(count: int, languages: seq<LanguageEntry>)

  const DetectFailedDetail := "Language detection failed"
  const TranslateFailedDetail := "Translation failed"
  const DetectorMissingDetail := "Language detection model not loaded"
  const ModelsMissingDetail := "ML models not loaded"

  /** The `except ValueError` / `except Exception` pair as written: a
      `ValueError` answers 400 with its message, anything else, an
      `HTTPException` raised in the body included, answers 500. */
  function Catch<T>(outcome: Result<T, Exception>, fallback: string): (r: Reply<T>)
    ensures r.HttpError? ==> r.status == 400 || r.status == 500
    ensures r.Success? <==> outcome.Ok?
    ensures outcome.Ok? ==> r == Success(outcome.value)
    ensures outcome.Err? && outcome.error.ValueError? ==> r == HttpError(400, outcome.error.message)
    ensures outcome.Err? && !outcome.error.ValueError? ==> r == HttpError(500, fallback)
  {
    match outcome
    case Ok(body) => Success(body)
    case Err(ValueError(message)) => HttpError(400, message)
    case Err(_) => HttpError(500, fallback)
  }

  /** The handlers as evidently meant: an `HTTPException` raised in the body
      reaches the client with its own status and detail. */
  function CatchKeepingHttp<T>(outcome: Result<T, Exception>, fallback: string): (r: Reply<T>)
    ensures outcome.Err? && outcome.error.HttpException? ==> r == HttpError(outcome.error.status, outcome.error.detail)
    ensures !(outcome.Err? && outcome.error.HttpException?) ==> r == Catch(outcome, fallback)
  {
    match outcome
    case Err(HttpException(status, detail)) => HttpError(status, detail)
    case _ => Catch(outcome, fallback)
  }

  /** The body of the `try` in `detect_language`. */
  function DetectBody(request: DetectRequest, handles: ModelHandles): (r: Result<DetectResponse, Exception>)
    ensures handles.detector.None? ==> r == Err(HttpException(503, DetectorMissingDetail))
    ensures handles.detector.Some? ==>
              var d := LD.Detect(request.text, handles.detector.value);
              && (d.Ok? ==> r == Ok(DetectResponse(d.value.code, d.value.name, d.value.confidence)))
              && (d.Err? ==> r == Err(d.error))
  {
    if handles.detector.None? then Err(HttpException(503, DetectorMissingDetail))
    else
      match LD.Detect(request.text, handles.detector.value)
      case Ok(d) => Ok(DetectResponse(d.code, d.name, d.confidence))
      case Err(e) => Err(e)
  }

  /** `POST /detect-language` as written. With a detector, the detection's
      fields come back as they are, and its `ValueError` is a 400 with the
      same message. Without one, the 503 raised inside the `try` is caught
      by the generic handler and the client sees 500. */
  function DetectLanguage(request: DetectRequest, handles: ModelHandles): (r: Reply<DetectResponse>)
    ensures r.HttpError? ==> r.status == 400 || r.status == 500
    ensures handles.detector.None? ==> r == HttpError(500, DetectFailedDetail)
    ensures handles.detector.Some? ==>
              var d := LD.Detect(request.text, handles.detector.value);
              && (d.Ok? ==> r == Success(DetectResponse(d.value.code, d.value.name, d.value.confidence)))
              && (d.Err? ==> r == HttpError(400, d.error.message))
  {
    Catch(DetectBody(request, handles), DetectFailedDetail)
  }

  /** `POST /detect-language` with the 503 reaching the client. */
  function DetectLanguageIntended(request: DetectRequest, handles: ModelHandles): (r: Reply<DetectResponse>)
    ensures handles.detector.None? ==> r == HttpError(503, DetectorMissingDetail)
    ensures handles.detector.Some? ==> r == DetectLanguage(request, handles)
  {
    CatchKeepingHttp(DetectBody(request, handles), DetectFailedDetail)
  }

  /** The blank and too-short checks of the detector reach the client as
      400 with the detector's message. */
  lemma DetectRejectsShortText(request: DetectRequest, handles: ModelHandles)
    requires handles.detector.Some?
    requires |Strip(request.text)| < LD.MinTextLength
    ensures IsBlank(request.text) ==> DetectLanguage(request, handles) == HttpError(400, LD.EmptyTextMessage)
    ensures !IsBlank(request.text) ==> DetectLanguage(request, handles) == HttpError(400, LD.TooShortMessage)
  {
  }

  /** As written, no request to `detect_language` is ever answered 503. */
  lemma DetectNever503(request: DetectRequest, handles: ModelHandles)
    ensures DetectLanguage(request, handles).HttpError? ==> DetectLanguage(request, handles).status != 503
    ensures DetectLanguage(request, ModelHandles(None, handles.translator)) == HttpError(500, DetectFailedDetail)
  {
  }

  /** Python truthiness of `request.source_language`: present and not "". */
  predicate Supplied(source: Option<string>) {
    source.Some? && source.value != ""
  }

  /** The source code and its display name: the supplied code with the
      translation table's name, or else the detector's code and name. */
  function ChooseSource(request: TranslateRequest, ranker: LD.Ranker): (r: Result<(string, string), Exception>)
    ensures Supplied(request.sourceLanguage) ==>
              r == Ok((request.sourceLanguage.value, TS.LanguageName(request.sourceLanguage.value)))
    ensures !Supplied(request.sourceLanguage) ==>
              var d := LD.Detect(request.text, ranker);
              && (d.Ok? ==> r == Ok((d.value.code, d.value.name)))
              && (d.Err? ==> r == Err(d.error))
  {
    if Supplied(request.sourceLanguage) then
      var code := request.sourceLanguage.value;
      Ok((code, TS.LanguageName(code)))
    else
      match LD.Detect(request.text, ranker)
      case Ok(d) => Ok((d.code, d.name))
      case Err(e) => Err(e)
  }

  /** The body of the `try` in `translate`. The inner `try` around the target
      name lookup has nothing to catch, since the lookup always returns. */
  function TranslateBody(request: TranslateRequest, handles: ModelHandles): (r: Result<TranslateResponse, Exception>)
    ensures handles.detector.None? || handles.translator.None? ==> r == Err(HttpException(503, ModelsMissingDetail))
    ensures handles.detector.Some? && handles.translator.Some? && r.Err? ==> r.error.ValueError? || r.error.RuntimeError?
    ensures r.Ok? ==>
              && handles.detector.Some? && handles.translator.Some?
              && r.value.originalText == request.text
              && r.value.targetLanguage == request.targetLanguage
              && r.value.targetLanguageName == TS.LanguageName(request.targetLanguage)
              && ChooseSource(request, handles.detector.value) == Ok((r.value.sourceLanguage, r.value.sourceLanguageName))
              && TS.Translate(request.text, r.value.sourceLanguage, request.targetLanguage, handles.translator.value)
                   == Ok(TS.Translation(r.value.translatedText, r.value.confidence))
    ensures handles.detector.Some? && handles.translator.Some? ==>
              var chosen := ChooseSource(request, handles.detector.value);
              && (chosen.Err? ==> r == Err(chosen.error))
              && (chosen.Ok? ==>
                    var translated := TS.Translate(request.text, chosen.value.0, request.targetLanguage, handles.translator.value);
                    && (translated.Err? ==> r == Err(translated.error))
                    && (translated.Ok? ==>
                          r == Ok(TranslateResponse(request.text, translated.value.text, chosen.value.0, chosen.value.1,
                                                    request.targetLanguage, TS.LanguageName(request.targetLanguage),
                                                    translated.value.confidence))))
  {
    if handles.detector.None? || handles.translator.None? then Err(HttpException(503, ModelsMissingDetail))
    else
      match ChooseSource(request, handles.detector.value)
      case Err(e) => Err(e)
      case Ok((source, sourceName)) =>
        var targetName := TS.LanguageName(request.targetLanguage);
        match TS.Translate(request.text, source, request.targetLanguage, handles.translator.value)
        case Err(e) => Err(e)
        case Ok(t) =>
          Ok(TranslateResponse(request.text, t.text, source, sourceName,
                               request.targetLanguage, targetName, t.confidence))
  }

  /** `POST /translate` as written. A success echoes the original text and
      the requested target, names the target through the translation table,
      takes the source as `ChooseSource` says and carries the service's
      translation. Validation from the detector or the service is a 400 with
      its message; a model failure is a 500; and without both handles the 503
      raised inside the `try` is caught and answered 500. */
  function Translate(request: TranslateRequest, handles: ModelHandles): (r: Reply<TranslateResponse>)
    ensures r.HttpError? ==> r.status == 400 || r.status == 500
    ensures handles.detector.None? || handles.translator.None? ==> r == HttpError(500, TranslateFailedDetail)
    ensures r.Success? ==>
              && handles.detector.Some? && handles.translator.Some?
              && r.body.originalText == request.text
              && r.body.targetLanguage == request.targetLanguage
              && r.body.targetLanguageName == TS.LanguageName(request.targetLanguage)
              && ChooseSource(request, handles.detector.value) == Ok((r.body.sourceLanguage, r.body.sourceLanguageName))
              && TS.Translate(request.text, r.body.sourceLanguage, request.targetLanguage, handles.translator.value)
                   == Ok(TS.Translation(r.body.translatedText, r.body.confidence))
    ensures r.Success? && Supplied(request.sourceLanguage) ==>
              r.body.sourceLanguage == request.sourceLanguage.value
              && r.body.sourceLanguageName == TS.LanguageName(request.sourceLanguage.value)
    ensures r.Success? && !Supplied(request.sourceLanguage) ==>
              var d := LD.Detect(request.text, handles.detector.value);
              d.Ok? && r.body.sourceLanguage == d.value.code && r.body.sourceLanguageName == d.value.name
    ensures r.HttpError? && r.status == 400 <==>
              var b := TranslateBody(request, handles); b.Err? && b.error.ValueError?
    ensures r.HttpError? && r.status == 400 ==> r.detail == TranslateBody(request, handles).error.message
    ensures r.HttpError? && r.status == 500 ==> r.detail == TranslateFailedDetail
    ensures handles.detector.Some? && handles.translator.Some? && r.HttpError? && r.status == 500 ==>
              var b := TranslateBody(request, handles); b.Err? && b.error.RuntimeError?
  {
    Catch(TranslateBody(request, handles), TranslateFailedDetail)
  }

  /** `POST /translate` with the 503 reaching the client. */
  function TranslateIntended(request: TranslateRequest, handles: ModelHandles): (r: Reply<TranslateResponse>)
    ensures handles.detector.None? || handles.translator.None? ==> r == HttpError(503, ModelsMissingDetail)
    ensures handles.detector.Some? && handles.translator.Some? ==> r == Translate(request, handles)
  {
    CatchKeepingHttp(TranslateBody(request, handles), TranslateFailedDetail)
  }

  /** As written, no request to `translate` is ever answered 503. */
  lemma TranslateNever503(request: TranslateRequest, handles: ModelHandles)
    ensures Translate(request, handles).HttpError? ==> Translate(request, handles).status != 503
    ensures Translate(request, ModelHandles(handles.detector, None)) == HttpError(500, TranslateFailedDetail)
  {
  }

  /** Without a supplied source, text under three stripped code points is
      refused by the detector with 400 before any translation. */
  lemma UndetectedShortTextIs400(request: TranslateRequest, handles: ModelHandles)
    requires handles.detector.Some? && handles.translator.Some?
    requires !Supplied(request.sourceLanguage)
    requires !IsBlank(request.text) && |Strip(request.text)| < LD.MinTextLength
    ensures Translate(request, handles) == HttpError(400, LD.TooShortMessage)
  {
  }

  /** The same short text passes when a source is supplied: the service only
      asks for some non-space text. */
  lemma SuppliedShortTextPasses(request: TranslateRequest, handles: ModelHandles)
    requires handles.detector.Some? && handles.translator.Some?
    requires Supplied(request.sourceLanguage) && request.sourceLanguage.value == request.targetLanguage
    requires TS.IsSupported(request.targetLanguage)
    requires !IsBlank(request.text) && |Strip(request.text)| < LD.MinTextLength
    ensures Translate(request, handles).Success?
    ensures Translate(request, handles).body.translatedText == request.text
  {
    var source := request.sourceLanguage.value;
    assert ChooseSource(request, handles.detector.value) == Ok((source, TS.LanguageName(source)));
    assert TS.Translate(request.text, source, request.targetLanguage, handles.translator.value)
           == Ok(TS.Translation(request.text, 1.0));
  }

  /** A supplied source keeps the detector out of it: any two detectors give
      the same answer. */
  lemma SuppliedSourceSkipsDetector(request: TranslateRequest, r1: LD.Ranker, r2: LD.Ranker, engine: TS.Engine)
    requires Supplied(request.sourceLanguage)
    ensures Translate(request, ModelHandles(Some(r1), Some(engine))) == Translate(request, ModelHandles(Some(r2), Some(engine)))
  {
  }

  /** A detected code the translation table lacks ("zh-cn", "ca", "no", ...)
      is a 400 naming it, not a model failure. */
  lemma UntranslatableDetectionIs400(request: TranslateRequest, handles: ModelHandles)
    requires handles.detector.Some? && handles.translator.Some?
    requires !Supplied(request.sourceLanguage)
    requires LD.Detect(request.text, handles.detector.value).Ok?
    requires !TS.IsSupported(LD.Detect(request.text, handles.detector.value).value.code)
    requires |Strip(request.text)| <= TS.MaxTextLength
    ensures Translate(request, handles)
            == HttpError(400, "Unsupported source language: " + LD.Detect(request.text, handles.detector.value).value.code)
  {
  }

  /** A model failure is always a 500 with the fixed detail, never a 400. */
  lemma EngineFailureIs500(request: TranslateRequest, handles: ModelHandles, source: string, message: string)
    requires handles.detector.Some? && handles.translator.Some?
    requires ChooseSource(request, handles.detector.value).Ok?
    requires source == ChooseSource(request, handles.detector.value).value.0
    requires TS.Admissible(request.text, source, request.targetLanguage) && source != request.targetLanguage
    requires handles.translator.value(request.text, TS.Locale(source), TS.Locale(request.targetLanguage)) == Err(message)
    ensures Translate(request, handles) == HttpError(500, TranslateFailedDetail)
  {
  }

  /** The list comprehension of `get_supported_languages`: each code paired
      with the name `name` gives it, in the given order. */
  function Entries(codes: seq<string>, name: string -> string): (r: seq<LanguageEntry>)
    ensures |r| == |codes|
    ensures forall i :: 0 <= i < |codes| ==> r[i] == LanguageEntry(codes[i], name(codes[i]))
  {
    if codes == [] then [] else [LanguageEntry(codes[0], name(codes[0]))] + Entries(codes[1..], name)
  }

  /** The listing `get_supported_languages` builds from a list of codes
      without duplicates and a name lookup: the codes sorted, each paired
      with its name, and their number. */
  method ListLanguages(codes: seq<string>, name: string -> string) returns (r: LanguageListing)
    requires Distinct(codes)
    ensures r.count == |r.languages|
    ensures forall c :: c in codes <==> exists i :: 0 <= i < |r.languages| && r.languages[i].code == c
    ensures forall i :: 0 <= i < |r.languages| ==>
              r.languages[i].code in codes && r.languages[i].name == name(r.languages[i].code)
    ensures forall i, j :: 0 <= i < j < |r.languages| ==>
              Below(r.languages[i].code, r.languages[j].code) && r.languages[i].code != r.languages[j].code
  {
    var sorted := Sort(codes);
    SortDistinct(codes);
    SortSameElements(codes);
    var languages := Entries(sorted, name);
    forall c | c in codes
      ensures exists i :: 0 <= i < |languages| && languages[i].code == c
    {
      var i :| 0 <= i < |sorted| && sorted[i] == c;
      assert languages[i].code == c;
    }
    r := LanguageListing(|languages|, languages);
  }

  /** `GET /supported-languages`: every translatable code exactly once, in
      ascending code-point order, each with `get_language_name` of it, and
      `count` the number of entries. The 500 branch is unreachable: nothing
      in the body raises. */
  method SupportedLanguages() returns (r: LanguageListing)
    ensures r.count == |r.languages|
    ensures forall c :: TS.IsSupported(c) <==> exists i :: 0 <= i < |r.languages| && r.languages[i].code == c
    ensures forall i :: 0 <= i < |r.languages| ==>
              TS.IsSupported(r.languages[i].code)
              && r.languages[i].name == TS.LanguageName(r.languages[i].code)
    ensures forall i, j :: 0 <= i < j < |r.languages| ==>
              Below(r.languages[i].code, r.languages[j].code) && r.languages[i].code != r.languages[j].code
  {
    var codes := TS.SupportedLanguages();
    r := ListLanguages(codes, TS.LanguageName);
  }
}
