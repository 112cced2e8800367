/** The language detector: its display-name table, the input checks of
    `detect`, the choice of the top-ranked candidate and the funnelling of
    every failure into a `ValueError`. The `langdetect` ranking routine is an
    opaque `Ranker`. */
module LanguageDetection {
  import opened Results
  import opened Text
  import opened Tables

  /** Display names used by the detector, one block per group of lines
      of the Python dict literal. The literal lists "ja" twice, at the end of one line and the
      start of the next; the blocks are cut between those lines, so the
      later entry replaces the earlier one by `LastEntryWins`. Both say
      "Japanese". */
  const LanguageNames: Table := [NameBlock0, NameBlock1, NameBlock2, NameBlock3]

  const NameBlock0: map<string, string> := map[
    "af" := "Afrikaans", "ar" := "Arabic", "bg" := "Bulgarian", "bn" := "Bengali",
    "ca" := "Catalan", "cs" := "Czech", "cy" := "Welsh", "da" := "Danish",
    "de" := "German", "el" := "Greek", "en" := "English", "es" := "Spanish",
    "et" := "Estonian", "fa" := "Persian", "fi" := "Finnish", "fr" := "French"
  ]
  const NameBlock1: map<string, string> := map[
    "gu" := "Gujarati", "he" := "Hebrew", "hi" := "Hindi", "hr" := "Croatian",
    "hu" := "Hungarian", "id" := "Indonesian", "it" := "Italian", "ja" := "Japanese"
  ]
  const NameBlock2: map<string, string> := map[
    "ja" := "Japanese", "kn" := "Kannada", "ko" := "Korean", "lt" := "Lithuanian",
    "lv" := "Latvian", "mk" := "Macedonian", "ml" := "Malayalam", "mr" := "Marathi",
    "ne" := "Nepali", "nl" := "Dutch", "no" := "Norwegian", "pa" := "Punjabi",
    "pl" := "Polish", "pt" := "Portuguese", "ro" := "Romanian", "ru" := "Russian"
  ]
  const NameBlock3: map<string, string> := map[
    "sk" := "Slovak", "sl" := "Slovenian", "so" := "Somali", "sq" := "Albanian",
    "sv" := "Swedish", "ta" := "Tamil", "te" := "Telugu", "th" := "Thai",
    "tl" := "Tagalog", "tr" := "Turkish", "uk" := "Ukrainian", "ur" := "Urdu",
    "vi" := "Vietnamese", "zh-cn" := "Chinese (Simplified)", "zh-tw" := "Chinese (Traditional)",
    "zh" := "Chinese", "as" := "Assamese", "or" := "Odia"
  ]

  /** Shortest stripped text `detect` accepts, in code points. */
  const MinTextLength := 3

  const EmptyTextMessage := "Text cannot be empty"
  const TooShortMessage := "Text must be at least 3 characters long"
  const NoCandidateMessage := "Unable to detect language"
  const FailurePrefix := "Language detection failed: "

  /** One entry of the ranked list `detect_langs` returns. */
  datatype Candidate = Candidate(lang: string, prob: real)

  /** What `detect_langs` may raise: the library's own exception, or
      anything else, each with the text `str(e)` yields. */
  datatype LibraryFailure =
    | LangDetectException(message: string)
    | UnexpectedException(message: string)

  /** `detect_langs` seen from outside: a ranked candidate list (best first)
      or a failure. */
  type Ranker = string -> Result<seq<Candidate>, LibraryFailure>

  /** What `detect` returns: code, display name and probability. */
  datatype Detection = Detection(code: string, name: string, confidence: real)

  /** `LanguageDetector.get_language_name` (the same lookup `detect` does
      inline): the table's entry, or the code upper-cased. */
  function LanguageName(code: string): (name: string)
    ensures code in Dict(LanguageNames) ==> name == Dict(LanguageNames)[code]
    ensures code !in Dict(LanguageNames) ==> name == Upper(code)
  {
    GetOrUpperFromDict(LanguageNames, code);
    GetOrUpper(LanguageNames, code)
  }

  /** The literal lists "ja" in two blocks; the lookup still says Japanese. */
  lemma DuplicateJapaneseEntryHarmless()
    ensures "ja" in NameBlock1 && "ja" in NameBlock2
    ensures "ja" in Dict(LanguageNames)
    ensures LanguageName("ja") == "Japanese"
  {
    JapaneseInBlocks();
    JapaneseNotInLastBlock();
    LastEntryWins(LanguageNames, 2, "ja");
    GetAgreesWithDict(LanguageNames, "ja");
  }

  lemma JapaneseInBlocks()
    ensures "ja" in NameBlock1 && "ja" in NameBlock2
    ensures NameBlock2["ja"] == "Japanese"
  {
  }

  lemma JapaneseNotInLastBlock()
    ensures forall j :: 2 < j < |LanguageNames| ==> "ja" !in LanguageNames[j]
  {
    assert "ja" !in NameBlock3;
  }

  /** `LanguageDetector.detect`. Blank text and text under three stripped
      code points are refused first; then the ranker runs on the text as
      given, and the top candidate's code and probability come back
      unchanged with the code's display name. Every failure, whatever the
      ranker raised or an empty ranking, is a `ValueError`, and past the
      input checks its message starts with "Language detection failed: ". */
  function Detect(text: string, ranker: Ranker): (r: Result<Detection, Exception>)
    ensures r.Err? ==> r.error.ValueError?
    ensures IsBlank(text) ==> r == Err(ValueError(EmptyTextMessage))
    ensures !IsBlank(text) && |Strip(text)| < MinTextLength ==> r == Err(ValueError(TooShortMessage))
    ensures r.Ok? <==> |Strip(text)| >= MinTextLength && ranker(text).Ok? && ranker(text).value != []
    ensures r.Ok? ==>
              var top := ranker(text).value[0];
              r.value == Detection(top.lang, LanguageName(top.lang), top.prob)
    ensures |Strip(text)| >= MinTextLength && r.Err? ==> FailurePrefix <= r.error.message
  {
    if IsBlank(text) then Err(ValueError(EmptyTextMessage))
    else if |Strip(text)| < MinTextLength then Err(ValueError(TooShortMessage))
    else
      match ranker(text)
      case Err(LangDetectException(message)) => Err(ValueError(FailurePrefix + message))
      case Err(UnexpectedException(message)) => Err(ValueError(FailurePrefix + message))
      case Ok(candidates) =>
        if candidates == [] then
          // raised inside the `try` and re-wrapped by its generic handler
          Err(ValueError(FailurePrefix + NoCandidateMessage))
        else
          var top := candidates[0];
          Ok(Detection(top.lang, LanguageName(top.lang), top.prob))
  }

  /** Which kind of exception the library raised makes no difference: the
      caller sees the same `ValueError` for the same message. */
  lemma FailureKindIrrelevant(text: string, r1: Ranker, r2: Ranker, message: string)
    requires r1(text) == Err(LangDetectException(message))
    requires r2(text) == Err(UnexpectedException(message))
    ensures Detect(text, r1) == Detect(text, r2)
    ensures !IsBlank(text) && |Strip(text)| >= MinTextLength ==>
              Detect(text, r1) == Err(ValueError(FailurePrefix + message))
  {
  }

  /** An empty ranking is reported through the same funnel, with the
      "Unable to detect language" text behind the common prefix. */
  lemma EmptyRankingWrapped(text: string, ranker: Ranker)
    requires |Strip(text)| >= MinTextLength && ranker(text) == Ok([])
    ensures Detect(text, ranker) == Err(ValueError(FailurePrefix + NoCandidateMessage))
  {
  }

  /** Only the ranking decides once the input checks pass: the checks look
      at the stripped length alone, so exactly three code points pass and
      whitespace around them does not matter. */
  lemma InputChecksIgnorePadding(front: string, text: string, back: string, ranker: Ranker)
    requires SpacesIn(front, 0, |front|) && SpacesIn(back, 0, |back|)
    requires |Strip(text)| == MinTextLength
    ensures Detect(front + text + back, ranker).Ok? <==> ranker(front + text + back).Ok? && ranker(front + text + back).value != []
  {
    StripIgnoresPadding(front, text, back);
  }

  /** The reported confidence is the top probability untouched, so it is a
      probability whenever the library's are. */
  lemma ConfidenceIsAProbability(text: string, ranker: Ranker)
    requires ranker(text).Ok? ==> forall c :: c in ranker(text).value ==> 0.0 <= c.prob <= 1.0
    ensures Detect(text, ranker).Ok? ==> 0.0 <= Detect(text, ranker).value.confidence <= 1.0
  {
    if Detect(text, ranker).Ok? {
      assert ranker(text).value[0] in ranker(text).value;
    }
  }
}
