/** The translation service in front of the M2M-100 model: the two static
    tables, the ordered input checks of `translate`, its same-language short
    cut, the length-ratio confidence heuristic and the name lookup. The model
    and its tokenizer are one opaque `Engine`. */
module TranslationService {
  import opened Results
  import opened Text
  import opened Tables

  /** Application language code to the model's locale tag. */
  const M2MLanguageCodes: Table := [M2MBlock0, M2MBlock1, M2MBlock2, M2MBlock3]

  const M2MBlock0: map<string, string> := map[
    "en" := "en_XX", "es" := "es_XX", "fr" := "fr_XX", "de" := "de_DE",
    "it" := "it_IT", "pt" := "pt_XX", "nl" := "nl_XX", "ru" := "ru_RU",
    "zh" := "zh_CN", "ja" := "ja_XX", "ko" := "ko_KR", "ar" := "ar_AR",
    "hi" := "hi_IN", "tr" := "tr_TR"
  ]
  const M2MBlock1: map<string, string> := map[
    "pl" := "pl_PL", "uk" := "uk_UA", "ro" := "ro_RO", "hu" := "hu_HU",
    "cs" := "cs_CZ", "sv" := "sv_SE", "da" := "da_DK", "fi" := "fi_FI",
    "el" := "el_GR", "he" := "he_IL", "th" := "th_TH", "vi" := "vi_VN",
    "id" := "id_ID", "ms" := "ms_MY"
  ]
  const M2MBlock2: map<string, string> := map[
    "tl" := "tl_XX", "bn" := "bn_IN", "ta" := "ta_IN", "te" := "te_IN",
    "mr" := "mr_IN", "gu" := "gu_IN", "kn" := "kn_IN", "ml" := "ml_IN",
    "af" := "af_ZA", "bg" := "bg_BG", "et" := "et_EE", "fa" := "fa_IR",
    "hr" := "hr_HR", "lt" := "lt_LT"
  ]
  const M2MBlock3: map<string, string> := map[
    "lv" := "lv_LV", "mk" := "mk_MK", "ne" := "ne_NP", "pa" := "pa_IN",
    "sk" := "sk_SK", "sl" := "sl_SI", "so" := "so_SO", "sq" := "sq_AL",
    "sr" := "sr_RS", "sw" := "sw_KE", "ur" := "ur_PK"
  ]

  /** Display names used by the translation side. */
  const LanguageNames: Table := [NameBlock0, NameBlock1, NameBlock2, NameBlock3]

  const NameBlock0: map<string, string> := map[
    "ar" := "Arabic", "cs" := "Czech", "cy" := "Welsh", "da" := "Danish",
    "de" := "German", "el" := "Greek", "en" := "English", "es" := "Spanish",
    "et" := "Estonian", "fa" := "Persian", "fi" := "Finnish", "fr" := "French",
    "gu" := "Gujarati", "he" := "Hebrew", "hi" := "Hindi", "hr" := "Croatian"
  ]
  const NameBlock1: map<string, string> := map[
    "hu" := "Hungarian", "id" := "Indonesian", "it" := "Italian", "ja" := "Japanese",
    "kn" := "Kannada", "ko" := "Korean", "lt" := "Lithuanian", "lv" := "Latvian",
    "mk" := "Macedonian", "ml" := "Malayalam", "mr" := "Marathi", "ne" := "Nepali",
    "nl" := "Dutch", "pa" := "Punjabi", "pl" := "Polish", "pt" := "Portuguese"
  ]
  const NameBlock2: map<string, string> := map[
    "ro" := "Romanian", "ru" := "Russian", "sk" := "Slovak", "sl" := "Slovenian",
    "so" := "Somali", "sq" := "Albanian", "sv" := "Swedish", "sw" := "Swahili",
    "ta" := "Tamil", "te" := "Telugu", "th" := "Thai", "tr" := "Turkish",
    "uk" := "Ukrainian", "ur" := "Urdu", "vi" := "Vietnamese", "zh" := "Chinese"
  ]
  const NameBlock3: map<string, string> := map[
    "ms" := "Malay", "sr" := "Serbian", "bg" := "Bulgarian", "af" := "Afrikaans",
    "tl" := "Tagalog", "bn" := "Bengali"
  ]

  /** The model can translate from and into `code`. */
  predicate IsSupported(code: string): (b: bool)
    ensures b <==> code in Dict(M2MLanguageCodes)
  {
    GetAgreesWithDict(M2MLanguageCodes, code);
    Has(M2MLanguageCodes, code)
  }

  /** The model's locale tag for a supported code. */
  function Locale(code: string): string
    requires IsSupported(code)
  {
    Get(M2MLanguageCodes, code).value
  }

  /** Longest stripped text `translate` accepts, in code points. */
  const MaxTextLength := 5000

  const EmptyTextMessage := "Text cannot be empty"
  const TooLongMessage := "Text exceeds maximum length of 5000 characters"

  /** The tokenizer, beam search and decoding, seen from outside: given the
      text and the source and target locale tags, a decoded string or the
      text of whatever exception was raised. */
  type Engine = (string, string, string) -> Result<string, string>

  /** What `translate` returns: the text and a confidence score. */
  datatype Translation = Translation(text: string, confidence: real)

  function Min(a: real, b: real): real {
    if a <= b then a else b
  }

  /** The length-ratio heuristic `min(0.95, 0.7 + len(out) / len(in) * 0.25)`.
      It is never below 0.7, never above 0.95, reaches the ceiling exactly
      when the output is at least as long as the input, and is 0.7 for an
      empty output. */
  function Confidence(original: string, translated: string): (c: real)
    requires |original| > 0
    ensures 0.7 <= c <= 0.95
    ensures c == 0.95 <==> |translated| >= |original|
    ensures |translated| == 0 ==> c == 0.7
  {
    var ratio := |translated| as real / |original| as real;
    assert ratio >= 1.0 <==> |translated| >= |original|;
    Min(0.95, 0.7 + ratio * 0.25)
  }

  /** A longer output never lowers the confidence. */
  lemma ConfidenceMonotone(original: string, shorter: string, longer: string)
    requires |original| > 0 && |shorter| <= |longer|
    ensures Confidence(original, shorter) <= Confidence(original, longer)
  {
    var n := |original| as real;
    assert |shorter| as real / n <= |longer| as real / n;
  }

  /** The four checks `translate` makes before the model, all together:
      some non-space text, at most 5000 code points of it once stripped,
      and both codes in the locale table. */
  predicate Admissible(text: string, source: string, target: string) {
    && !IsBlank(text)
    && |Strip(text)| <= MaxTextLength
    && IsSupported(source)
    && IsSupported(target)
  }

  /** `TranslationService.translate`. The checks run in order (empty text,
      stripped length, source code, target code) and each failure is a
      `ValueError` naming what is wrong; same source and target returns the
      text untouched with confidence 1.0; otherwise the engine runs, and
      anything it raises becomes a `RuntimeError`. */
  function Translate(text: string, source: string, target: string, engine: Engine)
    : (r: Result<Translation, Exception>)
    ensures IsBlank(text) ==> r == Err(ValueError(EmptyTextMessage))
    ensures !IsBlank(text) && |Strip(text)| > MaxTextLength ==> r == Err(ValueError(TooLongMessage))
    ensures !IsBlank(text) && |Strip(text)| <= MaxTextLength && !IsSupported(source)
            ==> r == Err(ValueError("Unsupported source language: " + source))
    ensures !IsBlank(text) && |Strip(text)| <= MaxTextLength && IsSupported(source) && !IsSupported(target)
            ==> r == Err(ValueError("Unsupported target language: " + target))
    ensures (r.Err? && r.error.ValueError?) <==> !Admissible(text, source, target)
    ensures r.Err? ==> r.error.ValueError? || r.error.RuntimeError?
    ensures Admissible(text, source, target) && source == target ==> r == Ok(Translation(text, 1.0))
    ensures Admissible(text, source, target) && source != target ==>
              var out := engine(text, Locale(source), Locale(target));
              && (out.Ok? ==> r == Ok(Translation(out.value, Confidence(text, out.value))))
              && (out.Err? ==> r == Err(RuntimeError("Translation failed: " + out.error)))
    ensures r.Ok? ==> 0.7 <= r.value.confidence <= 0.95 || (source == target && r.value == Translation(text, 1.0))
  {
    if IsBlank(text) then Err(ValueError(EmptyTextMessage))
    else if |Strip(text)| > MaxTextLength then Err(ValueError(TooLongMessage))
    else if !IsSupported(source) then Err(ValueError("Unsupported source language: " + source))
    else if !IsSupported(target) then Err(ValueError("Unsupported target language: " + target))
    else if source == target then Ok(Translation(text, 1.0))
    else
      assert |text| > 0;
      match engine(text, Locale(source), Locale(target))
      case Ok(out) => Ok(Translation(out, Confidence(text, out)))
      case Err(message) => Err(RuntimeError("Translation failed: " + message))
  }

  /** When validation fails, or source and target agree, the engine is never
      consulted: any two engines give the same answer. */
  lemma EngineNotConsulted(text: string, source: string, target: string, e1: Engine, e2: Engine)
    requires !Admissible(text, source, target) || source == target
    ensures Translate(text, source, target, e1) == Translate(text, source, target, e2)
  {
  }

  /** The length limit counts the stripped text: whitespace around the text
      never changes the verdict or the message of the checks, and exactly
      5000 stripped code points are accepted. */
  lemma LengthLimitIgnoresPadding(front: string, text: string, back: string, source: string, target: string, engine: Engine)
    requires SpacesIn(front, 0, |front|) && SpacesIn(back, 0, |back|)
    ensures Admissible(front + text + back, source, target) <==> Admissible(text, source, target)
    ensures !Admissible(text, source, target) ==>
              Translate(front + text + back, source, target, engine) == Translate(text, source, target, engine)
  {
    StripIgnoresPadding(front, text, back);
  }

  /** Exactly 5000 stripped code points pass the length check; one more
      fails it. */
  lemma LengthLimitBoundary(text: string, source: string, engine: Engine)
    requires IsSupported(source)
    ensures |Strip(text)| == MaxTextLength ==> Translate(text, source, source, engine) == Ok(Translation(text, 1.0))
    ensures |Strip(text)| == MaxTextLength + 1 ==> Translate(text, source, source, engine) == Err(ValueError(TooLongMessage))
  {
  }

  /** `TranslationService.get_language_name`: the table's entry, or the code
      upper-cased when the table has none. */
  function LanguageName(code: string): (name: string)
    ensures code in Dict(LanguageNames) ==> name == Dict(LanguageNames)[code]
    ensures code !in Dict(LanguageNames) ==> name == Upper(code)
  {
    GetOrUpperFromDict(LanguageNames, code);
    GetOrUpper(LanguageNames, code)
  }

  /** Every code the model can translate has a display name, so the
      upper-case fallback never fires for a supported code. */
  lemma SupportedCodesAreNamed(code: string)
    requires IsSupported(code)
    ensures Has(LanguageNames, code)
    ensures LanguageName(code) == Get(LanguageNames, code).value
  {
    InSomeBlock(M2MLanguageCodes, code);
    var i :| 0 <= i < |M2MLanguageCodes| && code in M2MLanguageCodes[i];
    var j := NamingBlock(i, code);
    FoundInBlock(LanguageNames, j, code);
  }

  /** The block of the name table that lists a code of locale block `i`. */
  lemma NamingBlock(i: int, code: string) returns (j: int)
    requires 0 <= i < |M2MLanguageCodes| && code in M2MLanguageCodes[i]
    ensures 0 <= j < |LanguageNames| && code in LanguageNames[j]
  {
    if i == 0 {
      SupportedBlockNamed0(code);
    } else if i == 1 {
      SupportedBlockNamed1(code);
    } else if i == 2 {
      SupportedBlockNamed2(code);
    } else {
      SupportedBlockNamed3(code);
    }
    if code in NameBlock0 {
      j := 0;
    } else if code in NameBlock1 {
      j := 1;
    } else if code in NameBlock2 {
      j := 2;
    } else {
      j := 3;
    }
  }

  lemma SupportedBlockNamed0(code: string)
    requires code in M2MBlock0
    ensures code in NameBlock0 || code in NameBlock1 || code in NameBlock2 || code in NameBlock3
  {
  }

  lemma SupportedBlockNamed1(code: string)
    requires code in M2MBlock1
    ensures code in NameBlock0 || code in NameBlock1 || code in NameBlock2 || code in NameBlock3
  {
  }

  lemma SupportedBlockNamed2(code: string)
    requires code in M2MBlock2
    ensures code in NameBlock0 || code in NameBlock1 || code in NameBlock2 || code in NameBlock3
  {
  }

  lemma SupportedBlockNamed3(code: string)
    requires code in M2MBlock3
    ensures code in NameBlock0 || code in NameBlock1 || code in NameBlock2 || code in NameBlock3
  {
  }

  /** Python's `list(d.keys())`: every key of `m` exactly once. */
  method ListKeys<K, V>(m: map<K, V>) returns (keys: seq<K>)
    ensures forall k :: k in keys <==> k in m
    ensures |keys| == |m|
    ensures forall i, j :: 0 <= i < j < |keys| ==> keys[i] != keys[j]
  {
    keys := [];
    var rest := m.Keys;
    while rest != {}
      invariant forall k :: k in keys ==> k in m && k !in rest
      invariant forall k :: k in m ==> k in keys || k in rest
      invariant rest <= m.Keys
      invariant |keys| + |rest| == |m|
      invariant forall i, j :: 0 <= i < j < |keys| ==> keys[i] != keys[j]
      decreases rest
    {
      var k :| k in rest;
      keys := keys + [k];
      rest := rest - {k};
    }
  }

  /** `TranslationService.get_supported_languages`: every key of the locale
      table exactly once. */
  method SupportedLanguages() returns (codes: seq<string>)
    ensures forall c :: c in codes <==> IsSupported(c)
    ensures forall i, j :: 0 <= i < j < |codes| ==> codes[i] != codes[j]
  {
    codes := ListKeys(Dict(M2MLanguageCodes));
    forall c
      ensures c in codes <==> IsSupported(c)
    {
      GetAgreesWithDict(M2MLanguageCodes, c);
    }
  }
}
