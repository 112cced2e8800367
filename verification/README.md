# LangTrans backend core in Dafny

LangTrans is a text translation web service. Its Python backend puts a
`langdetect` language detector and an M2M-100 sequence-to-sequence model
behind three FastAPI routes. This project models the backend's deterministic
core and proves properties of it:

- **Translation service** (`TranslationService`). It holds the code-to-locale
  table (`M2M_LANGUAGE_CODES`) and the display-name table (`LANGUAGE_NAMES`).
  `translate` runs its checks in order: empty text, stripped length over 5000,
  unsupported source, unsupported target. Same source and target return the
  text unchanged with confidence 1.0. Otherwise the model's output is scored
  with the length-ratio confidence. `get_supported_languages` and
  `get_language_name` are modelled too.
- **Language detector** (`LanguageDetection`). It holds its own name table,
  whose literal lists `'ja'` twice. `detect` rejects blank and too-short text,
  then takes the top candidate. Every failure becomes a `ValueError`.
- **Routes** (`TranslatorRoutes`). `/detect-language`, `/translate` and
  `/supported-languages` are modelled, including these details:
  - choosing between the supplied source and the detected one;
  - the `ValueError` → 400 and anything-else → 500 handlers;
  - the sorted listing with its count.

Some Python basics are modelled in support modules:

- `Text`: `str.isspace`, `str.strip`, `str.upper`, and the order behind
  `sorted`. A Dafny `string` is a sequence of Unicode scalar values. That
  is a Python `str` without lone surrogates, so `len(s)` is `|s|`.
- `Sorting`: `sorted`, as a functional insertion sort.
- `Tables`: the dict literals, and `dict.get` / `in` on them.
- `Results`: `Option`, `Result` and the exceptions the core raises.

Everything outside the core is a parameter:

- `TranslationService.Engine` stands for the M2M-100 model with its
  tokenizer, beam search and decoding. It maps the text and two locale tags
  to a decoded string or the text of the exception raised.
- `LanguageDetection.Ranker` stands for `langdetect.detect_langs`. It maps
  the text to a ranked candidate list or one of the two exception kinds the
  detector catches.
- `TranslatorRoutes.ModelHandles` holds the process-wide model handles, each
  absent when loading failed.

Exceptions are values of `Results.Exception`, and the routes' replies are
values of `TranslatorRoutes.Reply`.

The dict literals are written as sequences of blocks of consecutive entries
(`Tables.Table`). A lookup scans the blocks from the last one back, so a
later entry for a key wins, as it does when Python builds the dict.
`Tables.Dict` builds the dict itself, and `Tables.GetAgreesWithDict` proves
that the lookup agrees with it.

## Model

| member | source | states |
|---|---|---|
| Text.LeadingSpaces | backend/app/services/translation_service.py:139 | the count is a run of whitespace at the front of the string, and the next code point (if any) is not whitespace |
| Text.TrailingSpaces | backend/app/services/translation_service.py:139 | the count is a run of whitespace at the back of the string, and the code point before it (if any) is not whitespace |
| Text.Strip | backend/app/services/translation_service.py:139-142 | `text.strip()` is a substring with only whitespace around it and a non-space code point at each end; it is empty exactly when the text is all whitespace |
| Text.StripUnique | backend/app/services/translation_service.py:139-142 | any string obtained by peeling whitespace from both ends until a non-space shows equals `Strip`: the strip is unique |
| Text.StripIgnoresPadding | backend/app/services/language_detection.py:43-47 | whitespace added around a text does not change its strip |
| Text.Upper | backend/app/services/translation_service.py:197 | `code.upper()` keeps the length, leaves no lower-case ASCII letter, keeps every other code point and moves each lower-case ASCII letter to its capital |
| Text.BelowReflexive | backend/app/routes/translator_routes.py:144 | the string order `sorted` uses is reflexive |
| Text.BelowAntisymmetric | backend/app/routes/translator_routes.py:144 | two strings each `<=` the other are equal |
| Text.BelowTransitive | backend/app/routes/translator_routes.py:144 | the string order is transitive |
| Text.BelowTotal | backend/app/routes/translator_routes.py:144 | any two strings are comparable |
| Sorting.Insert | backend/app/routes/translator_routes.py:144 | inserting into a sorted list keeps it sorted and adds exactly the new string |
| Sorting.Sort | backend/app/routes/translator_routes.py:144 | `sorted(languages)` is in ascending order and is a permutation of its input |
| Sorting.DistinctCount | backend/app/services/translation_service.py:192 | a duplicate-free list holds each string at most once |
| Sorting.DistinctPermutation | backend/app/routes/translator_routes.py:144 | a permutation of a duplicate-free list is duplicate-free |
| Sorting.SortSameElements | backend/app/routes/translator_routes.py:144 | sorting keeps exactly the strings that were in the list |
| Sorting.SortDistinct | backend/app/routes/translator_routes.py:144 | sorting duplicate-free codes gives a strictly ascending list with no ties |
| Tables.Dict | backend/app/services/translation_service.py:65-80 | a key is in the dict a literal builds exactly when some block of the literal lists it |
| Tables.GetAgreesWithDict | backend/app/services/translation_service.py:197 | scanning the blocks finds a key exactly when the built dict holds it, and returns the dict's value |
| Tables.InSomeBlock | backend/app/services/translation_service.py:146-150 | a key the lookup finds is listed in some block |
| Tables.FoundInBlock | backend/app/services/translation_service.py:146-150 | a key listed in any block is found |
| Tables.LastEntryWins | backend/app/services/language_detection.py:14-15 | when a key is listed again, the lookup returns the last entry for it |
| Tables.GetOrUpperFromDict | backend/app/services/translation_service.py:195-197 | `get_language_name` (of either service) returns the built dict's entry when there is one, and the upper-cased code otherwise |
| TranslationService.IsSupported | backend/app/services/translation_service.py:146-150 | a code passes the `in M2M_LANGUAGE_CODES` test exactly when the built locale dict holds it |
| TranslationService.Confidence | backend/app/services/translation_service.py:180 | the score lies in [0.7, 0.95]; it is 0.95 exactly when the output is at least as long as the input, and 0.7 for an empty output |
| TranslationService.ConfidenceMonotone | backend/app/services/translation_service.py:180 | a longer output never lowers the score |
| TranslationService.Translate | backend/app/services/translation_service.py:139-187 | each check fails with its own message, in source order. A `ValueError` is raised exactly when the input is not admissible, and the only other error is `RuntimeError`. Same codes return the text with 1.0. Otherwise the engine gets the two locale tags; its output is scored by `Confidence`, and its failure becomes "Translation failed: " plus the message. Confidence is in [0.7, 0.95] except on the same-code path |
| TranslationService.EngineNotConsulted | backend/app/services/translation_service.py:139-154 | when validation fails or the codes agree, any two engines give the same result |
| TranslationService.LengthLimitIgnoresPadding | backend/app/services/translation_service.py:139-150 | whitespace around the text changes neither admissibility nor the outcome of a failed check |
| TranslationService.LengthLimitBoundary | backend/app/services/translation_service.py:142-154 | exactly 5000 stripped code points pass the length check; 5001 fail it with the length message |
| TranslationService.LanguageName | backend/app/services/translation_service.py:195-197 | `get_language_name` returns the built name dict's entry when there is one, and the upper-cased code otherwise |
| TranslationService.SupportedCodesAreNamed | backend/app/services/translation_service.py:9-80 | every translatable code has an entry in the name table, so the upper-case fallback never fires for it |
| TranslationService.ListKeys | backend/app/services/translation_service.py:192 | `list(d.keys())` lists every key of the dict and nothing else, each once, and its length is the dict's size |
| TranslationService.SupportedLanguages | backend/app/services/translation_service.py:190-192 | the list holds exactly the translatable codes, without duplicates |
| LanguageDetection.LanguageName | backend/app/services/language_detection.py:78-81 | the detector's `get_language_name`, the lookup `detect` also does at line 59, returns the built dict's entry when there is one, and the upper-cased code otherwise |
| LanguageDetection.DuplicateJapaneseEntryHarmless | backend/app/services/language_detection.py:14-15 | the literal lists "ja" twice, on consecutive lines; the dict still holds "ja", and its name is "Japanese" |
| LanguageDetection.Detect | backend/app/services/language_detection.py:33-71 | every error is a `ValueError`. Blank text gives the empty message and short text the too-short message. Success happens exactly when the stripped text has at least 3 code points and the ranker returns a non-empty list, and then yields the top candidate's code, its name and its probability. Past the input checks every error message starts with "Language detection failed: " |
| LanguageDetection.FailureKindIrrelevant | backend/app/services/language_detection.py:66-71 | a `LangDetectException` and any other exception with the same message produce the same result |
| LanguageDetection.EmptyRankingWrapped | backend/app/services/language_detection.py:53-71 | an empty ranking's "Unable to detect language" is re-wrapped by the generic handler behind the common prefix |
| LanguageDetection.InputChecksIgnorePadding | backend/app/services/language_detection.py:43-53 | with exactly 3 stripped code points and any whitespace around them, the outcome depends on the ranking alone |
| LanguageDetection.ConfidenceIsAProbability | backend/app/services/language_detection.py:54-62 | the reported confidence is a probability whenever the ranker's probabilities are |
| TranslatorRoutes.Catch | backend/app/routes/translator_routes.py:127-132 | a returned body is a success; a `ValueError` is answered 400 with its own message; any other exception is answered 500 with the route's fixed detail |
| TranslatorRoutes.CatchKeepingHttp | backend/app/routes/translator_routes.py:87-91 | an `HTTPException` raised in the body reaches the client with its own status and detail; anything else is handled as by `Catch` |
| TranslatorRoutes.DetectBody | backend/app/routes/translator_routes.py:43-56 | a missing detector raises 503 "Language detection model not loaded"; otherwise the detection is returned field by field, or its error unchanged |
| TranslatorRoutes.DetectLanguage | backend/app/routes/translator_routes.py:43-63 | the status is 400 or 500 only; without a detector the reply is 500 "Language detection failed"; with one, a detection comes back field by field and its `ValueError` is a 400 with the same message |
| TranslatorRoutes.DetectLanguageIntended | backend/app/routes/translator_routes.py:44-48 | without a detector the reply is 503 "Language detection model not loaded"; with one it is the as-written reply |
| TranslatorRoutes.DetectRejectsShortText | backend/app/routes/translator_routes.py:50-60 | blank text and text under 3 stripped code points reach the client as 400 with the detector's own message |
| TranslatorRoutes.DetectNever503 | backend/app/routes/translator_routes.py:43-63 | no reply has status 503; a missing detector is answered 500 "Language detection failed" |
| TranslatorRoutes.ChooseSource | backend/app/routes/translator_routes.py:94-98 | a supplied, non-empty source is taken with the translation table's name; otherwise the detector's code and name are taken, and its error propagates |
| TranslatorRoutes.TranslateBody | backend/app/routes/translator_routes.py:86-125 | a missing handle raises 503. With both handles, an error from `ChooseSource` or from the service comes through unchanged, and otherwise the response carries the text, the chosen source and its name, the target and its name, and the service's translation and confidence; only `ValueError` or `RuntimeError` escapes |
| TranslatorRoutes.Translate | backend/app/routes/translator_routes.py:86-132 | the status is 400 or 500 only; a missing handle is answered 500; a success carries the echoed fields, the chosen source and the service's translation; 400 is answered exactly when the body raised a `ValueError`, with that exception's message as detail; every 500 has the detail "Translation failed", and with both handles it means the body raised a `RuntimeError` |
| TranslatorRoutes.TranslateIntended | backend/app/routes/translator_routes.py:87-91 | a missing handle is answered 503 "ML models not loaded"; otherwise the reply is the as-written one |
| TranslatorRoutes.TranslateNever503 | backend/app/routes/translator_routes.py:86-132 | no reply has status 503; a missing translator is answered 500 "Translation failed" |
| TranslatorRoutes.UndetectedShortTextIs400 | backend/app/routes/translator_routes.py:94-98 | without a source, short non-blank text is refused 400 by the detector's length check |
| TranslatorRoutes.SuppliedShortTextPasses | backend/app/routes/translator_routes.py:94-113 | with a supplied source equal to a supported target, the same short text succeeds and comes back unchanged |
| TranslatorRoutes.SuppliedSourceSkipsDetector | backend/app/routes/translator_routes.py:94-96 | with a supplied source, any two detectors give the same reply |
| TranslatorRoutes.UntranslatableDetectionIs400 | backend/app/routes/translator_routes.py:98-113 | a detected code missing from the translation table is a 400 "Unsupported source language: " plus the code |
| TranslatorRoutes.EngineFailureIs500 | backend/app/routes/translator_routes.py:107-132 | a model failure on admissible input is a 500 "Translation failed", never a 400 |
| TranslatorRoutes.Entries | backend/app/routes/translator_routes.py:139-145 | the comprehension pairs each code, in order, with its name |
| TranslatorRoutes.ListLanguages | backend/app/routes/translator_routes.py:138-150 | the listing's count is its length; it holds exactly the given codes, each with its name, strictly ascending |
| TranslatorRoutes.SupportedLanguages | backend/app/routes/translator_routes.py:134-153 | `/supported-languages` lists exactly the translatable codes, each once, in strictly ascending order, each with `get_language_name` of it; `count` is the number of entries |

## Left out

- Model loading, device selection and the tokenizer's own steps (translation_service.py:84-116, 156-176). They are folded into `TranslationService.Engine`. A missing tokenizer next to a loaded model surfaces the same way as any other engine failure.
- The `langdetect` internals. `LanguageDetection.Ranker` is an arbitrary function, so no property depends on how candidates are ranked.
- Logging, `async`, FastAPI's dependency injection, `main.py`'s start-up and the `ml_models` global. The handles are an explicit `ModelHandles` argument instead.
- The `/health` route. It reads the clock and has no logic to model.
- `LanguageDetector.get_supported_languages` (language_detection.py:73-76). No route calls it.
- `app/models.py` (request validation by pydantic) is not part of this model. A route accepts any request value.
- The frontend.
- The inner `try`/`except` around the target-name lookup (translator_routes.py:101-104) is not modelled as a separate path. `get_language_name` cannot raise, so the handler is unreachable.
- The 500 "Failed to fetch language list" branch of `/supported-languages` (translator_routes.py:151-153) is not modelled. Nothing in that body raises.
- Strings holding lone surrogate code points (U+D800–U+DFFF) are not modelled. Python's `str` admits them, for instance from a JSON `"\ud800"` escape; Dafny's `char` does not. Every property is stated for strings without them.
- Text.Upper: only ASCII letters are upper-cased, whereas Python's `str.upper` maps every cased code point. It matters only for codes outside both name tables.
- TranslationService.Confidence: computed in exact reals, not IEEE doubles, so rounding in the last bits is not modelled.
- TranslationService.SupportedLanguages: states which codes are listed, not their order. Python returns dict insertion order, and the only caller sorts the list. It also does not state the concrete count, 53.
- TranslationService.ListKeys: does not fix the order of the keys, for the same reason.
- LanguageDetection.Detect: the probability is passed through; `float(...)` conversion is the identity on reals.

## Findings

Both handlers raise an `HTTPException` with status 503 inside their own `try`: `status_code=503` with "Language detection model not loaded" at translator_routes.py:45-48, and with "ML models not loaded" at translator_routes.py:88-91. `HTTPException` is not a `ValueError`, so the `except Exception` at lines 61-63 and 130-132 catches it and the client sees 500 with the generic detail. The raises choose a 503 status and a specific detail, neither of which can ever reach the client, so 503 was evidently meant to. The as-written members model the code as it runs, 500 included; the `...Intended` members let the 503 through.

| source | as written | input that shows it | evidently intended | confidence | as-written member | corrected member |
|---|---|---|---|---|---|---|
| backend/app/routes/translator_routes.py:43-63 | the 503 "Language detection model not loaded" raised at lines 45-48 is caught by `except Exception` and answered 500 "Language detection failed" | any request while the detector handle is absent | 503 with "Language detection model not loaded" | not executed | TranslatorRoutes.DetectNever503 | TranslatorRoutes.DetectLanguageIntended |
| backend/app/routes/translator_routes.py:86-132 | the 503 "ML models not loaded" raised at lines 88-91 is caught by `except Exception` and answered 500 "Translation failed" | any request while the detector or translator handle is absent | 503 with "ML models not loaded" | not executed | TranslatorRoutes.TranslateNever503 | TranslatorRoutes.TranslateIntended |
