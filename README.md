# Incident information extractor — a Dafny model of the extraction pipeline

The system turns a free-text incident report (in Portuguese) into a structured record
with four fields:
- `data_ocorrencia`: when it happened;
- `local`: where;
- `tipo_incidente`: what kind of incident;
- `impacto`: its impact.

The pipeline has five steps:
1. Normalise the text: collapse whitespace, replace the relative dates *hoje*, *ontem*
   and *anteontem* with calendar dates, rewrite time forms such as `14h30` and
   `às 9h`, and space the punctuation.
2. Put the text into a fixed prompt template.
3. Send the prompt to a language model.
4. Recover a JSON object from the free-form answer.
5. Reconcile the answer's keys with the four canonical field names, then build the
   record. Keys are reconciled by exact key, then known synonyms, then a fuzzy
   similarity match.

This project models each step in Dafny, one module per source file, and proves what each
step promises. It also proves how the steps compose in the use case.

| module | file | models |
|---|---|---|
| `IncidentTexts` | `incident_text.dfy` | `IncidentText` and its blank-text check |
| `Entities` | `entities.dfy` | `IncidentInfo` and `to_dict` |
| `TextPreprocessing` | `text_preprocessor.dfy` | `TextPreprocessor`, as a class with its `_relative_dates` table |
| `ValueObjects` | `value_objects.dfy` | `ExtractionPrompt.default()` and `str.format` on its template |
| `JsonParsing` | `json_parser.dfy` | `JsonParser` |
| `TextPostprocessing` | `text_postprocessor.dfy` | `TextPostprocessor` |
| `ExtractIncidentInfo` | `extract_incident_info.dfy` | `ExtractIncidentInfoUseCase`, as a class |

Supporting modules:
- `Wrappers`: `Option` and `Result`.
- `Exceptions`: the exception classes.
- `PyStr`: `str.strip`, `str.lower`, and the `\s`, `\w` and `\d` classes (`\d` as the
  ASCII digits `0`-`9`).
- `Calendar`: `strftime` and `strptime` for the two formats used, and
  `timedelta(days=1)`.
- `Dicts`: insertion-ordered dicts of JSON strings and `null`.
- `Rewrite`: `re.sub` for the eight patterns the preprocessor uses.
- `ScanFacts`: facts about the `re.sub` scan that hold for any pattern.

## Model

| member | source | states |
|---|---|---|
| IncidentTexts.Create | src/domain/entities/incident_text.py:4-10 | construction fails exactly when the content is all whitespace, with `ValueError("Incident text cannot be empty")`; otherwise the content is kept as given |
| IncidentTexts.CreateKeepsContent | src/domain/entities/incident_text.py:8-10 | content with one non-whitespace character is accepted unchanged, surrounding whitespace included |
| IncidentTexts.CreateRejectsBlank | app/domain/entities.py:30-32 | `""` and `"   "` are refused with the empty-text `ValueError` |
| IncidentTexts.CreateAcceptsText | app/domain/entities.py:26-32 | the example text is accepted and kept |
| Entities.DateValue | app/domain/entities.py:15-19 | no date gives `None`; a date gives a 16-character string whose first 10 characters are `%Y-%m-%d` of the date |
| Entities.ToDict | app/domain/entities.py:13-23 | the keys are the four canonical names in order; each key holds its field, the date formatted |
| Entities.ToDictExample | app/domain/entities.py:13-23 | the example record serialises to the expected dict, date `"2025-08-14 14:00"` |
| Entities.ToDictWithoutDate | app/domain/entities.py:15-19 | a record without a date serialises the date as `None` |
| Calendar.PreviousDay | src/infrastructure/processors/text_preprocessor.py:12-13 | `d - timedelta(days=1)` is a valid date whose ordinal is one less |
| Calendar.FormatDate | src/infrastructure/processors/text_preprocessor.py:11-13 | `strftime("%Y-%m-%d")`: ten characters, digits with `-` at positions 4 and 7 |
| Calendar.FormatDateTime | app/domain/entities.py:16 | `strftime("%Y-%m-%d %H:%M")`: the date, a space, two digits, `:`, two digits |
| Calendar.ParseDate | src/infrastructure/text_postprocessor.py:89 | what `strptime("%Y-%m-%d")` reads is a valid date at midnight |
| Calendar.ParseDateTime | src/infrastructure/text_postprocessor.py:86 | what `strptime("%Y-%m-%d %H:%M")` reads is a valid date and time |
| Calendar.ParseFormattedDate | src/infrastructure/text_postprocessor.py:89 | `strptime("%Y-%m-%d")` reads back what `strftime("%Y-%m-%d")` wrote, at midnight |
| Calendar.ParseFormattedDateTime | src/infrastructure/text_postprocessor.py:86 | `strptime("%Y-%m-%d %H:%M")` reads back what `strftime` with that format wrote |
| Calendar.ParseDateRejectsDateTime | src/infrastructure/text_postprocessor.py:85-91 | the date-only format refuses a formatted date-time |
| PyStr.Strip | src/infrastructure/processors/text_preprocessor.py:22 | `str.strip()`: the slice between the leading and trailing whitespace, which starts and ends with non-whitespace |
| PyStr.StripEmptyIffAllSpace | src/domain/entities/incident_text.py:9 | `strip()` gives `""` exactly for all-whitespace text |
| PyStr.StripTrimmed | src/infrastructure/json_parser.py:30 | stripping text with no whitespace at its ends changes nothing |
| PyStr.Lower | src/infrastructure/text_postprocessor.py:62-64 | `str.lower()` folds each character in place |
| Dicts.Get | src/infrastructure/text_postprocessor.py:35-40 | `d.get(key)` finds a value exactly when the key is present, and the value is stored under that key |
| Dicts.GetOr | src/infrastructure/text_postprocessor.py:76-78 | `d.get(key, default)` is the stored value when the key is present, else the default |
| Rewrite.MatchAt | src/infrastructure/processors/text_preprocessor.py:25 | a match of any of the eight patterns consumes at least one character and stays inside the text |
| Rewrite.Sub | src/infrastructure/processors/text_preprocessor.py:30 | `re.sub` with a pattern that matches nowhere returns the text unchanged |
| Rewrite.AtTimeDrops | src/infrastructure/processors/text_preprocessor.py:38 | `\bàs\s+(\d{1,2}:\d{2})\b` turns `às` (any case), whitespace and a clock `H:MM` or `HH:MM`, standing as whole words, into the clock alone, and keeps the text on both sides when it has no other `à` |
| Rewrite.SubWithoutAGrave | src/infrastructure/processors/text_preprocessor.py:38-39 | the two `às` patterns leave text without `à` unchanged |
| Rewrite.SubIsWordMap | src/infrastructure/processors/text_preprocessor.py:29-30 | `re.sub` of a whole-word pattern rewrites each maximal `\w` run on its own, the same as the run-by-run reference `WordMap` |
| Rewrite.NoMatchIffNoRun | src/infrastructure/processors/text_preprocessor.py:29-30 | a whole-word pattern matches nowhere exactly when it accepts no `\w` run |
| Rewrite.NoMatchAfterSub | src/infrastructure/processors/text_preprocessor.py:30 | after a whole-word substitution the pattern matches nowhere in the result |
| Rewrite.SubIdempotent | src/infrastructure/processors/text_preprocessor.py:30 | a whole-word substitution applied twice equals it applied once |
| Rewrite.SubKeepsNoMatch | src/infrastructure/processors/text_preprocessor.py:28-30 | a substitution that writes digits does not create a match for another whole-word rule |
| Rewrite.WordMapCompose | src/infrastructure/processors/text_preprocessor.py:42-43 | two run-by-run rewrites in a row are the rewrite by their composition |
| ScanFacts.ScanFilter | src/infrastructure/processors/text_preprocessor.py:25 | a substitution whose matches and replacements consist only of dropped characters keeps the other characters, in order |
| ScanFacts.ScanLacks | src/infrastructure/processors/text_preprocessor.py:48 | a substitution that consumes every `c` and never writes one leaves no `c` |
| ScanFacts.ScanOneSpaceAfter | src/infrastructure/processors/text_preprocessor.py:48-49 | a substitution that writes `c` followed by one space, and absorbs every `c` with the whitespace after it, leaves every `c` followed by exactly one space and then a non-space character or the end |
| ScanFacts.ScanFilterMap | src/infrastructure/processors/text_preprocessor.py:48-49 | when each match writes, among the kept characters, the images of those it consumes, the kept characters of the result are the images of the kept characters of the text, in order |
| ScanFacts.ScanSingleSpaced | src/infrastructure/processors/text_preprocessor.py:42-43 | a substitution on single-spaced text whose replacements are single-spaced and start with a non-space character keeps the text single-spaced |
| TextPreprocessing.NormalizeWhitespace | src/infrastructure/processors/text_preprocessor.py:24-25 | `re.sub(r"\s+", " ", text.strip())` is the text's whitespace-separated words joined by single spaces |
| TextPreprocessing.SpaceRunJoinsWords | src/infrastructure/processors/text_preprocessor.py:25 | the scan that replaces each whitespace run of the stripped text by one space joins the text's words with single spaces |
| TextPreprocessing.WhitespaceCollapsed | src/infrastructure/processors/text_preprocessor.py:24-25 | after `_normalize_whitespace` every whitespace character is a single space and neither end has whitespace |
| TextPreprocessing.WhitespaceKeepsText | src/infrastructure/processors/text_preprocessor.py:24-25 | `_normalize_whitespace` keeps every non-whitespace character, in order |
| TextPreprocessing.WhitespaceEmptyIff | src/infrastructure/processors/text_preprocessor.py:24-25 | the result is empty exactly when the text is all whitespace |
| TextPreprocessing.WhitespaceIdempotent | src/infrastructure/processors/text_preprocessor.py:24-25 | normalising twice equals normalising once |
| TextPreprocessing.ApplyAllIsWordMap | src/infrastructure/processors/text_preprocessor.py:28-31 | applying whole-word digit rules in sequence rewrites each run with the first rule that matches it |
| TextPreprocessing.ApplyAllClears | src/infrastructure/processors/text_preprocessor.py:28-31 | after the sequence no rule matches anywhere |
| TextPreprocessing.ApplyAllIdempotent | src/infrastructure/processors/text_preprocessor.py:28-31 | running the sequence again changes nothing |
| TextPreprocessing.RelativeDates | src/infrastructure/processors/text_preprocessor.py:10-14 | the table maps `hoje`, `ontem`, `anteontem`, in that order, to the dates 0, 1 and 2 days before today, formatted `%Y-%m-%d` |
| TextPreprocessing.TextPreprocessor.constructor | src/infrastructure/processors/text_preprocessor.py:9-14 | the relative-date table is built for the given `today` |
| TextPreprocessing.RelativeDatesAsWordMap | src/infrastructure/processors/text_preprocessor.py:27-32 | `_normalize_relative_dates` replaces each whole word equal, ignoring case, to a relative-date word by its date, and changes nothing else |
| TextPreprocessing.RelativeDatesCleared | src/infrastructure/processors/text_preprocessor.py:27-32 | afterwards no relative-date word is left as a whole word, and the step is idempotent |
| TextPreprocessing.TextPreprocessor.NormalizeRelativeDates | src/infrastructure/processors/text_preprocessor.py:27-32 | the loop over the table applies each word's substitution in dict order |
| TextPreprocessing.HourRulesAsWordMap | src/infrastructure/processors/text_preprocessor.py:36-37 | the first two time patterns rewrite each run `D{1,2}hDD` to `D:DD` and `D{1,2}h` to `D:00`, and nothing else |
| TextPreprocessing.TimeFormatsSteps | src/infrastructure/processors/text_preprocessor.py:34-45 | the four time patterns are the run rewrite followed by the two `às` substitutions |
| TextPreprocessing.AtHourAfterHourOnly | src/infrastructure/processors/text_preprocessor.py:37-39 | once `\b(\d{1,2})h\b` has run, `\bàs\s+(\d{1,2})h\b` has nothing left to match |
| TextPreprocessing.TextPreprocessor.NormalizeTimeFormats | src/infrastructure/processors/text_preprocessor.py:34-45 | the loop applies the four patterns in order; what they do is fixed by `HourRulesAsWordMap`, `AtTimeDrops` and the time examples |
| TextPreprocessing.PunctuationKeepsProse | src/infrastructure/processors/text_preprocessor.py:47-51 | `_clean_punctuation` keeps every character other than whitespace, `,`, `;` and `.`, in order |
| TextPreprocessing.CleanedPunctuation | src/infrastructure/processors/text_preprocessor.py:47-51 | the marks `,` `;` `.` of the result are those of the text, in order, each `;` turned into `,`; every `,` and `.` is followed by exactly one space and then a non-space character or the end; no `;` is left |
| TextPreprocessing.PunctuationOfUnmarked | src/infrastructure/processors/text_preprocessor.py:47-51 | text without `,` `;` `.` passes `_clean_punctuation` unchanged, whitespace included |
| TextPreprocessing.PunctuationAtMark | src/infrastructure/processors/text_preprocessor.py:47-51 | at the first mark, the text before it is kept as it is, the mark (`;` as `,`) and all whitespace after it become the mark and one space, and the rest is cleaned on its own; with `PunctuationOfUnmarked` this fixes the result for every text |
| TextPreprocessing.TextPreprocessor.CleanPunctuation | src/infrastructure/processors/text_preprocessor.py:47-51 | the two substitutions, commas and semicolons first, computing `CleanedPunctuation` |
| TextPreprocessing.Preprocessed | src/infrastructure/processors/text_preprocessor.py:16-22 | the preprocessed text has no whitespace at either end and no `;` |
| TextPreprocessing.PreprocessedSpacing | src/infrastructure/processors/text_preprocessor.py:16-22 | for any text, the preprocessed text is single-spaced (every whitespace character a lone space) and trimmed |
| TextPreprocessing.PreprocessedTimeWord | src/infrastructure/processors/text_preprocessor.py:34-45 | a lone word the time patterns turn into a clock is preprocessed to that clock |
| TextPreprocessing.PreprocessedAtTimeWord | src/infrastructure/processors/text_preprocessor.py:38 | `às` followed by such a word is preprocessed to the clock alone |
| TextPreprocessing.PreprocessedAtHourMinute | src/infrastructure/processors/text_preprocessor.py:36-38 | `às HhMM` (one or two hour digits) is preprocessed to `H:MM` |
| TextPreprocessing.PreprocessedHour | src/infrastructure/processors/text_preprocessor.py:37 | `Hh` is preprocessed to `H:00` |
| TextPreprocessing.PreprocessedAtHour | src/infrastructure/processors/text_preprocessor.py:37-38 | `às Hh` is preprocessed to `H:00` |
| TextPreprocessing.AtHourMinuteExample | tests/unit/test_text_preprocessor.py:30 | `"às 14h30"` is preprocessed to `"14:30"` |
| TextPreprocessing.HourExample | tests/unit/test_text_preprocessor.py:31 | `"14h"` is preprocessed to `"14:00"` |
| TextPreprocessing.AtHourExample | tests/unit/test_text_preprocessor.py:32 | `"às 9h"` is preprocessed to `"9:00"` |
| TextPreprocessing.PreprocessedSentence | src/infrastructure/processors/text_preprocessor.py:16-22 | text whose words are `ontem` (any case), `às`, `HhMM,` and two plain words ending in `.` is preprocessed to yesterday's date, `H:MM,` and the two words, single-spaced, ending in `.` |
| TextPreprocessing.FullPreprocessingExample | tests/unit/test_text_preprocessor.py:39-48 | `"Ontem  às   14h30,  houve   falha."` is preprocessed to yesterday's date followed by `" 14:30, houve falha."` |
| TextPreprocessing.PreprocessedSteps | src/infrastructure/processors/text_preprocessor.py:16-22 | `preprocess` is the composition of the step references, in order, then `strip()` |
| TextPreprocessing.TextPreprocessor.Preprocess | src/infrastructure/processors/text_preprocessor.py:16-22 | the four steps in their fixed order, then `strip()`, computing `Preprocessed`; `PreprocessedSpacing` and the examples fix the result |
| ValueObjects.Str | src/domain/value_objects.py:9-10 | `__str__` gives the content, from which the prompt is rebuilt unchanged |
| ValueObjects.Default | src/domain/value_objects.py:12-57 | the default prompt is the fixed template: instructions, field list, example incident, example answer in doubled braces, the `{incident_text}` field and the closing line |
| ValueObjects.Format | src/application/use_cases/extract_incident_info.py:29 | `str.format(incident_text=...)` fails only with `ValueError`, `KeyError`, `IndexError` or a field outside the model |
| ValueObjects.FieldValue | src/application/use_cases/extract_incident_info.py:29 | a field yields the value exactly when it is `incident_text`; a positional field (`{}` or a number) is an `IndexError`; any other keyword is a `KeyError` naming that keyword |
| ValueObjects.FormatFieldFirst | src/application/use_cases/extract_incident_info.py:29 | a template starting with a field formats to the field's value followed by the formatted rest, or fails with the field's error |
| ValueObjects.AutoNumberedFieldFails | src/application/use_cases/extract_incident_info.py:29 | `"{}"` raises `IndexError("Replacement index 0 out of range for positional args tuple")` |
| ValueObjects.NumberedFieldFails | src/application/use_cases/extract_incident_info.py:29 | `"{0}"` raises the same `IndexError` |
| ValueObjects.UnknownFieldFails | src/application/use_cases/extract_incident_info.py:29 | a field with another keyword raises `KeyError` of that keyword |
| ValueObjects.FormatText | src/application/use_cases/extract_incident_info.py:29 | `str.format` copies brace-free text |
| ValueObjects.FormatField | src/application/use_cases/extract_incident_info.py:29 | `{incident_text}` is replaced by the value |
| ValueObjects.FormatOpen | src/domain/value_objects.py:46 | `{{` gives `{` |
| ValueObjects.FormatClose | src/domain/value_objects.py:51 | `}}` gives `}` |
| ValueObjects.FormatRender | src/application/use_cases/extract_incident_info.py:29 | a template written from pieces formats to each piece filled in place |
| ValueObjects.FillWithoutField | src/domain/value_objects.py:35-55 | text without the field does not depend on the value |
| ValueObjects.HeadHasNoBraces | src/domain/value_objects.py:35-45 | the template text before the example object has no brace |
| ValueObjects.FormatDefault | src/application/use_cases/extract_incident_info.py:28-29 | formatting the default prompt never raises; it gives a fixed preamble (with the example's braces undoubled), the value, and a fixed tail; the field occurs once |
| ValueObjects.DefaultNamesTheFields | src/domain/value_objects.py:37-40 | the prompt lists exactly the four canonical fields, in `to_dict` order, as does its example answer |
| JsonParsing.IsValidJsonStructure | src/infrastructure/json_parser.py:39-44 | the candidate is accepted exactly when it decodes to an object |
| JsonParsing.Parsed | src/infrastructure/json_parser.py:10-16 | a parsed value is the decoding of the extracted text; every failure is an `InvalidJsonResponseError` saying either that no JSON was found or that parsing failed |
| JsonParsing.ExtractJson | src/infrastructure/json_parser.py:18-37 | a result is a candidate that decodes to an object, or the stripped answer starting with `{` and ending with `}`; the only error is `"No valid JSON found in response"` |
| JsonParsing.ExtractJsonFromText | src/infrastructure/json_parser.py:18-37 | the loop over the three patterns with its early return, then the fallback, computes `ExtractJson` |
| JsonParsing.Parse | src/infrastructure/json_parser.py:10-16 | the extracted text decoded; a decoding failure is `InvalidJsonResponseError("Failed to parse JSON: " + message)` |
| JsonParsing.FirstCloseIs | src/infrastructure/json_parser.py:22-24 | the lazy `.*?\}` closes at the first `}` where the rest of the pattern matches |
| JsonParsing.FirstMatchIs | src/infrastructure/json_parser.py:28 | `re.findall(...)[0]` is the group of the leftmost match |
| JsonParsing.CandidateIs | src/infrastructure/json_parser.py:28-30 | a pattern's candidate is its leftmost group, stripped |
| JsonParsing.FirstAcceptedAt | src/infrastructure/json_parser.py:27-32 | the first accepted candidate is returned, whatever later patterns give |
| JsonParsing.FirstAcceptedFound | src/infrastructure/json_parser.py:27-32 | a returned candidate is accepted, and all earlier ones were refused |
| JsonParsing.FirstAcceptedNone | src/infrastructure/json_parser.py:27-33 | the loop finds nothing exactly when every candidate is refused |
| JsonParsing.FirstOfThree | src/infrastructure/json_parser.py:21-32 | the three patterns are tried in the order `json` fence, bare fence, braces |
| JsonParsing.ExtractFallback | src/infrastructure/json_parser.py:34-37 | when every pattern fails, the stripped answer is returned unchecked if it starts with `{` and ends with `}`, and refused otherwise |
| JsonParsing.NoBraceNoCandidate | src/infrastructure/json_parser.py:21-25 | no pattern matches text without `{` |
| JsonParsing.NoBraceNoJson | src/infrastructure/json_parser.py:18-37 | an answer without `{` is refused with `"No valid JSON found in response"` |
| JsonParsing.ParseYieldsObject | src/infrastructure/json_parser.py:10-14 | given a decoder that decodes text starting with `{` to objects, a successful parse is an object |
| JsonParsing.ParseAccepted | src/infrastructure/json_parser.py:11-14 | an accepted candidate is the text `parse` decodes |
| JsonParsing.NoFence | src/infrastructure/json_parser.py:22-23 | no fenced pattern matches text without a backtick |
| JsonParsing.BracesGroup | src/infrastructure/json_parser.py:24 | the braces pattern takes the first `{` and the first `}` after it |
| JsonParsing.EmbeddedObjectCandidate | src/infrastructure/json_parser.py:21-30 | a flat object in prose without backticks: both fences fail and the braces give the object |
| JsonParsing.EmbeddedObject | src/infrastructure/json_parser.py:10-37 | such an answer (parser tests, lines 11-35) parses to the decoded object |
| JsonParsing.MalformedRefused | src/infrastructure/json_parser.py:27-32 | no pattern accepts a flat object that does not decode |
| JsonParsing.MalformedObject | src/infrastructure/json_parser.py:10-16 | a malformed flat object passes the fallback unchecked, and `parse` reports the decoder's message (parser test, lines 43-47) |
| JsonParsing.FencedMatch | src/infrastructure/json_parser.py:22 | the `json` fence pattern matches at the start of a fenced flat object and yields the object |
| JsonParsing.FencedObject | src/infrastructure/json_parser.py:10-32 | a flat object in a `json` fence parses to the decoded object (parser test, lines 18-27) |
| JsonParsing.NotJsonRefused | src/infrastructure/json_parser.py:34-37 | the parser tests' plain-prose answer is refused with `"No valid JSON found in response"` |
| TextPostprocessing.ExpectedKeysAreFieldNames | src/infrastructure/text_postprocessor.py:10-27 | the canonical keys of `EXPECTED_FIELDS` are the four fields of `to_dict`, in order |
| TextPostprocessing.BestFieldMatch | src/infrastructure/text_postprocessor.py:55-69 | the key returned is one of the keys |
| TextPostprocessing.FindBestFieldMatch | src/infrastructure/text_postprocessor.py:55-69 | the loop keeps a key only when its ratio beats the best so far and reaches 0.6, computing `BestFieldMatch` |
| TextPostprocessing.BestSoFarInvariant | src/infrastructure/text_postprocessor.py:58-67 | after any prefix of the keys, the loop holds the earliest key of maximal ratio among those reaching the threshold, or nothing |
| TextPostprocessing.EarliestBestUnique | src/infrastructure/text_postprocessor.py:65 | the earliest best key is unique |
| TextPostprocessing.BestFieldMatchSpec | src/infrastructure/text_postprocessor.py:55-69 | `None` exactly when no key reaches 0.6; otherwise the earliest key of maximal lower-cased ratio |
| TextPostprocessing.FirstSynonym | src/infrastructure/text_postprocessor.py:38-41 | a non-`None` result is the value of one of the synonyms |
| TextPostprocessing.FirstSynonymIsFirstPresent | src/infrastructure/text_postprocessor.py:38-41 | the loop stops at the first synonym present, whatever its value |
| TextPostprocessing.FirstSynonymOfAbsent | src/infrastructure/text_postprocessor.py:38-41 | with no synonym present it yields `None` |
| TextPostprocessing.Resolve | src/infrastructure/text_postprocessor.py:33-48 | a canonical key present decides the value, which is then the stored one; any other non-`None` value is one stored in the input |
| TextPostprocessing.CollectPairs | src/infrastructure/text_postprocessor.py:50-51 | the dict built holds exactly the canonical keys whose value is not `None`, each with its value |
| TextPostprocessing.Normalized | src/infrastructure/text_postprocessor.py:29-53 | at most four entries, only canonical keys and no `None`; every canonical key with a non-`None` resolved value is there with that value |
| TextPostprocessing.Resolved | src/infrastructure/text_postprocessor.py:32-49 | one value per canonical key, each the loop body's resolution, in `EXPECTED_FIELDS` order |
| TextPostprocessing.NormalizeFieldNames | src/infrastructure/text_postprocessor.py:29-53 | the loop over the canonical keys builds exactly `Normalized` |
| TextPostprocessing.NormalizedShape | src/infrastructure/text_postprocessor.py:50-53 | only canonical keys come out, each at most once, in order, none with value `None` |
| TextPostprocessing.NormalizedGet | src/infrastructure/text_postprocessor.py:32-53 | the output's value for a canonical key is its resolved value; the key is missing exactly when that value is `None` |
| TextPostprocessing.CanonicalKeyWins | src/infrastructure/text_postprocessor.py:35-36 | a canonical key present in the input decides its field alone, even when its value is `None` |
| TextPostprocessing.SynonymOrder | src/infrastructure/text_postprocessor.py:37-41 | without the canonical key, the first synonym present in list order supplies the value |
| TextPostprocessing.FuzzyOnlyAsFallback | src/infrastructure/text_postprocessor.py:43-48 | the similarity ratio cannot change a field that the canonical key or a synonym resolves |
| TextPostprocessing.FuzzyFallback | src/infrastructure/text_postprocessor.py:43-48 | with neither, the field takes the value of the best fuzzy match over all keys, if any |
| TextPostprocessing.NormalizeExample | src/infrastructure/text_postprocessor.py:29-53 | the reconciliation example of the postprocessor tests (lines 27-44) |
| TextPostprocessing.FuzzyFeedsSeveralFields | src/infrastructure/text_postprocessor.py:43-48 | one input key can fill several canonical fields |
| TextPostprocessing.ParseDatetime | src/infrastructure/text_postprocessor.py:81-83 | `None` and `""` give no date |
| TextPostprocessing.ParseDatetimeRoundTrip | src/infrastructure/text_postprocessor.py:81-91 | the serialised date of a record is read back as that date, and a serialised `None` as no date |
| TextPostprocessing.ParseDatetimeDateOnly | src/infrastructure/text_postprocessor.py:88-89 | a bare date falls through to the second format and is read as midnight |
| TextPostprocessing.ParseDatetimeExamples | src/infrastructure/text_postprocessor.py:81-91 | the two well-formed strings of the postprocessor tests (lines 10-18) |
| TextPostprocessing.ParseDatetimeRejects | src/infrastructure/text_postprocessor.py:85-91 | `"invalid-date"`, `"2025/08/13"` and `""` give no date, and nothing is raised (postprocessor tests, lines 20-25) |
| TextPostprocessing.BuildIncidentInfo | src/infrastructure/text_postprocessor.py:71-79 | the date is the parsed `data_ocorrencia`; each text field is the stored value, or `""` when its key is missing |
| TextPostprocessing.BuildAfterToDict | src/infrastructure/text_postprocessor.py:71-79 | building from a record's own `to_dict` gives the record back |
| TextPostprocessing.BuildAfterNormalizeHasText | src/infrastructure/text_postprocessor.py:71-79 | after reconciliation the three text fields are never `None` |
| TextPostprocessing.NormalizeRoundTrip | src/infrastructure/text_postprocessor.py:29-79 | serialising a record whose text fields are strings, reconciling and building gives the record back |
| ExtractIncidentInfo.Preview | src/application/use_cases/extract_incident_info.py:37 | `llm_response[:200]`: a prefix of at most 200 characters, the whole reply when it is shorter |
| ExtractIncidentInfo.ParseFailureMessage | src/application/use_cases/extract_incident_info.py:37 | the message is `LLM response: `, exactly the first 200 characters of the reply (all of it when shorter), the separator `ErrorLabel` (three dots, a space, a vertical bar, ` Error: `) and the parser's message, in that order and nothing else |
| ExtractIncidentInfo.Interpreted | src/application/use_cases/extract_incident_info.py:33-41 | a reply fails exactly when `parse` fails, and the failure is an `InvalidJsonResponseError` |
| ExtractIncidentInfo.Outcome | src/application/use_cases/extract_incident_info.py:25-41 | a service error reaches the caller unchanged; otherwise `execute` fails exactly when `parse` refuses the reply |
| ExtractIncidentInfo.ExtractIncidentInfoUseCase.constructor | src/application/use_cases/extract_incident_info.py:13-23 | the use case keeps its collaborators |
| ExtractIncidentInfo.ExtractIncidentInfoUseCase.Execute | src/application/use_cases/extract_incident_info.py:25-41 | preprocess, format, ask the model, parse, reconcile and build, computing `Outcome` |
| ExtractIncidentInfo.ExtractIncidentInfoUseCase.Interpret | src/application/use_cases/extract_incident_info.py:33-41 | the parse, its re-raise and the two postprocessor calls compute `Interpreted` |
| ExtractIncidentInfo.PromptFramesText | src/application/use_cases/extract_incident_info.py:26-29 | the prompt is always built, and is the fixed preamble, the preprocessed text and the fixed tail |
| ExtractIncidentInfo.ServiceAnswerPassedOn | src/application/use_cases/extract_incident_info.py:31 | the reply is the service's answer to that prompt; a service error reaches the caller unchanged |
| ExtractIncidentInfo.ParseFailureWrapped | src/application/use_cases/extract_incident_info.py:33-38 | a reply is refused exactly when `parse` refuses it; the error is then `InvalidJsonResponseError` whose message is `"LLM response: "`, `response[:200]`, the separator `ErrorLabel` and the parser's message |
| ExtractIncidentInfo.ReplyWithoutBraceRefused | src/application/use_cases/extract_incident_info.py:33-38 | a reply without `{` is refused, naming the missing JSON |
| ExtractIncidentInfo.InterpretedHasText | src/application/use_cases/extract_incident_info.py:40-41 | a record built from a reply has text in its three text fields |
| ExtractIncidentInfo.SerialisedRecordRecovered | src/application/use_cases/extract_incident_info.py:33-41 | a reply that parses to a record's `to_dict` gives back that record |
| ExtractIncidentInfo.OutcomeOfSerialisedRecord | src/application/use_cases/extract_incident_info.py:25-41 | end to end: when the model answers the prompt with a record's serialisation, `execute` returns that record |

## Modelling decisions

**Parameters for the outside world.** The language model, `json.loads`, `difflib` and
the clock are parameters:
- The model is a function from prompt to reply or error.
- `json.loads` is a `Decoder`: a function to a decoded value or the message of its
  `JSONDecodeError`.
- `difflib.SequenceMatcher(...).ratio()` is a function on two strings.
- `datetime.now()` enters as the `today` parameter of the `TextPreprocessor`
  constructor. The constructor calls `datetime.now()` three times, once per table
  entry; the model reads the clock once, so all three dates count back from the same
  day.

Two requirements follow from this:
- The use-case lemmas assume of the decoder only `ObjectsStartWithBrace`: text that
  starts with `{` and decodes at all decodes to an object, which holds of `json.loads`.
- The constructor requires two days before `today` to exist.

**JSON values are strings or `null`.** Numbers, booleans, lists and nested objects in
an answer are not modelled. A decoded non-object is `NonObject`.

**Text fields are `Value`s.** The record's text fields are annotated `str`, but a JSON
`null` reaches them unchanged. So they are `Value`s, and `InterpretedHasText` proves
that after reconciliation they are always strings.

**`IncidentText` is declared twice.** It appears in `src/domain/entities/incident_text.py`
and in `app/domain/entities.py` with the same body. One datatype models both.

**Regular expressions.** Each is written out as a function saying where it matches.
`re.sub` is the left-to-right scan of `Rewrite.Scan`. `re.findall(...)[0]` is the
leftmost match, with a lazy `.*?` and a greedy `\s*`.
- `\s` is Python's full `isspace` set.
- `\w` and `re.IGNORECASE` cover ASCII and Latin-1 letters and digits, which is what
  the Portuguese words involve.

**`str.format`** is modelled for literal text, `{{`, `}}` and replacement fields, with
Python's messages for unmatched braces. A field's argument name is the text before its
first `.`, `[`, `!` or `:`:
- an empty name (`{}`) or a number (`{0}`) is a positional field and raises
  `IndexError("Replacement index N out of range for positional args tuple")`;
- any keyword other than `incident_text` raises `KeyError` of that keyword;
- `{incident_text}` gives the value;
- `incident_text` followed by an index, an attribute, a conversion or a format spec
  is `UnmodelledField`.

**How the postprocessor resolves a field, as the code is written**
(src/infrastructure/text_postprocessor.py):
- Fuzzy-match ties go to the earliest key, because the loop replaces its best only on a
  strictly greater ratio (`ratio > best_ratio`, line 65).
- The fuzzy match looks at every key of the input (`list(data.keys())`, line 45), not
  only the keys no field has taken, so one key can fill several fields
  (`FuzzyFeedsSeveralFields`).
- A canonical key present with `null` decides its field, and the field is then left
  out (lines 35-36 and 50; `CanonicalKeyWins`).
- A synonym present with `null` stops the synonym search (the `break` at line 41), and
  the fuzzy match then runs.
- `if best_match:` (line 47) treats an empty key `""` as no match.

**The fourth time pattern never fires.** `\bàs\s+(\d{1,2})h\b` finds nothing to match
once `\b(\d{1,2})h\b` has run (`AtHourAfterHourOnly`). Its intended effect still
happens: `às 9h` becomes `às 9:00`, and the third pattern then removes `às`
(`AtHourExample`).

## Left out

- The HTTP API, the schemas, the Ollama client, startup scripts, logging and the
  interface base classes: they only connect the pipeline to the outside world.
- `async`/`await` in `execute`: the model call is a plain function of the prompt.
- `LLMResponse`: no core function uses it.
- `json.loads` itself, `difflib`'s ratio and the language model are parameters, not
  models. The messages of `JSONDecodeError` are therefore not modelled.
- JSON numbers, booleans (`true`/`false`, which `normalize_field_names` would keep, since
  they are not `None`), arrays and nested objects in the decoded answer.
- Seconds in `datetime` values: every format used stops at minutes.
- Case folding beyond Latin-1, and `\w` beyond Latin-1 letters and digits.
- ValueObjects.FieldValue: what `str.format` does with an index, an attribute, a
  conversion (`!r`) or a format spec (`:>10`) applied to `incident_text` is not
  modelled (`UnmodelledField`), nor are fields nested inside a format spec; the
  template uses none of them. A positional field of 20 or more digits raises
  `ValueError("Too many decimal digits in format string")` in Python; the model gives
  the positional `IndexError` for it.
- `\d` matches only the ASCII digits `0`-`9`, where Python's `\d` also matches other
  Unicode decimal digits; the same holds for the digits of a positional field.
- TextPreprocessing.TextPreprocessor.constructor: the three `datetime.now()` calls are
  one `today`, so a constructor running across midnight is not modelled.
- Calendar.PreviousDay: `OverflowError` before 0001-01-01 is excluded by a precondition
  rather than modelled, because only a clock set to that day would reach it.
- JsonParsing.FirstMatch: its contract states only that a match exists at the index it
  returns; that the index is the leftmost is stated separately by `FirstMatchIs`.
- ExtractIncidentInfo.ExtractIncidentInfoUseCase.Execute: other exceptions from the
  postprocessor are not modelled, because its operations never raise on the decoded
  dicts modelled here.
