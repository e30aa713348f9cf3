# Vocabulary extraction and quiz engine, in Dafny

This project models the engine under `lib/` of a Japanese-subtitle study
application. The engine reads an SRT subtitle file and cuts the Japanese text of
its entries into tokens. It counts the vocabulary tokens by dictionary form,
keeping a few sample sentences for each word. It ranks the frequent words and
resolves their meanings through a three-tier cache. While it does so, it reports
progress through a shared tracker. Later it builds multiple-choice quizzes from
the stored vocabulary.

One Dafny module per source file:

| module | file | source |
|---|---|---|
| `Common` | `common.dfy` | JavaScript string built-ins the engine relies on: `trim`, `split`, `join`, `indexOf`, `filter`, decimal rendering |
| `SrtParser` | `srt_parser.dfy` | `lib/srt-parser.ts` |
| `JapaneseProcessor` | `japanese_processor.dfy` | `lib/japanese-processor.ts` |
| `JapaneseProcessorApi` | `japanese_processor_api.dfy` | `lib/japanese-processor-api.ts` |
| `VocabularyExtractor` | `vocabulary_extractor.dfy` | `lib/vocabulary-extractor.ts` |
| `Dictionary` | `dictionary.dfy` | `lib/dictionary.ts` |
| `ProgressTracker` | `progress_tracker.dfy` | `lib/progress-tracker.ts` |
| `QuizGenerator` | `quiz_generator.dfy` | `lib/quiz-generator.ts` |

Strings are sequences of characters. Regular expressions are written out as
recursive functions that scan the way the JavaScript engine matches (leftmost,
greedy, global). Where the source loops or updates state in place, the model does
too. `parse`, `simpleTokenize`, the de-duplicating `filterVocabulary`, both loops
of `extractFromSubtitles`, `lookupBatch`, `generateOptions`, the Fisher–Yates
`shuffleArray` (on an array) and the quiz loops are methods with loop invariants.
Each is proved against a specification function, and lemmas state the properties
of those functions. The dictionary's module-level caches and the tracker's shared
map are fields of the classes `Dictionary.Dictionary` and `ProgressTracker.Tracker`.

These collaborators are inputs:
- The morphological analyzer (kuromoji) is a function from text to
  `Option<seq<AnalyzerToken>>`; `None` stands for a thrown error.
- The remote word service is a function from word to `Response`; `RequestFailed`
  stands for any network error, timeout or non-2xx answer.
- Whether the persistent store's query for a word succeeds is a function `storeUp` from word to boolean.
- The clock reading `Date.now()` is a parameter `now`.
- `Math.random` is a nondeterministic choice (`:|`), so every contract holds
  whatever the random draws are.

## Model

| member | source | states |
|---|---|---|
| SrtParser.Parse | lib/srt-parser.ts:7-47 | the loop over blocks with its three `continue`s returns exactly the entries of the well-formed blocks, in block order |
| SrtParser.ParseLines | lib/srt-parser.ts:17-43 | no entry exactly when the block has fewer than 3 lines, its trimmed first line is not an integer, or its second line has no timestamp pair; otherwise the entry has the parsed sequence number, two `DD:DD:DD,DDD` timestamps and the cleaned join of the remaining lines as its text |
| SrtParser.ParseBlocks | lib/srt-parser.ts:16-44 | at most one entry per block |
| SrtParser.ParseBlocksWellFormed | lib/srt-parser.ts:16-44 | every emitted entry has two `DD:DD:DD,DDD` timestamps and clean text |
| SrtParser.ParseBlocksSnoc | lib/srt-parser.ts:16-44 | one more block appends its entry, if any, after the entries of the earlier blocks |
| SrtParser.ParseIgnoresBom | lib/srt-parser.ts:11 | content with a leading U+FEFF parses to the same entries as content without it |
| SrtParser.FindTimestamps | lib/srt-parser.ts:26-30 | a match of the timestamp pattern yields two strings of the shape `DD:DD:DD,DDD` |
| SrtParser.TimestampLineRoundTrip | lib/srt-parser.ts:26-30 | a line written as `start --> end` is read back as the same two timestamps |
| SrtParser.ParseIntJs | lib/srt-parser.ts:22-23 | `parseInt` gives a number only when the line holds a decimal digit |
| SrtParser.ParseIntJsOfDecimal | lib/srt-parser.ts:22 | every integer written in decimal parses back to itself |
| SrtParser.RemoveEnclosed | lib/srt-parser.ts:54-57 | after removing tags or parentheticals, no opening bracket is followed later by a closing one, and no new character appears |
| SrtParser.RemoveEnclosedKeeps | lib/srt-parser.ts:54-57 | removing parentheticals after tags keeps the result free of tags |
| SrtParser.CollapseWs | lib/srt-parser.ts:60 | every whitespace character becomes a plain space and no two whitespace characters are adjacent |
| SrtParser.CleanHtml | lib/srt-parser.ts:52-63 | the cleaned text has no tag, no parenthetical, no newline or run of two whitespace characters, and no whitespace at either end |
| SrtParser.CleanHtmlFixesClean | lib/srt-parser.ts:52-63 | clean text passes through `cleanHTML` unchanged |
| SrtParser.CleanHtmlIdempotent | lib/srt-parser.ts:52-63 | cleaning twice equals cleaning once |
| SrtParser.CleanTextHasNoNewline | lib/srt-parser.ts:33-36 | entry text never holds a newline |
| SrtParser.ContainsJapanese | lib/srt-parser.ts:78-81 | true exactly when some character lies in U+3040–309F, U+30A0–30FF or U+4E00–9FAF |
| SrtParser.EntryTexts | lib/srt-parser.ts:70 | the texts of the entries, one per entry, in order |
| SrtParser.JapaneseTexts | lib/srt-parser.ts:68-73 | an in-order subsequence of the entry texts; a text is in it exactly when it is some entry's text and contains Japanese, and then as many times as it is an entry's text; it is empty exactly when no entry text contains Japanese |
| SrtParser.ExtractJapaneseTextSplitsBack | lib/srt-parser.ts:68-73 | the joined text splits at newlines into exactly the Japanese entry texts, in order |
| SrtParser.BlankContentHasNoEntries | lib/srt-parser.ts:87-95 | blank content parses to no entries |
| SrtParser.Validate | lib/srt-parser.ts:86-104 | "File is empty" exactly for blank content, "No valid subtitle entries found" exactly for non-blank content without entries, "No Japanese text found in subtitles" exactly when entries exist but none has Japanese, and valid exactly when some entry has Japanese |
| JapaneseProcessor.ToToken | lib/japanese-processor.ts:59-64 | the word is the surface form; a missing or empty reading or base form falls back to the surface form, otherwise the analyzer's value is kept |
| JapaneseProcessor.Tokenize | lib/japanese-processor.ts:57-64 | one token per analyzer token, in order |
| JapaneseProcessor.FilterVocabulary | lib/japanese-processor.ts:70-103 | an in-order subsequence of the input holding exactly the tokens that pass the filter, each as many times as it occurs in the input |
| JapaneseProcessor.FilterVocabularySurvivors | lib/japanese-processor.ts:80-101 | a surviving token has no excluded part of speech, has a noun, verb or adjective part of speech, and its word holds a kanji or is non-empty all-katakana |
| JapaneseProcessor.AuxiliaryVerbsDropped | lib/japanese-processor.ts:71-84 | a 助動詞 token is dropped even though its part of speech contains 動詞 |
| JapaneseProcessor.SingleHiraganaCheckRedundant | lib/japanese-processor.ts:92-101 | a single-hiragana word would fail the kanji-or-katakana check as well |
| JapaneseProcessor.ShiftChar | lib/japanese-processor.ts:109-112 | a character in U+30A1–30F6 moves down by 0x60 into the hiragana block; others are unchanged; the result is never in U+30A1–30F6 |
| JapaneseProcessor.KatakanaToHiragana | lib/japanese-processor.ts:108-113 | same length, each character shifted on its own |
| JapaneseProcessor.GetHiraganaReading | lib/japanese-processor.ts:118-120 | same length as the reading, and no character left in U+30A1–30F6 |
| JapaneseProcessor.KatakanaToHiraganaIdempotent | lib/japanese-processor.ts:108-113 | converting twice equals converting once |
| JapaneseProcessor.KatakanaToHiraganaExample | lib/japanese-processor.ts:108-113 | "カタカナ" becomes "かたかな" |
| JapaneseProcessorApi.KanjiMatches | lib/japanese-processor-api.ts:41-45 | every match is a run of kanji or 々 followed only by hiragana |
| JapaneseProcessorApi.KatakanaMatches | lib/japanese-processor-api.ts:42-58 | every match is a non-empty run of ァ–ヶ or ー |
| JapaneseProcessorApi.KanjiEnd | lib/japanese-processor-api.ts:41 | at a kanji, the greedy match of `[一-龯々]+[ぁ-ん]*` is a non-empty prefix that is a kanji word |
| JapaneseProcessorApi.KanjiWordExtend | lib/japanese-processor-api.ts:41 | a kanji word extended by one character is still a kanji word exactly when the character is hiragana, or a kanji while the word has no hiragana yet |
| JapaneseProcessorApi.KatakanaMatchesMaximal | lib/japanese-processor-api.ts:42-58 | a string is a katakana match exactly when it occurs in the text as a katakana run with no katakana character on either side |
| JapaneseProcessorApi.KanjiMatchesMaximal | lib/japanese-processor-api.ts:41-45 | a string is a kanji match exactly when it occurs in the text as a kanji word that starts after a non-kanji (or at the start) and cannot be extended by the next character |
| JapaneseProcessorApi.KatakanaRunShift | lib/japanese-processor-api.ts:42-58 | a maximal katakana run of a suffix is one of the whole text when the character before the suffix is not katakana |
| JapaneseProcessorApi.KanjiRunShift | lib/japanese-processor-api.ts:41-45 | a maximal kanji word of a suffix is one of the whole text when the character before the suffix is not a kanji |
| JapaneseProcessorApi.KatakanaWordMatchedWhole | lib/japanese-processor-api.ts:42-58 | "アイ" is matched as one word |
| JapaneseProcessorApi.KanjiTakesHiraganaTail | lib/japanese-processor-api.ts:41-45 | "食べる" is matched as one word, kanji and hiragana tail together |
| JapaneseProcessorApi.KatakanaMatchesCover | lib/japanese-processor-api.ts:42-58 | the katakana matches, put together, are exactly the katakana characters of the text |
| JapaneseProcessorApi.KanjiMatchesCover | lib/japanese-processor-api.ts:41-45 | every kanji character of the text lies in a kanji match |
| JapaneseProcessorApi.TokensOfMatches | lib/japanese-processor-api.ts:46-55 | exactly the matches of length ≥ 2 become tokens |
| JapaneseProcessorApi.SimpleTokenize | lib/japanese-processor-api.ts:37-71 | the two push loops give the kanji tokens followed by the katakana tokens |
| JapaneseProcessorApi.SimpleTokensShape | lib/japanese-processor-api.ts:45-68 | every token has length ≥ 2, `word = reading = baseForm`, part of speech 名詞, and a word that is a kanji word or a katakana word but not both |
| JapaneseProcessorApi.KanjiBeforeKatakana | lib/japanese-processor-api.ts:44-68 | no kanji token comes after a katakana token |
| JapaneseProcessorApi.Tokenize | lib/japanese-processor-api.ts:18-31 | a throwing tokenizer gives the empty list; otherwise the tokens of `simpleTokenize` |
| JapaneseProcessorApi.Dedupe | lib/japanese-processor-api.ts:76-86 | an in-order subsequence with the same set of words and pairwise distinct words |
| JapaneseProcessorApi.DedupeKeepsFirst | lib/japanese-processor-api.ts:76-86 | the first token of every word is kept, at the position given by the number of distinct words before it |
| JapaneseProcessorApi.DedupeLength | lib/japanese-processor-api.ts:76-86 | one token is kept per distinct word |
| JapaneseProcessorApi.DedupePrefix | lib/japanese-processor-api.ts:76-86 | de-duplicating a prefix of the tokens gives a prefix of the de-duplicated tokens |
| JapaneseProcessorApi.DedupeOfDistinct | lib/japanese-processor-api.ts:76-86 | tokens with distinct words pass unchanged |
| JapaneseProcessorApi.DedupeIdempotent | lib/japanese-processor-api.ts:76-86 | de-duplicating twice equals de-duplicating once |
| JapaneseProcessorApi.FilterVocabulary | lib/japanese-processor-api.ts:76-86 | the filter over a `seen` set returns the de-duplicated tokens |
| VocabularyExtractor.FailedEntrySkipped | lib/vocabulary-extractor.ts:38-63 | an entry whose tokenizing throws adds no occurrence, so the word map is unchanged |
| VocabularyExtractor.FoldKeys | lib/vocabulary-extractor.ts:46-58 | the map holds exactly the words that occur, each listed once |
| VocabularyExtractor.FoldCounts | lib/vocabulary-extractor.ts:42-58 | a word's frequency is its number of occurrences over all entries, repeats included, and its contexts are the texts of its first five occurrences |
| VocabularyExtractor.FoldReading | lib/vocabulary-extractor.ts:44-57 | a word's reading is the hiragana reading of its first occurrence |
| VocabularyExtractor.FoldOrder | lib/vocabulary-extractor.ts:53-70 | the map lists words in order of first occurrence |
| VocabularyExtractor.FoldWellFormed | lib/vocabulary-extractor.ts:49-56 | every word has 1 to 5 contexts and frequency ≥ 1 |
| VocabularyExtractor.FirstText | lib/vocabulary-extractor.ts:49-56 | the first context is the text of the word's first occurrence |
| VocabularyExtractor.CountOccurrence | lib/vocabulary-extractor.ts:46-58 | the in-place update of one token: increment and append a context below 5, or insert a new record |
| VocabularyExtractor.CountTokens | lib/vocabulary-extractor.ts:42-59 | the inner loop folds every filtered token of one entry into the map |
| VocabularyExtractor.Aggregate | lib/vocabulary-extractor.ts:31-64 | the outer loop, skipping entries whose tokenizing throws, produces the aggregation of all occurrences |
| VocabularyExtractor.SortByFrequency | lib/vocabulary-extractor.ts:72 | the result is sorted non-increasing by frequency and is a permutation of the input |
| VocabularyExtractor.SortStable | lib/vocabulary-extractor.ts:72 | words of equal frequency keep their relative order |
| VocabularyExtractor.CandidatesMembers | lib/vocabulary-extractor.ts:70-72 | a word is a candidate exactly when it is in the map with frequency ≥ `minFrequency`, carrying its gathered data |
| VocabularyExtractor.CandidatesStable | lib/vocabulary-extractor.ts:70-72 | ties are ranked in first-encounter order |
| VocabularyExtractor.ToProcess | lib/vocabulary-extractor.ts:80 | at most 100 candidates are looked up |
| VocabularyExtractor.SelectedSpec | lib/vocabulary-extractor.ts:117-130 | exactly the candidates with a truthy meaning other than "Translation not found" are kept, with that meaning, in candidate order |
| VocabularyExtractor.ExtractedWord | lib/vocabulary-extractor.ts:117-127 | every kept word carries its true occurrence count (≥ `minFrequency`), the reading and sentence of its first occurrence, and a non-empty meaning other than "Translation not found" |
| VocabularyExtractor.RecordStep | lib/vocabulary-extractor.ts:100-107 | the tracker record moves from `i` to `i+1` lookups by one `update` |
| VocabularyExtractor.ReportLookup | lib/vocabulary-extractor.ts:100-107 | before the i-th lookup the tracker shows stage looking-up and `currentWord = i+1` |
| VocabularyExtractor.WordsToProcess | lib/vocabulary-extractor.ts:31-80 | the counting loop, the filter, the sort and the cut give the list to look up |
| VocabularyExtractor.LookedUpStep | lib/vocabulary-extractor.ts:117-130 | one more lookup keeps every word's dictionary answer, and its meaning is that word's answer against the caches the loop started with |
| VocabularyExtractor.LookupAll | lib/vocabulary-extractor.ts:96-141 | the k-th meaning is the dictionary's answer for the k-th word against the caches as they were before the loop; the result is the candidates with an accepted meaning; every truthy meaning is left in the session cache; the tracker is left at the last lookup's record |
| VocabularyExtractor.ExtractFromSubtitles | lib/vocabulary-extractor.ts:17-145 | the whole pipeline: the tracker is restarted with the number of words to look up; each meaning is the dictionary's answer against the caches before the run; the result is the candidates with an accepted meaning, in rank order |
| VocabularyExtractor.GetStatistics | lib/vocabulary-extractor.ts:165-172 | `uniqueWords` is the list length |
| VocabularyExtractor.StatisticsBound | lib/vocabulary-extractor.ts:170-171 | when every word occurs at least m times, `totalWords` ≥ m · `uniqueWords` |
| VocabularyExtractor.TotalFrequencyAppend | lib/vocabulary-extractor.ts:170 | the total of a concatenation is the sum of the totals |
| Dictionary.RemoteMeaning | lib/dictionary.ts:107-122 | a meaning exists exactly when there is a first result with a first sense with a definition list; it starts with the first definition |
| Dictionary.RemoteMeaningSplitsBack | lib/dictionary.ts:112-114 | when none of the first ≤ 3 definitions holds a comma, the meaning is their join by ", ": it splits back into them |
| Dictionary.Saved | lib/dictionary.ts:74-89 | an insert adds the word when it is new and keeps the stored meaning on a duplicate, touching no other word |
| Dictionary.SessionHit | lib/dictionary.ts:30-34 | a session hit returns the cached meaning whatever the store and the service hold, and changes nothing |
| Dictionary.StoreHit | lib/dictionary.ts:37-46 | a store hit copies the meaning into the session and returns it without asking the service |
| Dictionary.RemoteLookup | lib/dictionary.ts:50-64 | past both caches, a truthy remote meaning is stored and cached; anything else leaves both caches unchanged |
| Dictionary.StoreDown | lib/dictionary.ts:65-68 | a failing store query gives no meaning and changes nothing |
| Dictionary.LookupCaches | lib/dictionary.ts:25-69 | caches only grow, only at the looked-up word; a truthy meaning is then in the session, so a repeat lookup returns it |
| Dictionary.LookupKeepsAnswers | lib/dictionary.ts:25-69 | a lookup changes no word's answer: what any word would get from the caches after it is what it would have got before |
| Dictionary.HitsStep | lib/dictionary.ts:144-149 | one more lookup adds its word to the batch result exactly when the meaning is truthy |
| Dictionary.Dictionary.constructor | lib/dictionary.ts:5-6 | a process starts with an empty session cache and not yet initialized |
| Dictionary.Dictionary.Initialize | lib/dictionary.ts:12-17 | sets the flag and touches no cache |
| Dictionary.Dictionary.SaveToCache | lib/dictionary.ts:74-89 | the store becomes `Saved(store, word, meaning)`; a duplicate is ignored |
| Dictionary.Dictionary.Lookup | lib/dictionary.ts:25-69 | the three tiers in order, with the returned meaning and both caches as `LookupOutcome` states |
| Dictionary.Dictionary.LookupBatch | lib/dictionary.ts:139-152 | a word is in the result exactly when it is in the batch and its answer against the caches before the batch is truthy, and then it maps to that answer; earlier session entries are kept |
| ProgressTracker.ErrorMessage | lib/progress-tracker.ts:85 | the message is "Error: " followed by the given text |
| ProgressTracker.Percentage | lib/progress-tracker.ts:115-125 | 0 without a record, 100 when complete, 0 when `totalWords` is 0, otherwise at most 99 |
| ProgressTracker.PercentageRounds | lib/progress-tracker.ts:123-124 | below the cap, the percentage is the nearest integer to 100·cur/total, halves up; it is 99 only when that value reaches 98.5 |
| ProgressTracker.PercentageFullIffComplete | lib/progress-tracker.ts:119-124 | 100 exactly when the record says complete |
| ProgressTracker.Tracker.constructor | lib/progress-tracker.ts:16 | the shared map starts empty |
| ProgressTracker.Tracker.Start | lib/progress-tracker.ts:23-31 | creates or overwrites the record: stage starting, word 0, the given total, the clock reading |
| ProgressTracker.Tracker.Update | lib/progress-tracker.ts:38-56 | an unknown id is a no-op; otherwise only stage, word and message of that record change |
| ProgressTracker.Tracker.Complete | lib/progress-tracker.ts:61-70 | stage complete and `currentWord = totalWords`; a no-op for an unknown id |
| ProgressTracker.Tracker.Error | lib/progress-tracker.ts:81-87 | stage error and message "Error: " + text, word count unchanged; a no-op for an unknown id |
| ProgressTracker.Tracker.Expire | lib/progress-tracker.ts:71-74 | the delayed removal deletes that id and nothing else |
| ProgressTracker.Tracker.Get | lib/progress-tracker.ts:98-110 | the record of the id, or none |
| ProgressTracker.Tracker.GetPercentage | lib/progress-tracker.ts:115-125 | at most 100, 100 exactly when the record is complete, 0 without a record |
| ProgressTracker.Tracker.IsProcessing | lib/progress-tracker.ts:130-133 | true exactly when a record exists whose stage is neither complete nor error, and then the percentage is at most 99 |
| QuizGenerator.KindOf | lib/quiz-generator.ts:23-38 | the kind named by the type string, or meaning for an unknown string |
| QuizGenerator.KindOfName | lib/quiz-generator.ts:23-38 | each of the four type names selects its own kind |
| QuizGenerator.Field | lib/quiz-generator.ts:53-57 | the asked field of every vocabulary item, in order |
| QuizGenerator.ReplaceFirst | lib/quiz-generator.ts:99-102 | only the first occurrence of the word is replaced, and everything around it is kept |
| QuizGenerator.ReplaceFirstRestores | lib/quiz-generator.ts:99-102 | putting the word back at the blank restores the sentence, and no earlier position held the word |
| QuizGenerator.OptionsSize | lib/quiz-generator.ts:151-158 | the loop's exit condition gives exactly min(count, 1 + number of distinct candidates other than the answer) options |
| QuizGenerator.DrawStep | lib/quiz-generator.ts:154-158 | one draw-and-remove step keeps the answer first, the options distinct and drawn from the candidates, and every other candidate held or still waiting |
| QuizGenerator.DrawDone | lib/quiz-generator.ts:154-160 | when the loop stops (enough options or no candidates left), the options are valid |
| QuizGenerator.GenerateOptions | lib/quiz-generator.ts:146-161 | the options start with the answer, have no repeats, come from the answer and the candidates, and number min(count, 1 + distinct others) |
| QuizGenerator.Shuffle | lib/quiz-generator.ts:166-173 | Fisher–Yates on a copy returns a permutation of the input |
| QuizGenerator.ShuffledOptionsValid | lib/quiz-generator.ts:64 | shuffling keeps the options valid |
| QuizGenerator.QuestionAnswerOnce | lib/quiz-generator.ts:53-64 | a question has 1 to 4 options, and the answer occurs among them exactly once |
| QuizGenerator.ThreeItemMeaningOptions | lib/quiz-generator.ts:76-87 | three items with distinct meanings give a meaning question exactly 3 options |
| QuizGenerator.BuildQuestion | lib/quiz-generator.ts:53-65 | id and vocabulary id, kind, prompt and answer set from the item, with valid shuffled options |
| QuizGenerator.RecognitionQuestion | lib/quiz-generator.ts:49-67 | a recognition question whose answer is the reading |
| QuizGenerator.MeaningQuestion | lib/quiz-generator.ts:72-90 | a meaning question whose answer is the meaning |
| QuizGenerator.ContextQuestion | lib/quiz-generator.ts:95-118 | a context question whose answer is the word, blanked in its sentence |
| QuizGenerator.ReverseQuestion | lib/quiz-generator.ts:123-141 | a reverse question whose answer is the word |
| QuizGenerator.Question | lib/quiz-generator.ts:23-38 | the question built for the given kind |
| QuizGenerator.SelectCount | lib/quiz-generator.ts:16 | `min(count, length)` for count ≥ 0; a negative end counts back from the length as `slice` does |
| QuizGenerator.Select | lib/quiz-generator.ts:15-16 | the selected items are a prefix of a permutation of the vocabulary, of length `SelectCount`, and each is a vocabulary item |
| QuizGenerator.GenerateQuiz | lib/quiz-generator.ts:10-44 | one question of the requested kind per selected item, in selection order; min(count, length) questions, each about a vocabulary item, of the requested kind, with its answer among one to four options |
| QuizGenerator.MixedKindsCovered | lib/quiz-generator.ts:182-189 | with four or more items, every kind is asked |
| QuizGenerator.GenerateMixedQuiz | lib/quiz-generator.ts:178-213 | the i-th selected item gets kind `types[i mod 4]`, and the returned questions are a permutation of those built; min(count, length) questions, each about a vocabulary item with its answer among one to four options |

## Left out

- The kuromoji analyzer (lib/japanese-processor.ts:17-57): its dictionary loading and segmentation belong to an external library. It is a function parameter, and its failure, including a failed initialization, is `None`.
- The remote request (lib/dictionary.ts:96-105): URL encoding, headers and the 10-second timeout belong to the HTTP client. The service is a function from word to response.
- `Dictionary.search` (lib/dictionary.ts:157-167) refers to a `dictionary` variable that is never defined; it is not modelled.
- Dictionary.Dictionary.SaveToCache: an insert that fails for a reason other than a duplicate key is not modelled separately. The model always inserts a new word, because the store query has just succeeded in the same lookup.
- The `catch` around `Dictionary.lookup` in the extractor (lib/vocabulary-extractor.ts:136-140) is not modelled: `lookup` catches its own errors and never throws.
- `fetchMeaning` (lib/vocabulary-extractor.ts:151-153) is a deprecated one-line delegate to `lookup`.
- `katakanaToHiragana` and `getHiraganaReading` of lib/japanese-processor-api.ts:91-103 are the same code as in lib/japanese-processor.ts. Both are modelled once, by `JapaneseProcessor.KatakanaToHiragana` and `JapaneseProcessor.GetHiraganaReading`.
- JapaneseProcessorApi.Tokenize: the only way `simpleTokenize` can throw is a missing text, so the input is an `Option<string>`. No other failure is modelled.
- Timers: the 30 s and 60 s `setTimeout` removals (lib/progress-tracker.ts:72-74, 89-91) are the explicit `Tracker.Expire`, with no notion of elapsed time. The 200 ms `sleep` between lookups (lib/vocabulary-extractor.ts:133-135, 158-160) only delays and is left out.
- ProgressTracker.Percentage: `Math.round((c / t) * 100)` is computed on exact rationals. Floating-point rounding error near a half is not modelled.
- The rounded `averageFrequency` of `getStatistics` (lib/vocabulary-extractor.ts:172-177) is floating point and is left out.
- The store and the service are functions of the word: a store or service failure that differs between two lookups of the same word in one batch is not modelled.
- Dictionary.RemoteMeaningSplitsBack: a definition that itself contains a comma is excluded, since the join cannot be split back uniquely there.
- Randomness: the model states what holds for every outcome of `Math.random`, not that draws are uniform.
- No monotonicity of the percentage is claimed. `start` can be called again for the same file, and a later update may set a smaller word count.
- The dynamic import of the tracker, all `console` logging and the asynchronous scheduling (`async`/`await`) are left out. Every call runs to completion before the next.
- SrtParser.ParseIntJs: `parseInt` returns a double, so a sequence number beyond 2^53 loses precision in the source; the model takes sequence numbers as exact integers.
- Strings are sequences of Unicode characters, not UTF-16 code units. Every character class the engine tests lies in the Basic Multilingual Plane, so lengths agree for the texts the patterns match.

Behaviours of the code worth knowing:
- An empty definition list gives the empty string as the meaning. `lookup` returns it without caching it, and both `lookupBatch` and the extractor drop it as falsy.
- The single-hiragana check of `filterVocabulary` never decides anything: such a word already fails the kanji-or-katakana requirement (`SingleHiraganaCheckRedundant`).
- `update` does not check that `currentWord` stays at or below `totalWords`, so the model has no such invariant.
