# cnmn puzzle pipeline: a Dafny model

cnmn ("Consonant Moon") is a daily word puzzle. Each day has six questions.
Every question shows a clue word and four *disguised* options. A disguise is
a word with its vowels stripped and a few phonetic shortcuts applied. The
player picks the disguise of the clue's synonym. Three Python scripts make
and publish a puzzle. This project models their deterministic core.

- **generate-puzzle.py**
  - The disguise and consonant rules (`consonant_skeleton`, `generate_disguise`,
    `_disguise_with_kept_vowel`, `resolve_disguise_collisions`).
  - The checks on the six clue/answer pairs (stage 2).
  - The filter over proposed distractors and the retry loop around it (stage 3).
  - Question building (stage 4), targeted regeneration of flagged questions
    (stage 6), and assembly of the puzzle record.
- **build-puzzle.py**
  - The emoji lookup.
  - Turning a stored quiz into the `CHAIN_DATA` object the page reads.
  - Splicing that object between the page's data markers.
- **build-feed.py**
  - The puzzle number (days since 2024-01-01, plus one).
  - Choosing, ordering and capping the feed's puzzles, and building the RSS
    channel and its items.

## How the model is laid out

| module | file | models |
|---|---|---|
| `Wrappers` | wrappers.dfy | Option and Result, and mapping a fallible function over a list. |
| `Seqs` | seqs.dfy | Prefixes, and the set/distinctness facts behind Python's `len(set(xs)) == len(xs)`. |
| `Text` | text.dfy | The Python string operations the scripts use: `lower`, `upper`, `capitalize`, `strip`, `find`, `replace`, `startswith`/`endswith`, `str(int)`, and string `<=`. |
| `Disguise` | disguise.dfy | The skeleton, the two disguise functions, and the kept-vowel loop as an imperative method over a list of cells. |
| `Collisions` | collisions.dfy | Collision resolution. `Resolve` specifies it; `ResolveCollisions` updates the disguise array in place. |
| `Validation` | validation.dfy | Stage 2, returning the same error messages in the same order. |
| `Distractors` | distractors.dfy | The stage 3 filter, the retry loop, and the fan-in of per-question results. |
| `Questions` | questions.dfy | Stage 4, stage 6 (updating the question array in place), and `assemble_puzzle`. |
| `Calendar` | calendar.dfy | Proleptic Gregorian dates, `strptime('%Y-%m-%d')`, the `strftime` forms used, and the puzzle number. |
| `Site` | site.dfy | `get_emoji`, `random.shuffle`, `transform_quiz_to_chain` and `inject_puzzle_data`. |
| `Feed` | feed.dfy | `build_feed` up to the XML tree: collection, sort, cap, channel and items. |

The language model is not modelled. Each of its replies enters the model as
an input. A reply is either a raised error or a returned list of candidates
(`Distractors.Attempt`).

`random.shuffle` is modelled as CPython's Fisher–Yates walk over a given
sequence of draws. The clock is modelled as a `today` string.

## Model

| member | source | states |
|---|---|---|
| Disguise.DeleteVowels | scripts/generate-puzzle.py:34 | Deleting the lower-case vowels never lengthens a word. |
| Disguise.DeleteVowelsFacts | scripts/generate-puzzle.py:34 | After deletion no vowel is left, and no capital appears that was not there before. |
| Disguise.DeleteVowelsAppend | scripts/generate-puzzle.py:34 | Vowel deletion works letter by letter, so it distributes over concatenation. |
| Disguise.DeleteVowelsNoVowels | scripts/generate-puzzle.py:34 | A word without vowels is left unchanged. |
| Disguise.Skeleton | scripts/generate-puzzle.py:32-34 | The consonant skeleton contains no vowel and no capital letter. |
| Disguise.SkeletonIdempotent | scripts/generate-puzzle.py:32-34 | Taking the skeleton of a skeleton changes nothing. |
| Disguise.SkeletonIgnoresCase | scripts/generate-puzzle.py:32-34 | The skeleton of a word is that of its upper-case and of its lower-case form. This is why stage 2 may compare answers in either case. |
| Disguise.SuffixRulesWellBehaved | scripts/generate-puzzle.py:44-48 | Each suffix rule's pattern is non-empty, and its replacement is lower case and no longer than the pattern. |
| Disguise.LiteralRulesWellBehaved | scripts/generate-puzzle.py:49-53 | Each literal rule's pattern is non-empty, and its replacement is lower case and no longer than the pattern. |
| Disguise.SuffixRulesShrink | scripts/generate-puzzle.py:44-48 | The five suffix rewrites, applied in order, never lengthen a word and keep it lower case. |
| Disguise.LiteralRulesShrink | scripts/generate-puzzle.py:49-53 | The five replace-everywhere rewrites, applied in order, never lengthen a word and keep it lower case. |
| Disguise.Phonetic | scripts/generate-puzzle.py:43-53 | The phonetic step never lengthens the word and keeps a lower-case word lower case. |
| Disguise.DropVowelBeforeVowel | scripts/generate-puzzle.py:59 | Deleting every vowel that is followed by a vowel keeps the last letter. It keeps a leading consonant and keeps lower case. No two vowels stay adjacent. |
| Disguise.DropVowelBeforeVowelKeepsConsonants | scripts/generate-puzzle.py:59 | That step deletes only vowels, so every consonant survives in order. |
| Disguise.ShortWordDisguise | scripts/generate-puzzle.py:59-60 | The short-word fallback; its meaning is stated by `ShortWordKeepsConsonants`. |
| Disguise.ShortWordKeepsConsonants | scripts/generate-puzzle.py:59-60 | The short-word path (drop vowels before vowels, then one trailing vowel) deletes only vowels. |
| Disguise.GenerateDisguise | scripts/generate-puzzle.py:37-62 | The disguise is empty exactly when the word is, and is never longer than the word. |
| Disguise.MainDisguiseHasNoVowels | scripts/generate-puzzle.py:54-62 | When stripping leaves at least two letters, the disguise is exactly the vowel-stripped phonetic form of the lower-cased word. It has two or more letters and no vowel. |
| Disguise.ShortDisguiseKeepsConsonants | scripts/generate-puzzle.py:57-62 | When stripping leaves fewer than two letters, the disguise still carries every consonant of the lower-cased word, in order. |
| Disguise.DisguiseIsLowerCase | scripts/generate-puzzle.py:37-62 | Every disguise is lower case, whatever the input's case. |
| Disguise.NationExample | scripts/generate-puzzle.py:32-55 | "nation" is disguised as "nshn" (suffix rule, then vowel strip), and its skeleton is "ntn". |
| Disguise.FirstVowelIn | scripts/generate-puzzle.py:79-82 | The position the `kept` flag first fires at is the first vowel in the range. "None" means the range has no vowel. |
| Disguise.KeepFirstInteriorVowel | scripts/generate-puzzle.py:78-86 | The interior step of the kept-vowel loop; its meaning is stated by the two lemmas below. |
| Disguise.KeepFirstInteriorVowelKeepsConsonants | scripts/generate-puzzle.py:78-86 | Blanking later interior vowels deletes only vowels, so all consonants survive. |
| Disguise.KeepFirstInteriorVowelKeepsOnlyFirst | scripts/generate-puzzle.py:78-86 | Everything up to the first interior vowel is kept unchanged. At most one vowel is left strictly inside the result, and the result is no longer. |
| Disguise.StripOuterVowels | scripts/generate-puzzle.py:87-90 | `strip` of one leading and one trailing vowel removes at most one letter at each end. A word that starts and ends with a consonant is left as it is. |
| Disguise.KeptVowelDisguise | scripts/generate-puzzle.py:65-91 | The kept-vowel disguise of a non-empty word is never empty, thanks to the `lower[:3]` fallback. |
| Disguise.VowelCell | scripts/generate-puzzle.py:81-83 | The one-character test `c in 'aeiou'` means exactly "c is a lower-case vowel". |
| Disguise.JoinBlankedCells | scripts/generate-puzzle.py:78-86 | Joining the cells the loop leaves gives the word with every later interior vowel removed. |
| Disguise.BlankLaterVowels | scripts/generate-puzzle.py:78-84 | The in-place loop over `chars` blanks exactly the interior vowels after the first one, and leaves every other cell alone. |
| Disguise.BlankAndJoin | scripts/generate-puzzle.py:78-86 | `''.join(chars)` after the loop equals the specification `KeepFirstInteriorVowel`. |
| Disguise.DisguiseWithKeptVowel | scripts/generate-puzzle.py:65-91 | The imperative function (list of cells, loop, join, strip, fallback) computes `KeptVowelDisguise`. |
| Collisions.WordsFor | scripts/generate-puzzle.py:100 | The word list used: the given words, or one empty word per disguise when none are given. |
| Collisions.Step | scripts/generate-puzzle.py:111-120 | A distractor's disguise changes exactly when it is already taken. When it changes to anything but the prefixed form, the new value is free. |
| Collisions.ResolveFrom | scripts/generate-puzzle.py:109-120 | The walk yields one value per remaining distractor; `ResolveFromAt` states each value. |
| Collisions.Resolve | scripts/generate-puzzle.py:94-122 | Resolution returns one disguise per distractor. |
| Collisions.ResolveCollisions | scripts/generate-puzzle.py:94-122 | The answer's disguise is returned unchanged. The array of distractor disguises is overwritten with `Resolve` of its old contents. |
| Collisions.WalkDistractors | scripts/generate-puzzle.py:109-120 | The loop leaves in the array the left-to-right resolution of its old contents, starting from the answer's disguise as the only taken value. |
| Collisions.Rederive | scripts/generate-puzzle.py:111-119 | A colliding disguise is replaced by the kept-vowel form when that form differs and is free. Otherwise it gets the word's first letter (or the index) as a prefix. |
| Collisions.ResolveFromNoCollision | scripts/generate-puzzle.py:109-120 | When the disguises are distinct and none is taken, the walk changes nothing. |
| Collisions.ResolveNoCollision | scripts/generate-puzzle.py:102-106 | When all options differ, the quick check returns the disguises untouched, and the full walk would agree. |
| Collisions.ResolveFromAt | scripts/generate-puzzle.py:109-120 | At each position the walk makes its decision against the starting taken set plus every earlier final value. |
| Collisions.ResolveAt | scripts/generate-puzzle.py:110-120 | Position k has three cases. A free disguise is kept. A taken one becomes the kept-vowel alternative if that differs and is free. Otherwise it becomes the prefixed form. |
| Collisions.AvoidsTakenUnlessPrefixed | scripts/generate-puzzle.py:110-120 | Unless a distractor fell back to the prefixed form, its final disguise differs from the answer's and from every earlier distractor's. |
| Collisions.NoPrefixMeansDistinct | scripts/generate-puzzle.py:108-120 | When no distractor needed the prefix, all four options of the resolved question differ. |
| Collisions.PrefixCanCollide | scripts/generate-puzzle.py:117-119 | The prefixed fallback is not re-checked: with answer "1x" and two unnamed distractors "x", the second one becomes "1x", the answer's own disguise. |
| Validation.ValidationErrors | scripts/generate-puzzle.py:190-234 | The error list stage 2 reports; its meaning is stated by `AcceptedIff`, `PairErrorsEmpty` and `CollisionsIffRepeat`. |
| Validation.Messages | scripts/generate-puzzle.py:194-231 | One message per error, in order. |
| Validation.Stripped | scripts/generate-puzzle.py:203-204 | Every pair's prompt and answer are stripped of surrounding whitespace. |
| Validation.PairError | scripts/generate-puzzle.py:206-211 | A pair yields no error exactly when both words are present and differ ignoring case. |
| Validation.Kept | scripts/generate-puzzle.py:206-215 | Only pairs with both words present reach the duplicate and skeleton checks. |
| Validation.LastIndexOf | scripts/generate-puzzle.py:226-232 | `seen[sk]` holds the last earlier index whose skeleton is `sk`. |
| Validation.Validate | scripts/generate-puzzle.py:190-234 | The messages are exactly those of `ValidationErrors`, in the order the script appends them. `ok` holds exactly when there are none. |
| Validation.CheckStripped | scripts/generate-puzzle.py:198-232 | After the count check, the loops and the three duplicate checks append exactly the messages of `ErrorsOf`, in the script's order. |
| Validation.CheckPairs | scripts/generate-puzzle.py:198-215 | The per-pair loop yields the pair errors in order. It also builds the lower-cased prompts, the upper-cased answers and the skeletons of exactly the complete pairs; the duplicate checks run on these lists. |
| Validation.CheckPair | scripts/generate-puzzle.py:203-211 | One pair's error messages. |
| Validation.ReportCollisions | scripts/generate-puzzle.py:224-232 | The `seen` loop appends exactly the skeleton-collision errors of the specification, in order. |
| Validation.CollisionCount | scripts/generate-puzzle.py:224-232 | The number of collision messages is the number of skeletons minus the number of distinct skeletons. |
| Validation.CollisionsIffRepeat | scripts/generate-puzzle.py:224 | There is a collision message exactly when some skeleton repeats. |
| Validation.CollisionNamesBoth | scripts/generate-puzzle.py:227-231 | Each collision message names a later answer and the nearest earlier answer with the same skeleton. |
| Validation.PairErrorsEmpty | scripts/generate-puzzle.py:202-211 | The per-pair checks report nothing exactly when every pair is complete and its two words differ ignoring case. |
| Validation.KeptAll | scripts/generate-puzzle.py:206-215 | When no pair is missing a word, every pair is kept. |
| Validation.MissingReported | scripts/generate-puzzle.py:206-207 | A pair missing a word is always reported with its 1-based number. |
| Validation.AcceptedIff | scripts/generate-puzzle.py:190-234 | Accepted exactly when six pairs each have two different words and the prompts, the answers and the skeletons are each free of repeats. |
| Distractors.Normalized | scripts/generate-puzzle.py:277-278 | A candidate's word becomes its own word upper-cased, letter for letter, with the same length. Its type is untouched. |
| Distractors.Acceptable | scripts/generate-puzzle.py:279-284 | The filter's test on one upper-cased word; `PassingIndicesExact` states that a candidate is kept exactly when it holds. |
| Distractors.NormalizedAll | scripts/generate-puzzle.py:276-278 | Every candidate is normalized, whether or not it passes. |
| Distractors.Passing | scripts/generate-puzzle.py:275-285 | Every kept candidate is non-empty, is neither the answer nor the prompt, and has a non-empty skeleton different from the answer's. |
| Distractors.PassingAtIndices | scripts/generate-puzzle.py:275-285 | The kept list is the normalized candidates at the passing positions. |
| Distractors.PassingIndicesIncrease | scripts/generate-puzzle.py:276-285 | The kept candidates keep their original order. |
| Distractors.PassingIndicesExact | scripts/generate-puzzle.py:276-285 | A candidate is kept exactly when its upper-cased word is acceptable. |
| Distractors.Selection | scripts/generate-puzzle.py:287-290 | The filter returns at most three candidates. |
| Distractors.EnoughPassing | scripts/generate-puzzle.py:290 | With three or more acceptable candidates, the result is the first three of them, all acceptable. |
| Distractors.TooFewPassing | scripts/generate-puzzle.py:287-289 | With fewer than three acceptable, the result is the first three raw candidates upper-cased, acceptable or not. |
| Distractors.PaddingKeepsAnswer | scripts/generate-puzzle.py:287-289 | The padding can return the answer itself as a distractor ("cat" for the answer "cat"). |
| Distractors.FilterCandidates | scripts/generate-puzzle.py:274-290 | The candidate list is normalized in place, and the result is `Selection` of the original list. |
| Distractors.NormalizeAndCollect | scripts/generate-puzzle.py:275-285 | The loop normalizes every candidate in place and collects exactly the passing ones, in order. |
| Distractors.GenFrom | scripts/generate-puzzle.py:298-312 | The retry loop returns at most three candidates. |
| Distractors.Gen | scripts/generate-puzzle.py:297-312 | `gen` returns at most three candidates. |
| Distractors.FirstSuccessWins | scripts/generate-puzzle.py:298-304 | The first attempt that returns three candidates decides the result, whatever comes later. |
| Distractors.LastReturned | scripts/generate-puzzle.py:298-312 | The last list an attempt returned; used by `NoSuccessKeepsLast`. |
| Distractors.NoSuccessKeepsLast | scripts/generate-puzzle.py:298-312 | Without such an attempt, `gen` returns the last list an attempt did return, or nothing when every attempt raised. |
| Distractors.GenerateFor | scripts/generate-puzzle.py:297-312 | The imperative retry loop computes `Gen`. |
| Distractors.ParallelDistractors | scripts/generate-puzzle.py:293-320 | Each question's slot receives that question's `gen` result, whatever the completion order. |
| Questions.DifficultyAt | scripts/generate-puzzle.py:352-358 | Questions 1–2 are easy, 3–4 medium and 5–6 (or later) hard, each exactly. |
| Questions.Words | scripts/generate-puzzle.py:337 | The words handed to collision resolution are the candidates' own words. |
| Questions.RawDisguises | scripts/generate-puzzle.py:334 | Each distractor first gets the plain disguise of its word. |
| Questions.ResolvedDisguises | scripts/generate-puzzle.py:336-341 | Collision resolution keeps one disguise per distractor. |
| Questions.Records | scripts/generate-puzzle.py:344-350 | One distractor record per candidate, in order. |
| Questions.MakeRecords | scripts/generate-puzzle.py:344-350 | The record-building loop computes `Records`. |
| Questions.BuildQuestion | scripts/generate-puzzle.py:329-368 | One stage 4 question; its parts are stated by `QuestionShape`. |
| Questions.BuildOne | scripts/generate-puzzle.py:329-368 | One question as stage 4 builds it. |
| Questions.BuildQuestions | scripts/generate-puzzle.py:326-370 | One question per pair, each built from that pair's candidates, or from none when its slot is empty. |
| Questions.QuestionShape | scripts/generate-puzzle.py:330-368 | A built question has these parts. The prompt is lower case. The answer is upper case, with the answer's own disguise. There is one distractor per candidate, holding that candidate's word upper-cased and typed "non-synonym" by default. The correct option spells the answer with its first letter upper-cased and every other letter lower case. |
| Questions.DistinctDisguisesKept | scripts/generate-puzzle.py:334-341 | When no two options' disguises collide, every distractor keeps its word's plain disguise. |
| Questions.Flagged | scripts/generate-puzzle.py:425-429 | Flagged indices lie inside the question list. |
| Questions.FlaggedIff | scripts/generate-puzzle.py:420-429 | A question is flagged exactly when a high-severity issue names its 1-based number. |
| Questions.FlagQuestions | scripts/generate-puzzle.py:420-429 | The issue-scanning loops compute `Flagged`. |
| Questions.Regeneration | scripts/generate-puzzle.py:438-466 | What one regeneration call yields; its shape is stated by `RegenerationShape`. |
| Questions.Regenerated | scripts/generate-puzzle.py:438-469 | Only the disguise and the distractors can change. The question is kept when the call raised or gave fewer than three. |
| Questions.RegeneratedAt | scripts/generate-puzzle.py:437-444 | A flagged index that names no pair keeps its question, because `pairs[idx]` raises inside the `try`. |
| Questions.RegenerateAll | scripts/generate-puzzle.py:418-471 | Regeneration keeps the number of questions, for any issue list. |
| Questions.Regenerate | scripts/generate-puzzle.py:436-469 | The in-place loop over the flagged set leaves `RegenerateAll` of the old questions, in any visiting order. |
| Questions.RegenerateOne | scripts/generate-puzzle.py:437-469 | Only the one flagged question changes, and only as `Regenerated` says. |
| Questions.RegenerateOnlyFlagged | scripts/generate-puzzle.py:418-471 | Unflagged questions are kept. So are flagged ones whose index names no pair, or whose call raises or returns fewer than three. Every other flagged question is `Regenerated` from its own pair and reply. Prompt, emoji, answer, difficulty and correct option never change. |
| Questions.RegenerationShape | scripts/generate-puzzle.py:446-469 | A regenerated question gets exactly three distractors and the answer's own disguise. |
| Questions.Assemble | scripts/generate-puzzle.py:477-483 | The puzzle record carries the theme, the date and the questions as given. |
| Site.EmojiFor | scripts/build-puzzle.py:27-35 | `get_emoji`; its meaning is stated by `EmojiIsFirstMatch` and `EmojiIgnoresCase`. |
| Site.GetEmoji | scripts/build-puzzle.py:27-35 | The emoji loop returns the first matching entry, as `EmojiFor` says. |
| Site.EmojiIsFirstMatch | scripts/build-puzzle.py:18-35 | The emoji is that of the first table entry whose key occurs in the lower-cased word or theme, or ❓ when none does. |
| Site.EmojiIgnoresCase | scripts/build-puzzle.py:29-33 | The emoji does not depend on the case of the word or theme. |
| Site.EmojiOrderExample | scripts/build-puzzle.py:18-34 | Table order decides: "Doghouse" gets the house emoji, not the dog. |
| Site.Draw | scripts/build-puzzle.py:68 | Each draw of the shuffle picks an index no greater than the current one. |
| Site.Swap | scripts/build-puzzle.py:68 | An exchange keeps the length. |
| Site.SwapPermutes | scripts/build-puzzle.py:68 | An exchange permutes the options. |
| Site.ShuffleDownPermutes | scripts/build-puzzle.py:68 | The Fisher–Yates walk from any position is a permutation. |
| Site.Shuffled | scripts/build-puzzle.py:68 | `random.shuffle` on given draws; `ShuffledPermutes` states it is a permutation. |
| Site.ShuffledPermutes | scripts/build-puzzle.py:68 | The shuffled options are a permutation of the original ones. |
| Site.Shuffle | scripts/build-puzzle.py:68 | The in-place shuffle leaves `Shuffled` of the old array. |
| Site.Exchange | scripts/build-puzzle.py:68 | One in-place exchange of two cells. |
| Site.ShuffleFiveExample | scripts/build-puzzle.py:68 | With every draw 0, five options rotate left by one. |
| Site.DisguisesOf | scripts/build-puzzle.py:62-63 | One option per distractor, its disguise or "" when absent. |
| Site.LinkOf | scripts/build-puzzle.py:59-78 | One chain link; its fields are stated by `LinkShape`. |
| Site.LinkShape | scripts/build-puzzle.py:61-77 | A link's category is the capitalized prompt, its answer is the answer's disguise, its decoded word is the answer, and its emoji is looked up. It shows up to four options drawn without repetition from all the disguises. With at most four disguises, all of them are shown. |
| Site.MakeLink | scripts/build-puzzle.py:59-78 | The per-question loop body computes `LinkOf`. |
| Site.AnswerAmongOptions | scripts/build-puzzle.py:61-72 | With three distractors or fewer, the answer's disguise is among the options shown. |
| Site.AnswerCanBeCut | scripts/build-puzzle.py:68-72 | With four distractors, the shuffle followed by `[:4]` can drop the answer's disguise from the options. |
| Site.ChainOf | scripts/build-puzzle.py:37-84 | `transform_quiz_to_chain`; its shape is stated by `ChainShape`. |
| Site.ChainShape | scripts/build-puzzle.py:37-84 | One link per question, in order. When the date parses, the number and day name come from it. Otherwise the number is 1 and the date is shown as written. |
| Site.TransformQuizToChain | scripts/build-puzzle.py:37-84 | The imperative transform computes `ChainOf`. |
| Site.ChainOfFormattedDate | scripts/build-puzzle.py:43-56 | For a quiz dated `YYYY-MM-DD`, the chain's number and day name are that date's own. |
| Site.QuizOf | scripts/generate-puzzle.py:477-483 | The stored form of an assembled puzzle keeps one question per question. |
| Site.GeneratedAnswersShown | scripts/build-puzzle.py:59-77 | Take a generated puzzle question with at most three distractors. Once built into the page, its link's answer is that question's disguise, its decoded word is the answer, and the disguise is among the options. |
| Site.SelectedQuestionsFit | scripts/generate-puzzle.py:287-350 | Stage 4 on a stage 3 selection always yields at most three distractors, so the answer is always shown. |
| Site.NewBlock | scripts/build-puzzle.py:91-95 | The new block starts with the start marker and ends with the end marker. |
| Site.InjectAsWritten | scripts/build-puzzle.py:101-109 | Injection as the code is written; `MissingEndMarkerUndetected` shows where it goes wrong. |
| Site.InjectPuzzleData | scripts/build-puzzle.py:101-109 | The corrected injection; `InjectSplices` states its meaning. |
| Site.InjectSplices | scripts/build-puzzle.py:98-107 | Injection (corrected) fails exactly when a marker is missing. Otherwise it keeps the page before the first start marker and after the first end marker, with the new block between. |
| Site.InjectRepeatable | scripts/build-puzzle.py:93-107 | A page injected once can be injected again: the new block carries both markers. |
| Site.AsWrittenAgrees | scripts/build-puzzle.py:101-107 | Whenever the end marker is present, the code as written and the corrected injection agree. |
| Site.MissingEndMarkerUndetected | scripts/build-puzzle.py:102-105 | A page with a start marker but no end marker is accepted as written, and garbled from index 21. The corrected injection rejects it. |
| Calendar.DaysBeforeMonth | scripts/build-feed.py:24 | The days of the year before month m lie between 28 and 31 per earlier month. |
| Calendar.DayNumber | scripts/build-feed.py:22-25 | The day count since the epoch; `DayNumberNext` states its meaning. |
| Calendar.DaysInMonth | scripts/build-feed.py:24 | Every month has between 28 and 31 days. |
| Calendar.NextDay | scripts/build-feed.py:25 | The day after a valid date is a valid date. |
| Calendar.DaysBeforeNextYear | scripts/build-feed.py:25 | The day count before a year grows by that year's length. |
| Calendar.OrdinalNextDay | scripts/build-feed.py:25 | Ordinal day numbers count days: the next day has the next ordinal. |
| Calendar.DayNumberNext | scripts/build-feed.py:22-25 | The puzzle number is 1 on 2024-01-01 and goes up by one per day. |
| Calendar.ParseDate | scripts/build-feed.py:24 | A date accepted by `strptime('%Y-%m-%d')` is a real calendar date. |
| Calendar.YearTokenPad4 | scripts/build-feed.py:24 | A four-digit year reads back as itself. |
| Calendar.ParseFormat | scripts/build-feed.py:24 | Parsing a date written `YYYY-MM-DD` gives the date back. |
| Calendar.ParseUnpadded | scripts/build-feed.py:24 | `strptime` accepts unpadded months and days, and rejects February 30 and month 13. |
| Calendar.ParseRejects | scripts/build-feed.py:24 | Year 0 and trailing blanks are rejected. |
| Calendar.PuzzleNumber | scripts/build-feed.py:22-25 | A puzzle number exists exactly when `strptime` accepts the date. |
| Calendar.PuzzleNumberEpoch | scripts/build-feed.py:15-25 | Puzzle number 1 falls on 2024-01-01. |
| Calendar.PuzzleNumberExample | scripts/build-feed.py:22-25 | 2026-02-17 is puzzle 779. |
| Calendar.Weekday | scripts/build-puzzle.py:46 | A weekday is one of seven. |
| Calendar.WeekdayNextDay | scripts/build-puzzle.py:46 | The weekday advances by one, modulo seven, per day. |
| Calendar.DayName | scripts/build-puzzle.py:46 | The day name is one of the seven English day names. |
| Calendar.EpochIsMonday | scripts/build-puzzle.py:46 | 2024-01-01 is a Monday; this anchors the day names. |
| Calendar.FeedDate | scripts/build-feed.py:80-83 | Every feed date ends in the fixed time " 06:00:00 +0000". |
| Calendar.FeedDateExample | scripts/build-feed.py:80-83 | 2026-02-17 is written "Tue, 17 Feb 2026 06:00:00 +0000". |
| Feed.DateOfName | scripts/build-feed.py:41 | The date read off a file name is no longer than the name; `ReplaceAllExample` shows every `.json` goes. |
| Feed.Wanted | scripts/build-feed.py:39-43 | The file test; `CollectedIff` states what it selects. |
| Feed.Collected | scripts/build-feed.py:37-47 | At most one entry per file. |
| Feed.CollectPuzzles | scripts/build-feed.py:37-47 | The directory loop computes `Collected`. |
| Feed.CollectedIff | scripts/build-feed.py:38-47 | A puzzle is collected exactly when its file name ends in `.json` and its date is not after today, with the date read off the name. |
| Feed.CollectedNotAfterToday | scripts/build-feed.py:42-43 | No collected puzzle is dated after today. |
| Feed.SortDescending | scripts/build-feed.py:50 | The sort keeps the number of entries. |
| Feed.SortDescendingCorrect | scripts/build-feed.py:50 | The sort orders the entries newest first and is a permutation. |
| Feed.Latest | scripts/build-feed.py:50-51 | The feed lists thirty puzzles, or all of them if fewer. |
| Feed.LatestShape | scripts/build-feed.py:37-51 | The listed puzzles come newest first, up to thirty, none after today. |
| Feed.OlderOnesDropped | scripts/build-feed.py:50-51 | Any collected puzzle past the cap is no newer than every listed one. |
| Feed.ItemOf | scripts/build-feed.py:67-83 | An item fails exactly when `strptime` rejects its date. Otherwise it links to the site, with guid `cnmn-` and the date. |
| Feed.ItemsOf | scripts/build-feed.py:67-83 | One item per listed puzzle, when none fails. |
| Feed.ItemsFailIff | scripts/build-feed.py:67-83 | Building the items fails exactly when some listed date is rejected by `strptime`. |
| Feed.MakeItems | scripts/build-feed.py:67-83 | The item loop computes `ItemsOf`, stopping at the first failure. |
| Feed.ChannelOf | scripts/build-feed.py:54-83 | A built channel carries the site's fixed title, link, description and language "en". |
| Feed.ChannelFailIff | scripts/build-feed.py:54-83 | Building the channel fails exactly when some listed date is rejected by `strptime`. |
| Feed.ChannelShape | scripts/build-feed.py:54-83 | A built channel has one item per listed puzzle, in order. Its last build date is present exactly when there are items, and is the newest item's date. |
| Feed.BuildFeed | scripts/build-feed.py:28-83 | The imperative build computes `ChannelOf`. |
| Feed.ItemTitleExample | scripts/build-feed.py:68-72 | A puzzle of 2026-02-17 without a theme is titled "cnmn #779: Puzzle". |
| Feed.ReplaceAllExample | scripts/build-feed.py:41 | `replace(".json", "")` removes every occurrence, so "a.json.json" is dated "a". |
| Text.CapitalizeShape | scripts/build-puzzle.py:71 | `capitalize` upper-cases the first letter and lower-cases the rest. |
| Text.Strip | scripts/generate-puzzle.py:203-204 | The stripped word is a slice of the word, with only whitespace before and after it. When non-empty it neither starts nor ends with whitespace. |
| Text.StrippedAt | scripts/generate-puzzle.py:203-204 | The stripped word sits in the word at offset lo, with only whitespace before and after it. |
| Text.Find | scripts/build-puzzle.py:101-102 | `find` gives -1 exactly when the pattern is absent, and otherwise its first occurrence. |
| Text.LexLeTotal | scripts/build-feed.py:42-50 | String order compares any two dates. |
| Text.LexLeTransitive | scripts/build-feed.py:50 | String order is transitive. |

## Left out

- `call_llm`, `parse_json_response`, stage 1 (pair generation) and stage 5
  (the model playtester) are network and parsing code. Their outputs enter the
  model as input values: candidate lists, attempt outcomes and issue lists.
- The thread pool in stage 3 runs the per-question calls concurrently.
  `ParallelDistractors` runs them one after another. Each result goes to its
  own slot, so completion order does not matter.
- JSON is left out. The page build's `json.dumps(chain_data, indent=6)` text
  is an input to `NewBlock`. Reading and writing files and directories, the
  XML tree and its serialization, `print`, argument parsing and `main` are
  left out too.
- Python's `lower`, `upper`, `capitalize` and `strip` are modelled on ASCII
  only. Unicode case mapping and Unicode whitespace are not modelled.
  `strptime` is modelled on ASCII digits.
- Python's regex `$` also matches before a final newline. Words are taken to
  hold no line break, so the model applies the suffix rules at the true end
  only.
- `random.shuffle` takes its choices from an explicit sequence of draws.
  CPython's random-number generator is not modelled.
- The clock becomes the `today` parameter. So do `datetime.now()` and the
  default publication date.
- Missing keys in JSON records become `Option` fields with the script's
  defaults. A key present with the value `null`, or an argument of the wrong
  type, is not modelled.
- Calendar.FormatDate: requires a year of at least 1000. Python's `%Y`
  padding of smaller years is not modelled, and no puzzle falls there.
- Site.LinkShape: the link's `bridge` field is always `None` and is not part
  of `Link`.
- Feed.SortDescendingCorrect: states order and permutation, not the
  stability of Python's sort. Entries are compared by date only.
- Questions.BuildQuestion: the `j < len(distractor_disguises)` fallback of
  the record loop cannot fire once resolution keeps one disguise per
  distractor, so it is not modelled separately.
- Feed.ItemOf: the failure message imitates `strptime`'s `ValueError` text
  only roughly.

## Findings

| source | as written | input that shows it | evidently intended | confidence | as-written member | corrected member |
|---|---|---|---|---|---|---|
| scripts/build-puzzle.py:102-105 | `end_idx` adds the end marker's length to the result of `find`, so it is never -1, and the guard cannot see a missing end marker | a page holding only the start marker and a newline: the splice resumes at index 21 and yields the new block followed by "T__" and the newline | raise the "could not find markers" error whenever either marker is missing (proved in `Site.InjectSplices`) | not executed | Site.MissingEndMarkerUndetected | Site.InjectPuzzleData |
