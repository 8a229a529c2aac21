# French Journey: a verified model of the progress and review engine

French Journey is a browser page for learning French. Four builds of its
script share one engine:

- `app.v7.js` and `app.v6.js` are the protected builds;
- `app.v3.js` is the plain build;
- `app.safe.js` is the safe mode.

This project models that engine in Dafny:

- the key/value stores the builds persist through;
- daily XP and activity flags, the streak and the weekly XP total;
- the goal, minutes and hours controls;
- the SM-2-lite scheduler for vocabulary cards and the card list;
- the review session (queue, current card and the buttons that move it);
- the HTML escaper and the dictation word match.

Where the builds differ, each variant is modelled and the difference is stated.

| file | module | what it holds |
|---|---|---|
| `values.dfy` | `Values` | JavaScript values, stored JSON text, `??`, `Object.entries` |
| `resilient_store.dfy` | `ResilientStore` | the v7/v6 adapter: `persistent` flag, `mem`, probe, get/set/clear, backup export and import |
| `plain_store.dfy` | `PlainStore` | the v3 pass-through store, its export, import and factory reset |
| `mem_store.dfy` | `MemStore` | the safe-mode in-memory store |
| `dates.dfy` | `Dates` | day numbers, civil dates, `YYYY-MM-DD` keys and their string order, `weekNumber` |
| `progress.dfy` | `Progress` | XP and flag maps, reset-day, goal and field clamps, streak, weekly XP (class `Tracker`) |
| `words.dfy` | `Words` | `trim`, `split(/\s+/)`, word-match counting, `similarityWords` |
| `html.dfy` | `Html` | `esc` / `escapeHTML` and the decoder that inverts it |
| `cards.dfy` | `Cards` | cards, `rate`, the list operations (filter, find by id, replace by id) |
| `session.dfy` | `Session` | the vocabulary page and quiz session (class `Deck`) |
| `safe_mode.dfy` | `SafeMode` | the safe-mode page (class `App`) and its dictation check |

Conventions:

- **Days** are integers counted from 1970-01-01, and "today" is always a parameter.
- **XP and flag maps** are keyed by day number. `Dates.KeyOrder` proves that the
  builds' `YYYY-MM-DD` keys correspond to the days one to one, and that their
  string order (the `<=` of the due test) is the day order.
- **Ease** is kept in hundredths (250 is 2.5). `Math.round` is rounding half up.
- **Failures.** Whether a storage access throws is an argument (`fails`, or a set
  `failing` of keys).
- **Unordered visits.** The order in which `Object.entries` visits keys is left
  open (`:|`).

Differences between the description of the system and its code, where the
model follows the code:

- A successful persistent `set` is not mirrored into `mem`. So after a downgrade,
  earlier writes are invisible (`ResilientStore.PreDowngradeWriteInvisible`).
- In `app.v3.js`, a restore writes each entry straight to the backend. The first
  throwing write abandons the rest, and the entries already written stay written
  (`PlainStore.Import`).
- `startQuiz` with no due card still replaces the queue with the empty list. It
  leaves the current card and the buttons alone (`Session.Deck.StartQuiz`).

## Model

| member | source | states |
|---|---|---|
| Values.OrDefault | app.v3.js:22 | `x ?? d` answers `d` exactly for null and undefined, and `x` otherwise |
| Values.Stringify | app.v3.js:23 | stored text of a defined value parses back to that value; `undefined` is stored as text that does not parse |
| ResilientStore.StartMode | app.v7.js:23-24 | the store starts persistent exactly when both probe calls succeed; `mem` starts empty; a passed probe leaves no `__t` key |
| ResilientStore.GetOutcome | app.v7.js:25-29 | `get` never writes; a missing key in persistent mode returns the default and changes nothing; a throwing read or unparsable text makes the store memory-only and answers `mem[k]` or the default |
| ResilientStore.SetOutcome | app.v7.js:30-34 | `set` returns true exactly when persistent and the write did not throw; then only the backend changes (no mirror into `mem`); otherwise `mem[k] = v` and the store is memory-only |
| ResilientStore.SetThenGet | app.v7.js:25-34 | reading a key just written returns the written value, except when a persisted write is followed by a throwing read, which answers from `mem` |
| ResilientStore.PersistenceNeverReturns | app.v6.js:23-42 | over any sequence of get/set/clear calls, `persistent` never goes from false back to true |
| ResilientStore.MemoryModeReads | app.v7.js:25-35 | once memory-only, the store stays so; the backend changes only by `clear`; `get(k)` answers the latest value set for `k` since (cleared by `clear`), else the default |
| ResilientStore.PreDowngradeWriteInvisible | app.v7.js:28-33 | a value persisted before a downgrade stays in the backend but reads back as the default afterwards |
| ResilientStore.Store.constructor | app.v7.js:22-24 | creating the adapter runs the probe: the state is `Start(backend, probe)` |
| ResilientStore.Store.Get | app.v6.js:27-35 | the object's `get` performs exactly the step of `GetStep` and never turns persistence back on |
| ResilientStore.Store.Set | app.v6.js:36-41 | the object's `set` performs exactly the step of `SetStep`; its result is true exactly when it was persistent and the write did not throw |
| ResilientStore.Store.Clear | app.v7.js:35 | `clear` empties `mem` always and the backend unless that throws; the mode is unchanged |
| ResilientStore.ExportFoldKeys | app.v7.js:133 | a backup names only the seven backup keys, never with an undefined value |
| ResilientStore.ExportHealthy | app.v6.js:185 | on a healthy persistent store, the backup holds exactly the backup keys present, each with its parsed value, and reading them changes nothing |
| ResilientStore.Export | app.v6.js:183-185 | the export loop reads the seven keys in order through `get`; its result and the new store state are those of `ExportFold` |
| ResilientStore.Import | app.v6.js:191-194 | a file that does not parse writes nothing; otherwise every entry ends up in the backend or (memory-only) in `mem`, other keys are untouched, and with no failing write every entry is persisted |
| ResilientStore.ExportImportRoundTrip | app.v7.js:133-139 | restoring a fresh backup of a healthy persistent store leaves the store as it was |
| PlainStore.Read | app.v3.js:22 | `get` answers the default for a missing key, stored `null`, unparsable text or a throwing read, and the parsed value otherwise |
| PlainStore.WriteThenRead | app.v3.js:21-24 | a written value reads back as itself, except that a written `null` reads back as the default |
| PlainStore.Store.Set | app.v3.js:23 | `set` writes the key straight to the backend; a throwing backend changes nothing and the exception reaches the caller |
| PlainStore.Export | app.v3.js:191-193 | the backup holds exactly the eight keys of `K` whose reads are not undefined, each with its read value |
| PlainStore.Import | app.v3.js:199-209 | a restore succeeds exactly when no entry's write throws; on success every entry is written and nothing else changes; on failure each entry is written or left as it was |
| PlainStore.FactoryReset | app.v3.js:210-214 | after confirmation the factory reset removes the eight keys of `K` and nothing else; cancelled, it leaves storage untouched |
| MemStore.Lookup | app.safe.js:13 | `get(k, d)` answers the held value when the key is present and `d` otherwise |
| MemStore.SetThenGet | app.safe.js:12-15 | after `set(k, v)`, `k` reads `v` and every other key reads as before |
| MemStore.Store.Set | app.safe.js:14 | `set` overwrites `k` and no other key |
| Dates.YearOf | app.v7.js:100 | the calendar year of a day is the year whose span contains it |
| Dates.YearOfUnique | app.v7.js:100 | that year is unique |
| Dates.ToCivil | app.v7.js:12 | every day has a valid year, month and day of month, in the day's year |
| Dates.CivilRoundTrip | app.v7.js:11-12 | day number and civil date convert into each other without loss, both ways |
| Dates.DayOrderIsCivilOrder | app.v7.js:256 | day order is the lexicographic order of (year, month, day) |
| Dates.KeyOrder | app.v7.js:256 | for four-digit years, `YYYY-MM-DD` keys compare as strings exactly as their days compare, and equal keys mean equal days |
| Dates.IsoWeekday | app.v3.js:14 | the UTC weekday with Sunday moved from 0 to 7 runs from 1 (Monday) to 7 (Sunday) |
| Dates.WeekNumberRange | app.v3.js:12-17 | `weekNumber` lies in 1..53 |
| Dates.WeekOfMonday | app.v3.js:12-17 | Monday through Sunday of one week share their Thursday, their week number and their week-numbering year |
| Dates.FirstThursdayInWeekOne | app.v6.js:14-19 | the first Thursday of a year is in week 1 of that year, as in section 4.1.4 of ISO 8601:2004 |
| Dates.IsoWeekIdentity | app.v7.js:13-18 | two days have the same week number and week-numbering year exactly when they have the same Monday |
| Dates.MondayOfSpan | app.v7.js:15 | a day's Monday is the unique Monday within the six days before it |
| Progress.XpOf | app.v7.js:79 | `getXP(d)` is the stored amount, or 0 for a day with none |
| Progress.FlagsOf | app.v7.js:81 | `dailyFlags(d)` is the stored record, or the all-false record of the five flags |
| Progress.AddToDayEffect | app.v7.js:82-83 | adding XP changes only today's amount: old amount (0 if missing) plus `n` |
| Progress.RaiseFlagEffect | app.v6.js:115-118 | raising a flag sets that flag of today (creating the all-false record if needed) and leaves the other flags and days as they were |
| Progress.ResetFlagsKeepIsNoOpOnRecordedDay | app.v7.js:120 | the v7 reset leaves a day that has a record unchanged; only a day without one gets the all-false record |
| Progress.ResetKeepsRaisedFlag | app.v7.js:120 | a flag raised today is still raised after the v7 reset |
| Progress.ResetFlagsClears | app.v3.js:177 | the v3/v6 reset makes every flag of today false and leaves other days alone |
| Progress.GoalDown | app.v6.js:170 | the lowered goal is never below 10, and it is `goal - 5` whenever that is at least 10 |
| Progress.GoalButtons | app.v6.js:169-170 | "−" never goes below 10; "+" then "−" restores a goal of 10 or more; "−" then "+" restores a goal of 15 or more |
| Progress.ClampEntry | app.v6.js:172-173 | a saved field is NaN exactly when the entry does not parse; otherwise it is at least the floor; an entry at or above the floor is kept, one below it gives exactly the floor (`Math.max(floor, n)`); a blank entry gives the default |
| Progress.ClampEntryIdempotent | app.v7.js:121-122 | saving a value that a save produced keeps it |
| Progress.SumWhere | app.v3.js:134-137 | the accumulator loop over the entries sums exactly the selected entries |
| Progress.SameIsoWeekIsSameSpan | app.v3.js:130-139 | the same ISO week as today means lying in today's Monday-to-Sunday span |
| Progress.CalendarYearTestMisplacesWeek | app.v3.js:136 | with today 2024-12-30, the test as written counts 2024-01-01 and leaves out 2025-01-01 |
| Progress.Tracker.constructor | app.v7.js:53-57 | a fresh install has goal 30, 40 minutes, 8 hours and no XP or flags |
| Progress.Tracker.SetXP | app.v7.js:80 | `setXP(val, d)` sets day `d` and nothing else |
| Progress.Tracker.AddXP | app.v7.js:82-84 | `addXP(n, flag)` adds `n` to today's XP; with a flag, it raises that flag of today; without one, the flags are untouched |
| Progress.Tracker.ResetDay | app.v6.js:171 | the v3/v6 reset: today's XP 0 and the all-false record for today |
| Progress.Tracker.ResetDayKeepFlags | app.v7.js:120 | the v7 reset: today's XP 0, and today's record re-stored as `dailyFlags()` answers it |
| Progress.Tracker.IncGoal | app.v7.js:118 | "+" adds 5 to the goal and changes nothing else |
| Progress.Tracker.DecGoal | app.v7.js:119 | "−" sets `max(10, goal - 5)` and changes nothing else |
| Progress.Tracker.SaveDailyMinutes | app.v7.js:121 | minutes are saved as the entry clamped to at least 10, with 40 for a blank field |
| Progress.Tracker.SaveWeeklyHours | app.v7.js:122 | hours are saved as the entry clamped to at least 1, with 8 for a blank field |
| Progress.Tracker.Streak | app.v7.js:103-107 | with a positive goal, the streak `s` counts today and the `s - 1` days before as reaching the goal, day `today - s` does not, and `s` is at most the number of XP entries |
| Progress.StreakWithinMap | app.v6.js:150-154 | a run of days reaching a positive goal fits inside the map's entries |
| Progress.Tracker.ThisWeekXP | app.v7.js:98-102 | the weekly total as written: the sum of the entries with today's week number and calendar year |
| Progress.Tracker.ThisIsoWeekXP | app.v7.js:98-102 | the intended weekly total: the sum of the entries from today's Monday to Sunday |
| Words.TrimEmptyIffBlank | app.v3.js:381-383 | a trimmed field is empty exactly when the field is blank |
| Words.TrimIdempotent | app.v7.js:263 | trimming twice is trimming once |
| Words.SplitWs | app.safe.js:119 | `split(/\s+/)` yields at least one piece, none containing white space |
| Words.SplitWsKeepsText | app.safe.js:119 | the pieces, joined, are the input's non-space characters in order |
| Words.CountIn | app.v3.js:351 | the number of matches is at most the number of guess words |
| Words.CountInAll | app.v7.js:242 | every guess word counts exactly when every guess word is a target word |
| Words.MatchCount | app.v3.js:351 | the `match++` loop counts the guess words that are in the set of target words |
| Words.RepeatedWordsScoreAbove100 | app.v3.js:348-353 | a guess that repeats a target word scores 150% ("a a a" against "a b") |
| Words.SplitNeverEmpty | app.v3.js:352 | a split target is never empty, so the `wa.length ? … : 0` fallback is not taken |
| Words.StripPunctuation | app.v3.js:349 | the kept text has only word characters, white space and apostrophes; a text made only of those comes back unchanged, and a text with none of them comes back empty |
| Words.StripAppend | app.v3.js:349-350 | stripping distributes over concatenation, so the kept characters stay in their order |
| Words.SimilarityWords | app.v3.js:348-353 | `similarityWords` counts the guess words found among the target words, over at least one target word |
| Words.ScorePercent | app.v7.js:243-244 | the displayed score is `Math.round(100 × matches / target words)`: the exact ratio lies within half a point below or above it, and it is 0 with no target words and never negative |
| Html.EscapeChar | app.v7.js:19 | each of `& < > " '` becomes a reference starting with `&`, and any other character is kept |
| Html.Escape | app.v3.js:18 | escaping never shortens the text |
| Html.EscapeRoundTrip | app.v3.js:18 | decoding the five references gives the input back, so escaping loses nothing |
| Html.EscapeIsSafe | app.v6.js:20 | the output has no raw `<`, `>`, `"` or `'`, and every `&` in it begins one of the five references |
| Html.EscapePlain | app.safe.js:10 | text without the five characters is left unchanged |
| Html.EscapeAppend | app.v7.js:19 | escaping works character by character: it distributes over concatenation |
| Cards.NewCard | app.v7.js:259-260 | a new card has ease 2.5, interval 0, no repetitions, is due today, and is in schedule shape |
| Cards.RoundHundredths | app.v7.js:286 | `Math.round(a / 100)` is the whole number nearest `a / 100`, with halves rounded up |
| Cards.Rate | app.v7.js:283-287 | rating keeps the card's id and texts, and the card falls due `interval` days after today |
| Cards.RateFail | app.v7.js:285 | below grade 3, for any card: no repetitions, interval 1, due tomorrow, and ease exactly `max(1.3, ease - 0.2)` |
| Cards.RatePass | app.v7.js:286 | from grade 3: one more repetition; interval 1 at the first repetition, 3 at the second, `Math.round(interval × ease)` after that; ease exactly `min(3.0, ease + 0.15)` for grade 4 and `min(3.0, ease)` otherwise; for a card in shape the ease never falls and from the third repetition the interval never shrinks |
| Cards.RateKeepsScheduled | app.v3.js:432-445 | rating keeps ease in 1.3..3.0 and counts valid, with an interval of at least one day, so a rated card is no longer due today |
| Cards.GoodCanLowerEase | app.v3.js:441 | a card with ease above 3.0 loses ease on a plain "good" |
| Cards.GoodGoodGoodAgain | app.v3.js:432-443 | a new card passed three times waits 1, 3, then 8 days; a fail then brings it to 1 day and ease 2.3 |
| Cards.Filter | app.v7.js:253 | a filter keeps exactly the elements that pass, and never grows |
| Cards.FilterAppend | app.v3.js:367 | filtering works piece by piece, so kept elements keep their order |
| Cards.FilterCount | app.v7.js:256 | the filtered length equals the list length exactly when all pass, and is 0 exactly when none does |
| Cards.DueCards | app.v7.js:290 | the quiz snapshot holds exactly the cards with `due <= today` |
| Cards.WithoutId | app.v7.js:253 | deleting keeps exactly the cards with another id |
| Cards.WithoutIdKeepsOrder | app.v3.js:367 | deleting keeps the rest in order, and a list without the id is unchanged |
| Cards.FindIndex | app.v7.js:287 | `findIndex` answers the first position with the id, or -1 when there is none |
| Cards.ReplaceById | app.v7.js:287 | write-back replaces the first card with the id and keeps every other position |
| Cards.ReplaceByIdIds | app.v3.js:445-446 | write-back never changes the ids in the list, and leaves a list without the id unchanged |
| Cards.ListOpsKeepScheduled | app.v7.js:253-287 | adding, deleting and rating keep every card of the list in schedule shape |
| Session.Deck.constructor | app.v7.js:249 | the page starts from the stored list with no quiz under way |
| Session.Deck.ServeNext | app.v7.js:277-282 | the queue head becomes the current card, with rating off and reveal and skip on; an empty queue leaves no current card, rating off and the XP button on; the served cards stay a prefix of the snapshot |
| Session.Deck.StartQuiz | app.v7.js:290 | the queue becomes the due cards in list order; with none due nothing else changes, otherwise the first due card is served |
| Session.Deck.Skip | app.v7.js:291 | skip serves the next card and shrinks the queue by one; rating is off; with a card left, reveal and skip are on; after the last card, the XP button is on |
| Session.Deck.Reveal | app.v7.js:292 | with a current card, rating is switched on and reveal off; without one nothing changes |
| Session.Deck.Rate | app.v7.js:283-289 | without a current card nothing changes; otherwise the rated card is written back by id and the next card is served: rating off, then reveal and skip on with a card left, or the XP button on after the last card |
| Session.Deck.RateUnguarded | app.v3.js:432-449 | without a current card the call throws and changes nothing; otherwise the rated card is written back by id; if the store's write then throws, the call throws with the rated card still current and the queue and buttons as they were, so it can be rated again; otherwise the next card is served with the same button states as in `Rate` |
| Session.Deck.AddVocab | app.v3.js:375-380 | one new card is appended at the end, and nothing else changes |
| Session.Deck.AddWord | app.v3.js:381-385 | a card is added exactly when neither field is blank, with the trimmed texts |
| Session.Deck.Delete | app.v3.js:367 | every card with the id goes, the rest stay in order, and the quiz state is untouched |
| Session.Deck.ImportVocab | app.v3.js:392-396 | an array replaces the list; another value or a file that does not parse leaves it alone |
| Session.Deck.ClearVocab | app.v7.js:273 | after confirmation the list is empty |
| Session.Deck.DueCount | app.v7.js:255-257 | the due count is at most the list length; it equals it exactly when all cards are due, and is 0 exactly when none is |
| Session.Deck.MarkVocabXp | app.v3.js:430 | 5 XP and the vocab flag for today, and the button switches itself off; the goal, minutes and hours settings and the session are unchanged |
| Session.ServedIsPrefix | app.v7.js:278 | the served cards are the head of the snapshot and the queue its rest, so no card of a session is served twice |
| SafeMode.App.constructor | app.safe.js:17-25 | start-up: goal 30, XP 0, all five flags false, and the two seed cards due today |
| SafeMode.App.AddXP | app.safe.js:55-59 | the single counter grows by `n`, the named flag is raised, and the other flags keep their values |
| SafeMode.App.IncGoal | app.safe.js:60 | "+" adds 5 to the goal |
| SafeMode.App.DecGoal | app.safe.js:61 | "−" sets `max(10, goal - 5)` |
| SafeMode.App.ResetDay | app.safe.js:62 | XP 0 and all five flags false |
| SafeMode.App.StreakFigure | app.safe.js:73 | the displayed streak is 1 exactly when XP reaches the goal, and 0 otherwise |
| SafeMode.App.AddWord | app.safe.js:133-137 | a card due today is appended exactly when neither trimmed field is blank |
| SafeMode.App.ClearVocab | app.safe.js:140 | the clear button empties the list without confirmation |
| SafeMode.App.DueCount | app.safe.js:131 | the due counter shows the whole list length, which is at least the number of cards actually due |
| SafeMode.DueCountExactIffAllDue | app.safe.js:131 | the counter equals the number of due cards exactly when every card is due |
| SafeMode.CheckDictation | app.safe.js:116-121 | the guess words found among the target words are counted after trimming and splitting on white space, with no punctuation stripping |

## Left out

- Rendering is not modelled: the DOM, tabs, badges, the 14-day chart, `alert`/`confirm` (a confirmation is a `confirmed` argument) and `location.reload`.
- Speech synthesis, the microphone and speech recognition are platform APIs, so they are not modelled.
- `fetch` / JSON loading, `FileReader` and the Blob download are I/O. Only the key collection of an export and the per-key writes of an import are modelled.
- Phrase-of-the-day selection (`Math.sin` noise), `randomPrompt` (`Math.random`) and the B2 countdown (wall-clock milliseconds) are not modelled.
- Mixing UTC `toISOString` with local-time `setDate` is not modelled. "Today" is one injected day number, and `fmt(addDays(today, n))` is `today + n`.
- Card ids come from `Date.now() + Math.random()`. Here the fresh id is a parameter.
- The loose comparison `x.id != id` against the id string of a table row is not modelled. Ids are integers and compare exactly.
- `JSON.stringify` / `JSON.parse` are opaque, with the single round-trip law in `Values.Stringify`.
- Stored numbers are integers, and ease is exact in hundredths. The build's floating-point ease can drift off the hundredths grid (2.5 − 0.2 − 0.2 …), and it can round differently at exact halves. The dictation score is likewise computed exactly, as a ratio of integers.
- An imported vocabulary array is taken to hold well-formed cards. Elements without an `ease`, `interval`, `reps` or a date-shaped `due` are not modelled.
- The XP, flag and goal operations of `Progress.Tracker` and `SafeMode.App` work on the values the store would answer. Their writes through the store are not modelled; each store is modelled on its own.
- `Session.Deck`: the card list is not written back through the store (`store.set` of the vocabulary key) after an add, delete, import, clear or rating. The list itself is the model's state. In `app.v3.js` that write can throw after the list has changed. Only `Session.Deck.RateUnguarded` models that case (its `writeFails` argument), because it is the only one where the throw skips a change of session state (`serveNextCard`); elsewhere the throw only skips redrawing the table and the counter. In the protected builds the write never throws.
- `Session.Deck.Rate`: it replaces by value. In the build, the rated card is the same object as its list entry, so with two cards sharing an id, both positions change there. Here only the first does. The model also does not capture that a card's in-place update is visible through every reference to it.
- `Words.StripPunctuation`: the Unicode letter and number classes `\p{L}` and `\p{N}` are a parameter `isWordChar`. `toLowerCase` is not modelled (`SafeMode.CheckDictation` takes lower-cased text). Only the white space listed in `Words.IsSpace` is recognised.
- `Progress.Tracker.Streak`: it requires a positive goal. With a goal of 0 or less, every day passes the test, so the build walks back until the date leaves the range of JavaScript dates (about 10^8 days before 1970) and `toISOString()` throws a `RangeError`. The model has no such lower bound on days, and it does not model that exception.
- `Session.Deck.constructor`: the initial enabled state of the four buttons comes from the page markup, which is not modelled. It is a parameter.
- Export of the vocabulary file is not modelled: it is JSON-serialising the list into a download.

## Findings

| source | as written | input that shows it | evidently intended | confidence | as-written member | corrected member |
|---|---|---|---|---|---|---|
| app.v3.js:136 | `calcThisWeekXP` keeps entries with today's `weekNumber` and today's calendar year (`getFullYear`) | today 2024-12-30 (ISO week 1 of 2025): the entry for 2024-01-01 (week 1 of 2024) is counted, and 2025-01-01 (same week as today) is not | the XP of today's ISO week, Monday to Sunday, i.e. the same week number in the same week-numbering year | high (not executed) | Progress.Tracker.ThisWeekXP, Progress.CalendarYearTestMisplacesWeek | Progress.Tracker.ThisIsoWeekXP, Progress.SameIsoWeekIsSameSpan |
| app.v7.js:120 | reset-day stores `dailyFlags()` for today, which is today's existing record | a "listening" flag raised today is still raised after reset, so its button stays disabled | reset-day clears today's flags to all-false, as app.v3.js:177 and app.v6.js:171 do | medium (not executed) | Progress.Tracker.ResetDayKeepFlags, Progress.ResetKeepsRaisedFlag | Progress.Tracker.ResetDay, Progress.ResetFlagsClears |
