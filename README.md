# furina_assistant command core in Dafny

This project models the text-processing core of the furina_assistant voice assistant and proves properties of the model. The assistant turns recognised speech into command replies. The model covers:

- **`FuzzyMatcher`** (`fuzzy_matcher.dfy`): Levenshtein distance, the cleaning
  step, the similarity ratio, partial matching, best-match selection and
  keyword extraction with its stable descending sort (`stable_sort.dfy`).
- **`SmartCommandMatcher`** (`smart_command_matcher.dfy`): the two-phase
  command match and the correction suggestions.
- **`BaseCommand` and `CommandProcessor`** (`command_base.dfy`): keyword tests,
  parameter extraction, activation checking and cleaning, registration, listing,
  and the first-match dispatcher.
- **The decision logic of the individual commands**:
  - application launching (`app_commands.dfy`);
  - system and volume control (`system_commands.dfy`);
  - help and greetings (`help_commands.dfy`);
  - voice on/off and repeat (`tts_commands.dfy`, over the engine front end in `tts.dfy`);
  - statistics, uptime formatting and the fuzzy-test reply (`system_info_commands.dfy`).

The Python built-ins the code relies on are written out in `text.dfy`:

- `lower`, `isspace`;
- `in` on strings, `any(... in ...)`;
- `replace(w, "")`, `strip`;
- the `\s+` collapse, `split()`, `join`;
- `str(n)`.

Scores are exact reals. Process launches are values of `OsProcess.Invocation`, and what a launch does is a parameter of type `Invocation -> Outcome`. The operating-system name is a parameter standing for `platform.system()`.

A command given to `SmartCommandMatcher` is an `Option<seq<string>>`. `None` stands for an object without a `keywords` attribute. A match names the command by its index.

Points of the code's behaviour that its docstrings and names leave open:

- `extract_parameters` ("removing keywords", `src/commands/base.py:22`) and `_clean_activation` ("Removes activation words", `src/commands/base.py:62`) remove only the first word, in list order, that occurs in the lower-cased text. They remove it with `str.replace`, which deletes **every** occurrence of that word, and they return the lower-cased remainder stripped (`src/commands/base.py:26`, `:66`). When no word occurs, the original text comes back stripped with its case kept. `Text.RemoveAllRepeat` shows that repeated copies all go.
- `process_text` (`src/commands/base.py:40-54`) checks for an activation word, cleans it away, and runs the first registered command whose keywords occur in what remains. That command's reply is returned as it is.
  - Only this keyword test decides which command runs. When no command qualifies, the reply is "Command not recognized: " followed by the cleaned text.
  - When the cleaned remainder is empty and every registered keyword is non-empty, no command qualifies and the reply is "Command not recognized: " and nothing more (`CommandBase.EmptyRemainderNotRecognized`). A text made only of activation words need not clean to nothing: only the first activation word found is removed, so with the activation words "furina" and "purina" (`src/main.py:13`) the text "furina purina" cleans to "purina".
  - `SmartCommandMatcher` is not called by `process_text`. It is modelled as a component of its own.

## Model

| member | source | states |
|---|---|---|
| FuzzyMatcher.LevenshteinDistance | src/utils/fuzzy_matcher.py:8-26 | the row-by-row loop (after the swap that puts the longer string first) returns the edit distance of the textbook recurrence |
| FuzzyMatcher.NextRow | src/utils/fuzzy_matcher.py:17-24 | one pass of the inner loop turns row i of the distance table into row i+1 |
| FuzzyMatcher.LevenshteinSymmetric | src/utils/fuzzy_matcher.py:10-11 | d(a,b) = d(b,a), so the swap does not change the result |
| FuzzyMatcher.LevenshteinZero | src/utils/fuzzy_matcher.py:8-26 | the distance is 0 exactly when the strings are equal |
| FuzzyMatcher.LevenshteinBounds | src/utils/fuzzy_matcher.py:13-14 | the length difference <= d <= the longer length, and d(a,"") = len(a) |
| FuzzyMatcher.Levenshtein | src/utils/fuzzy_matcher.py:8-26 | `levenshtein_distance` as the textbook recurrence over the whole strings; `LevenshteinDistance` proves the loop computes it, and `LevenshteinSymmetric`, `LevenshteinZero` and `LevenshteinBounds` state its properties |
| FuzzyMatcher.DistSymmetric | src/utils/fuzzy_matcher.py:20-23 | the recurrence on prefixes is symmetric in its two strings |
| FuzzyMatcher.DistSelf | src/utils/fuzzy_matcher.py:20-23 | a prefix is at distance 0 from itself |
| FuzzyMatcher.DistBounds | src/utils/fuzzy_matcher.py:20-23 | the prefix distance lies between the length difference and the longer length |
| FuzzyMatcher.DistZero | src/utils/fuzzy_matcher.py:20-23 | prefix distance 0 forces equal prefixes |
| FuzzyMatcher.Row | src/utils/fuzzy_matcher.py:16-18 | a table row has one entry per prefix of the second string |
| FuzzyMatcher.Without | src/utils/fuzzy_matcher.py:56 | the comprehension over any drop list: the kept tokens are input tokens outside the list, and nothing is dropped when no token is in it |
| FuzzyMatcher.WithoutKeeps | src/utils/fuzzy_matcher.py:56 | every input token outside the drop list is kept, as often as it occurs |
| FuzzyMatcher.RemoveStopWords | src/utils/fuzzy_matcher.py:53-56 | every kept token is an input token and not a stop word; with no stop word present nothing is dropped |
| FuzzyMatcher.RemoveStopWordsKeeps | src/utils/fuzzy_matcher.py:56 | every token that is not a stop word is kept, as often as it occurs in the input |
| FuzzyMatcher.CleanTokensAreClean | src/utils/fuzzy_matcher.py:49-56 | the cleaned tokens are lower-case, non-empty, whitespace-free and not stop words |
| FuzzyMatcher.CleanJoinFixed | src/utils/fuzzy_matcher.py:55-57 | cleaning a space-join of clean tokens gives it back, with the same tokens |
| FuzzyMatcher.CleanStringLaws | src/utils/fuzzy_matcher.py:46-57 | `_clean_string` output is lower-case, single-spaced, without whitespace at the ends, free of stop-word tokens, and fixed by cleaning again |
| FuzzyMatcher.CleanStringIdempotent | src/utils/fuzzy_matcher.py:46-57 | cleaning twice equals cleaning once |
| FuzzyMatcher.CleanString | src/utils/fuzzy_matcher.py:46-57 | `_clean_string`: lower-case, collapse whitespace runs, strip, split, drop stop words, join with spaces; `CleanStringLaws` and `CleanStringIdempotent` state what its output is |
| FuzzyMatcher.RatioBounds | src/utils/fuzzy_matcher.py:42 | (max_len - d)/max_len*100 lies in [0,100] and equals 100 exactly when d = 0 |
| FuzzyMatcher.CleanRatioLaws | src/utils/fuzzy_matcher.py:34-43 | on cleaned strings the ratio is 0 when one is empty, lies in [0,100], is symmetric, and is 100 exactly for equal non-empty strings |
| FuzzyMatcher.CleanRatio | src/utils/fuzzy_matcher.py:34-43 | the score of two cleaned strings, 0.0 when either is empty and (max_len - d)/max_len*100 otherwise; `CleanRatioLaws` states its bounds, symmetry and when it is 100 |
| FuzzyMatcher.SimilarityLaws | src/utils/fuzzy_matcher.py:29-43 | `similarity_ratio` is 0.0 when either cleaned string is empty, lies in [0,100], is symmetric, and is 100 exactly when both clean to the same non-empty string |
| FuzzyMatcher.SimilarityRatio | src/utils/fuzzy_matcher.py:29-43 | `similarity_ratio` as the score of the two cleaned strings; `SimilarityLaws` and `SimilarityOfCleaned` state its properties |
| FuzzyMatcher.SimilarityOfCleaned | src/utils/fuzzy_matcher.py:87 | scoring already-cleaned strings gives the same ratio as scoring the originals |
| FuzzyMatcher.PartialMatchLaws | src/utils/fuzzy_matcher.py:77-88 | `partial_match` holds exactly when one cleaned string contains the other or the ratio reaches the threshold; an empty cleaned side always matches |
| FuzzyMatcher.PartialMatch | src/utils/fuzzy_matcher.py:77-88 | `partial_match`: containment either way between the cleaned strings, else the similarity test; `PartialMatchLaws` states when it holds |
| FuzzyMatcher.FindBestMatch | src/utils/fuzzy_matcher.py:60-74 | None for empty text or no candidates, or when no candidate scores above 0 and at the threshold; otherwise the earliest candidate with the strictly highest eligible score, with that score |
| FuzzyMatcher.WordBestMeans | src/utils/fuzzy_matcher.py:108-111 | the inner running maximum is at least its start and every pair score, and equals one of them |
| FuzzyMatcher.PairBestMeans | src/utils/fuzzy_matcher.py:106-111 | the best word-pair score is >= 0, >= every pair score, and is either 0.0 or some pair's score |
| FuzzyMatcher.BestPairScore | src/utils/fuzzy_matcher.py:106-111 | the nested loop computes the best word-pair score |
| FuzzyMatcher.ExtractKeywords | src/utils/fuzzy_matcher.py:91-118 | the loop with its appends and final sort returns the specified keyword list |
| FuzzyMatcher.KeywordEntryLaws | src/utils/fuzzy_matcher.py:96-114 | a keyword sharing a cleaned word scores 100.0; otherwise it is kept exactly when some pair reaches the threshold, at a score at least every pair's; scores lie in [0,100] |
| FuzzyMatcher.MatchesLaws | src/utils/fuzzy_matcher.py:96-114 | the unsorted list holds exactly the keywords' entries, at most one per keyword |
| FuzzyMatcher.KeywordMatchesLaws | src/utils/fuzzy_matcher.py:91-118 | the result is sorted by score, highest first, is a permutation of the unsorted entries that keeps keyword order among equal scores, and every score is 100 or at least the threshold |
| FuzzyMatcher.KeywordMatches | src/utils/fuzzy_matcher.py:91-118 | `extract_keywords`' result: the per-keyword entries sorted by score, highest first; `ExtractKeywords` proves the loop computes it, and `KeywordMatchesLaws`, `KeywordMatchesDistinct` and `KeywordMatchesTop` state its properties |
| FuzzyMatcher.MatchesDistinct | src/utils/fuzzy_matcher.py:96-114 | distinct keywords give entries naming distinct keywords |
| FuzzyMatcher.KeywordMatchesDistinct | src/utils/fuzzy_matcher.py:116-117 | sorting keeps distinct keywords distinct |
| FuzzyMatcher.KeywordMatchesTop | src/utils/fuzzy_matcher.py:116-118 | the result is empty exactly when no keyword has an entry; otherwise its head is some keyword's entry, scores at least every entry, and is the earliest entry with the top score |
| StableSort.SortDescLaws | src/utils/fuzzy_matcher.py:117 | `sort(key=score, reverse=True)` gives a descending, permuted, stable order |
| StableSort.InsertDescLaws | src/utils/fuzzy_matcher.py:117 | one insertion step keeps the list sorted, adds exactly the element, and puts it after its equals |
| StableSort.InsertDescMultiset | src/utils/fuzzy_matcher.py:117 | insertion adds exactly the inserted element |
| StableSort.InsertDescSorted | src/utils/fuzzy_matcher.py:117 | insertion keeps a descending list descending |
| StableSort.InsertDescWithKey | src/utils/fuzzy_matcher.py:117 | insertion puts the element after every element with the same key |
| StableSort.WithKeyAppend | src/utils/fuzzy_matcher.py:117 | the elements with a given key split over a concatenation |
| StableSort.WithKeyNone | src/utils/fuzzy_matcher.py:117 | no element with the key gives an empty selection |
| StableSort.WithKeyFirst | src/utils/fuzzy_matcher.py:117 | the first element selected for a key has no earlier element with that key |
| StableSort.SortedTail | src/utils/fuzzy_matcher.py:117 | the tail of a descending list is descending |
| StableSort.InsertDescDistinct | src/utils/fuzzy_matcher.py:117 | inserting a new element keeps the elements distinct |
| StableSort.SortDescDistinct | src/utils/fuzzy_matcher.py:117 | sorting keeps the elements distinct |
| SmartCommandMatcher.FirstPartialMeans | src/utils/fuzzy_matcher.py:141-143 | the first keyword, in list order, that `partial_match`es at 90, or none when no keyword does |
| SmartCommandMatcher.FindCommandMatch | src/utils/fuzzy_matcher.py:127-155 | if any command has a keyword that partially matches at 90: the first such command, confidence 100.0, and its first such keyword; otherwise None exactly when no top score is positive, else the earliest command with the strictly highest top score, with that score and keyword |
| SmartCommandMatcher.TopScoreLaws | src/utils/fuzzy_matcher.py:146-153 | a command's top score lies in [0,100], is 0.0 with keyword "" when no keyword has an entry, is at least every entry's score, and belongs to one of its keywords |
| SmartCommandMatcher.EmptyTextMatchesFirstKeyword | src/utils/fuzzy_matcher.py:79-84 | a text that cleans to nothing partially matches the first keyword of any command that has one |
| SmartCommandMatcher.AllKeywordsMember | src/utils/fuzzy_matcher.py:159-162 | the collected keywords are exactly the keywords of the commands that have them |
| SmartCommandMatcher.SuggestCorrections | src/utils/fuzzy_matcher.py:157-166 | the suggestions are the keywords of the leading `max_suggestions` entries of `extract_keywords` at 30 over all keywords |
| SmartCommandMatcher.SuggestionsLaws | src/utils/fuzzy_matcher.py:157-166 | at most `max_suggestions` suggestions when that is not negative; each is some command's keyword, scores 100 or at least 30, and scores no higher than the ones before it |
| CommandBase.CanExecute | src/commands/base.py:16-19 | `can_execute` holds exactly when some keyword occurs in the lower-cased text |
| CommandBase.RemoveFirstFoundLaws | src/commands/base.py:21-27 | with no word present the text is only stripped; otherwise the earliest word present is deleted everywhere from the lower-cased text and the result is stripped and lower-case |
| CommandBase.ExtractParametersLaws | src/commands/base.py:21-27 | `extract_parameters` strips text holding no keyword, else deletes every occurrence of the first keyword found from the lower-cased text and strips |
| CommandBase.ExtractParameters | src/commands/base.py:21-27 | `extract_parameters` as the first-found removal over the command's keywords; `ExtractParametersLaws` states what it returns |
| CommandBase.FirstCapable | src/commands/base.py:49-52 | the first command in registration order that can execute the text, or none exactly when no command can |
| CommandBase.CommandProcessor.constructor | src/commands/base.py:32-34 | starts with the given activation words and no commands |
| CommandBase.CommandProcessor.RegisterCommand | src/commands/base.py:36-38 | appends the command; the listing gains exactly its entry at the end |
| CommandBase.CommandProcessor.IsValidActivation | src/commands/base.py:56-59 | `_is_valid_activation`: some activation word occurs in the lower-cased text; `ProcessText` rejects exactly the texts failing it |
| CommandBase.CommandProcessor.CleanActivation | src/commands/base.py:61-67 | `_clean_activation` as the first-found removal over the activation words; `CleanActivationLaws` states what it returns |
| CommandBase.CommandProcessor.CleanActivationLaws | src/commands/base.py:56-67 | a valid activation removes the first activation word present everywhere from the lower-cased text and strips; otherwise the text is only stripped |
| CommandBase.CommandProcessor.ProcessText | src/commands/base.py:40-54 | no activation word: the fixed rejection and no command runs; otherwise the first capable command runs on the cleaned text and its reply is returned, or "Command not recognized: " and the cleaned text |
| CommandBase.CommandProcessor.ListCommands | src/commands/base.py:69-77 | one entry per command, in registration order, with its keywords and description |
| CommandBase.EmptyRemainderNotRecognized | src/commands/base.py:49-54 | with non-empty keywords no command can execute an empty remainder |
| AppCommands.Keys | src/commands/app_commands.py:60 | the table's keys, in table order |
| AppCommands.AppsFor | src/commands/app_commands.py:14-50 | the per-OS application tables in insertion order, and the empty table for any other OS (`apps.get(os_name, {})`, line 54) |
| AppCommands.PlanApp | src/commands/app_commands.py:52-72 | what `execute` decides before a launch; `PlanAppLaws` and `UnknownOsLaunchesNothing` state the decision |
| AppCommands.ExecuteApp | src/commands/app_commands.py:52-83 | `execute` with `run` standing for `subprocess.run`; `NoLaunchReplies` states the two replies without a launch, `NoLaunchIgnoresRun` that they ignore `run`, and `LaunchReplyLaws` the replies after a launch |
| AppCommands.PlanAppLaws | src/commands/app_commands.py:52-78 | an empty app name asks for one and lists the keys; a name containing no key is not found; otherwise the first key contained in the name selects its command, run through the shell on Windows and split into arguments elsewhere |
| AppCommands.UnknownOsLaunchesNothing | src/commands/app_commands.py:54 | on an OS without a table nothing launches and the list of available apps is empty |
| AppCommands.NoLaunchReplies | src/commands/app_commands.py:57-72 | an empty app name gets "Please specify an application. Available: " and the keys joined by ", " in table order; a name holding no key gets "Application '<name>' not found. Available: " and the same list |
| AppCommands.NoLaunchIgnoresRun | src/commands/app_commands.py:59-72 | when nothing is launched the reply does not depend on the process outcome |
| AppCommands.LaunchReplyLaws | src/commands/app_commands.py:74-83 | after a launch the reply is "Opening <name>..." exactly when the process completed, "Error opening <name>: <message>" when it failed and "Unexpected error: <message>" on any other error |
| SystemCommands.SystemLaws | src/commands/system_commands.py:13-36 | a shutdown/restart word gives the safety reply and runs nothing, even beside a sleep word; a sleep word alone plans the OS's sleep command, which on Windows, Darwin and Linux is run, the reply then being "Putting system to sleep..." on success, "Error executing sleep command: <message>" on a failed process and "Unexpected error: <message>" otherwise; on another OS nothing runs yet the reply is "Putting system to sleep..."; neither kind of word gives the not-recognised reply |
| SystemCommands.SleepInvocation | src/commands/system_commands.py:24-29 | the sleep command of Windows, Darwin and Linux as an argument list, none for any other OS |
| SystemCommands.PlanSystem | src/commands/system_commands.py:13-36 | what `SystemCommand.execute` decides before anything runs; `SystemLaws` states the decision |
| SystemCommands.ExecuteSystem | src/commands/system_commands.py:13-36 | `SystemCommand.execute` with `run` standing for `subprocess.run`; `SystemLaws` states its replies |
| SystemCommands.VolumeActionOf | src/commands/system_commands.py:51-72 | the volume branch the lower-cased text selects; `VolumeActionLaws` states the precedence |
| SystemCommands.VolumeActionLaws | src/commands/system_commands.py:51-72 | the branch is subir/up, else bajar/down, else silencio/mute, else none |
| SystemCommands.VolumePlanLaws | src/commands/system_commands.py:46-82 | no volume word: "Volume command not recognized"; on Windows each branch is its "not implemented" reply with no process; a process runs only on Darwin and Linux; on an OS outside the three the reply is "Volume command not recognized" |
| SystemCommands.VolumeReplyLaws | src/commands/system_commands.py:55-87 | on Darwin and Linux each branch runs a process and replies "Volume increased", "Volume decreased", or "Audio muted" (Darwin) / "Audio toggled" (Linux) on success, "Error controlling volume: <message>" on a failed process and "Unexpected error: <message>" on any other error |
| SystemCommands.PlanVolume | src/commands/system_commands.py:46-82 | what `VolumeCommand.execute` decides before anything runs; `VolumePlanLaws` states the decision |
| SystemCommands.ExecuteVolume | src/commands/system_commands.py:46-87 | `VolumeCommand.execute` with `run` standing for `subprocess.run`; `VolumePlanLaws` and `VolumeReplyLaws` state its replies |
| HelpCommands.HelpCommand.constructor | src/commands/help_commands.py:6-10 | stores the given processor |
| HelpCommands.HelpCommand.SetProcessor | src/commands/help_commands.py:12-14 | replaces the processor |
| HelpCommands.HelpCommand.Execute | src/commands/help_commands.py:16-39 | no processor: "Help system not properly initialized"; otherwise the banner, the activation words, one entry per listed command numbered from 1 in listing order, and the examples |
| HelpCommands.Entries | src/commands/help_commands.py:25-31 | exactly one entry per listed command, entry i numbered i+1 |
| HelpCommands.HelpTextShape | src/commands/help_commands.py:22-37 | the text starts with the banner and the activation words joined by ", ", and always ends with the fixed examples block |
| HelpCommands.HelpText | src/commands/help_commands.py:20-39 | the help text once a processor is set: banner, activation line, the numbered entries, the examples; `HelpCommand.Execute` proves the loop builds it and `HelpTextShape` states its shape |
| HelpCommands.EntryLaws | src/commands/help_commands.py:26-30 | an entry's number reads back from its start; all keywords are shown when there are at most three, else the first three followed by "..." |
| HelpCommands.ConcatAppend | src/commands/help_commands.py:30-31 | appending one entry to the text extends it by exactly that entry |
| HelpCommands.AppendEntry | src/commands/help_commands.py:25-31 | each loop step adds the next command's entry |
| HelpCommands.GreetingLaws | src/commands/help_commands.py:49-64 | each greeting reply is given exactly when its words occur and no earlier group's do: hello, morning, afternoon, evening, then the default |
| HelpCommands.GreetingReply | src/commands/help_commands.py:49-64 | `GreetingCommand.execute`; `GreetingLaws` and `HiInsideWords` state which reply each text gets |
| HelpCommands.HiInsideWords | src/commands/help_commands.py:52-53 | every text whose lower-cased form holds "hi", also inside another word such as "this", gets the hello reply, whatever other greeting it holds |
| Tts.EngineInfoLaws | src/audio/tts.py:215-219 | no engine: "No TTS engine available"; otherwise the info names the engine and ends in "True" exactly when enabled |
| Tts.TextToSpeech.constructor | src/audio/tts.py:138-177 | starts enabled, and disabled when no engine was selected |
| Tts.TextToSpeech.Toggle | src/audio/tts.py:206-209 | flips the flag and returns the new state; the engine is kept |
| Tts.TextToSpeech.Speak | src/audio/tts.py:179-204 | speaking succeeds only when enabled, with an engine, for non-blank text, and when the engines succeed |
| TtsCommands.ActionOfLaws | src/commands/tts_commands.py:22-46 | mute words win over enable words, which win over status and then test words; otherwise the text is unrecognised |
| TtsCommands.ActionOf | src/commands/tts_commands.py:22-46 | the branch of `TTSControlCommand.execute` the lower-cased text selects; `ActionOfLaws` states the precedence |
| TtsCommands.ControlLaws | src/commands/tts_commands.py:22-46 | after muting voice output is off and after enabling it is on; the flag changes, through `toggle`, exactly when it was in the other state; muting replies "Voice output disabled" when it was on and "Voice output is already disabled" when it was off, and enabling likewise; status, test and unrecognised leave the flag alone; status replies with the engine information; a test replies "Voice test completed" exactly when voice output is on, an engine is present and it speaks, else "Voice test failed"; unrecognised text gets the usage reply |
| TtsCommands.EnabledAfter | src/commands/tts_commands.py:22-34 | the enabled flag after a branch; `ControlLaws` states it and `TTSControlCommand.Execute` proves the method sets it |
| TtsCommands.ControlReply | src/commands/tts_commands.py:22-46 | the reply of a branch on the old state; `ControlLaws` states the reply of every branch and `TTSControlCommand.Execute` proves the method returns it |
| TtsCommands.TestPhraseNotBlank | src/commands/tts_commands.py:40 | the test phrase is not blank |
| TtsCommands.TTSControlCommand.constructor | src/commands/tts_commands.py:6-10 | stores the given engine |
| TtsCommands.TTSControlCommand.SetTtsEngine | src/commands/tts_commands.py:12-14 | replaces the engine |
| TtsCommands.TTSControlCommand.Execute | src/commands/tts_commands.py:16-46 | no engine: "TTS engine not available" and nothing changes; otherwise the flag becomes the branch's new state, the engine is kept, and the reply is the branch's reply on the old state |
| TtsCommands.RepeatReplyLaws | src/commands/tts_commands.py:66-73 | the reply is "No previous response to repeat" exactly when nothing is stored; otherwise the stored response reads back after "Repeating: " |
| TtsCommands.RepeatReply | src/commands/tts_commands.py:66-73 | the reply of `RepeatCommand.execute`; `RepeatReplyLaws` states it |
| TtsCommands.RepeatCommand.constructor | src/commands/tts_commands.py:51-56 | stores the engine; the last response starts empty |
| TtsCommands.RepeatCommand.SetTtsEngine | src/commands/tts_commands.py:58-60 | replaces the engine and keeps the last response |
| TtsCommands.RepeatCommand.SetLastResponse | src/commands/tts_commands.py:62-64 | stores its argument |
| TtsCommands.RepeatCommand.Execute | src/commands/tts_commands.py:66-73 | replies from the stored response, changes nothing, and speaks it exactly when one is stored and an enabled engine is present |
| SystemInfoCommands.PercentBounds | src/commands/system_info_commands.py:28-30 | a count no larger than the total is 0-100 percent of it |
| SystemInfoCommands.PercentSum | src/commands/system_info_commands.py:28-30 | counts that sum to the total have percentages summing to 100 |
| SystemInfoCommands.PercentLaws | src/commands/system_info_commands.py:28-37 | the percentages lie in [0,100]; when the counts make up the total they sum to 100 and the success rate is exact plus fuzzy |
| SystemInfoCommands.StatsTextLaws | src/commands/system_info_commands.py:32-33 | the report starts with its header and the total, which reads back, and differs from both notices |
| SystemInfoCommands.StatsText | src/commands/system_info_commands.py:28-37 | the statistics report; `StatsTextLaws` states its header and total line, `StatsLinesLaws` its count lines and closing success rate, and `PercentLaws` its percentages |
| SystemInfoCommands.StatsLinesLaws | src/commands/system_info_commands.py:34-37 | the report holds the exact, fuzzy and failed lines, each with its count and its percentage of the total, and ends with the success rate, which equals the exact plus the fuzzy percentage when the three counts make up the total |
| SystemInfoCommands.StatsCommand.constructor | src/commands/system_info_commands.py:9-13 | stores the given processor |
| SystemInfoCommands.StatsCommand.SetProcessor | src/commands/system_info_commands.py:15-17 | replaces the processor |
| SystemInfoCommands.StatsCommand.Execute | src/commands/system_info_commands.py:19-39 | no processor: "Statistics not available"; a zero total: "No commands processed yet", so no percentage divides by zero; otherwise the report |
| SystemInfoCommands.Clock | src/commands/system_info_commands.py:101-102 | hours*3600 + minutes*60 + seconds gives back the second count, with hours < 24 and minutes, seconds < 60 |
| SystemInfoCommands.PartsLaws | src/commands/system_info_commands.py:104-114 | parts come in day, hour, minute, second order, each positive and carrying its own amount; day, hour and minute parts appear exactly when positive; a seconds part appears exactly when nothing else does and seconds remain; no parts only for a zero duration |
| SystemInfoCommands.RenderLaws | src/commands/system_info_commands.py:106-112 | a part's amount reads back from its start, and the unit gets a trailing "s" exactly when the amount is not 1 |
| SystemInfoCommands.FormatTimedelta | src/commands/system_info_commands.py:99-114 | the conditional appends and the join give the specified text, "less than a minute" when there are no parts |
| SystemInfoCommands.TimedeltaText | src/commands/system_info_commands.py:99-114 | what `format_timedelta` returns; `FormatTimedelta` proves the method computes it and `PartsLaws`, `RenderLaws` state its parts |
| SystemInfoCommands.TestFuzzyLaws | src/commands/system_info_commands.py:133-143 | the reply is the same for every input and contains every example line |
| SystemInfoCommands.TestFuzzyReply | src/commands/system_info_commands.py:133-143 | the reply of `TestFuzzyCommand.execute`; `TestFuzzyLaws` states it |
| Text.Lower | src/utils/fuzzy_matcher.py:49 | lower-casing keeps the length and leaves no upper-case letter |
| Text.FindFirst | src/commands/base.py:24-26 | the index of the first word, in list order, that occurs in the text, or none when none occurs |
| Text.ContainsAnyMeans | src/commands/base.py:19 | `any(w in s ...)` holds exactly when some word occurs |
| Text.ContainsInEmpty | src/commands/base.py:19 | only the empty string occurs in the empty string |
| Text.RemoveAllAbsent | src/commands/base.py:26 | `replace` changes nothing when the word is absent |
| Text.RemoveAllRepeat | src/commands/base.py:26 | `replace` deletes every copy of the word, not just the first |
| Text.RemoveAllNoUpper | src/commands/base.py:26 | deleting a word from lower-case text keeps it lower-case |
| Text.RemoveAll | src/commands/base.py:26 | `replace(w, "")`, never longer than its input; `RemoveAllAbsent`, `RemoveAllRepeat` and `RemoveAllNoUpper` state what it deletes |
| Text.StripSlice | src/commands/base.py:26-27 | `strip` keeps one contiguous slice, removes only whitespace around it, and leaves none at the ends |
| Text.StripFixed | src/commands/base.py:27 | a string without whitespace at its ends is its own `strip` |
| Text.Strip | src/commands/base.py:26-27 | `strip()`; `StripSlice` and `StripFixed` state what it keeps |
| Text.CollapseFixed | src/utils/fuzzy_matcher.py:51 | the `\s+` collapse leaves a single-spaced string unchanged |
| Text.CollapseSpaces | src/utils/fuzzy_matcher.py:51 | `re.sub(r'\s+', ' ', s)`; `CollapseFixed` states it fixes single-spaced text |
| Text.SplitJoin | src/utils/fuzzy_matcher.py:55-57 | splitting words joined by single spaces gives the words back |
| Text.Split | src/utils/fuzzy_matcher.py:55 | `split()`: every token is a non-empty run of non-whitespace; `SplitJoin` makes it the inverse of `Join` on words |
| Text.JoinWordsShape | src/utils/fuzzy_matcher.py:57 | words joined by spaces have only single spaces between words and none at the ends |
| Text.JoinContainsEach | src/commands/system_info_commands.py:143 | every joined item occurs in the joined string |
| Text.Join | src/utils/fuzzy_matcher.py:57 | `sep.join(ws)`; `JoinWordsShape`, `SplitJoin` and `JoinContainsEach` state its properties |
| Text.NatToStringValue | src/commands/help_commands.py:30 | the decimal digits of a number read back as that number |

## Left out

- Audio recording, transcription and the speech engines themselves (`src/audio/recorder.py`, `src/audio/transcriber.py`, the engine classes of `src/audio/tts.py`). They use devices, the network and subprocesses. The engine `TextToSpeech` selects is a constructor parameter, and what the engines report when speaking is the `engineSucceeds` parameter.
- Tts.TextToSpeech.Speak: the switch to an alternative engine after the selected one fails (`src/audio/tts.py:192-202`) is not modelled. The selected engine is kept, and `engineSucceeds` stands for the outcome of all attempts.
- The interactive loops in `main.py` and `src/main.py`. They only wire the components together around `input()`.
- `src/commands/time_commands.py`. It reads the clock and formats through the locale.
- `SystemInfoCommand` and the clock readings of `UptimeCommand`. They measure the machine with psutil and read the clock. Only `format_timedelta` is modelled, over the `timedelta`'s `days` and `seconds`.
- SystemInfoCommands.FormatTimedelta: requires 0 <= seconds < 86400, the range `timedelta.seconds` always has.
- SystemInfoCommands.StatsCommand.Execute: `get_stats()` is not defined on the `CommandProcessor` of `src/commands/base.py`, so the counters it would return are a parameter. No counters are added to the processor.
- SystemInfoCommands.StatsCommand.Execute: Python's `:.1f` float formatting is the parameter `format1`. Percentages are exact reals rather than floats.
- Float rounding in `similarity_ratio`: scores are exact reals.
- The default arguments of the fuzzy matcher are not recorded: `find_best_match`, `extract_keywords` and `SmartCommandMatcher(threshold)` default to 60.0, `partial_match` to 70.0 and `suggest_corrections`' `max_suggestions` to 3 (`src/utils/fuzzy_matcher.py:60`, `:77`, `:91`, `:123`, `:157`). No call inside the core relies on them; the matcher's threshold and the suggestion count are parameters of the model's members.
- Text.Lower: `str.lower()` is modelled for ASCII and Latin-1 upper-case letters only. Other scripts are left as they are.
- Text.IsSpace: `isspace()` and the regex `\s` are taken to be the same character set.
- `subprocess.run`, `platform.system()` and exception messages are parameters or `Outcome` values. Nothing is executed.
- `hasattr(command, 'keywords')` is modelled as `None` versus `Some(keywords)`. Commands are otherwise identified by their index.
- The `execute` methods the dispatcher calls are one parameter, `execute(index, cleanedText)`, so `ProcessText` reports which command ran rather than running its code.
