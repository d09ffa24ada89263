# streaming-sensevoice voice control, modelled in Dafny

This project models the control logic of a desktop voice-command application built on
streaming SenseVoice speech recognition:

- **The energy-based segmenter (`ImprovedVAD`).** It turns audio chunks into
  start-of-speech and end-of-speech events. An end event carries the buffered waveform.
- **The command processor (`CommandProcessor`).** It resolves recognised text to a command
  in a fixed cascade: containment, then synonyms, then prefix, then fuzzy similarity, then
  a truncation retry. It gates dispatch on repeat suppression and a 2-second cooldown. It
  runs special commands through their handlers and all other commands as keyboard
  shortcuts.
- **The application pipeline (`VoiceRecognitionApp`).** It connects the segmenter, a
  duplicate-result filter, the command processor and the chat fallback.
- **The shortcut table (`ShortcutConfig`).** This is an ordered list of entries plus a
  command-to-keys map, with load, get, set and remove.
- **The two keyboard back-ends (controller.py).** The pyautogui back-end has its own
  key-name normaliser. Both back-ends fail closed when unavailable or when the library
  raises.
- **The streaming chunk scheduler.** This is `get_size` plus the sliding feature window
  in main.py (file-driven) and realtime.py (microphone- and segmenter-driven). It decides
  which feature indices trigger a decode and which window rows are decoded.
- **The shortcut test harness (test_shortcuts.py).**
- **Two build-fixing text patchers.** fix_bv_dictionary.py and fix_audiolab_template.py
  are modelled as content-to-content functions.

State that the source updates in place is modelled by classes:

| class | fields it holds |
|---|---|
| `CommandProcessor` | the three `last_*` fields |
| `ImprovedVad` | its counters, buffer and histories |
| `ShortcutConfig` | its list and map |
| `ChunkWindow` | the window index and sizes; the rows each decode reads are computed from them (`WindowAfter`, `RowAt`) |
| `ShortcutTester` | the result list |
| `VoiceRecognitionApp` | the duplicate filter |

Each method is proved equal to a pure specification function of the old state. The
properties are then proved as lemmas about those functions.

The world outside the program becomes parameters:

| parameter | stands for |
|---|---|
| `sim` | `SequenceMatcher` similarity |
| `now` / `doneAt` | the clock before and after a command executes |
| `raises` | whether a keyboard-library call raises |
| `handler` | what a special command's handler returns |
| `saved` | the result of writing the YAML file |
| `recognize` | the final non-empty recognition result for a segment |
| `featureCounts` / `Item.count` | how many feature rows the feature extractor returns |

Decisions worth knowing when reading the model:

- **The code is followed, not the intent of suppressing repeats across utterances.**
  `process_audio_stream` resets the command state and the duplicate filter on every start
  of speech. It handles at most one final result per end of speech. In the composed
  pipeline, therefore, the repeat check, the cooldown and the duplicate check can never
  fire (`App.PipelineNeverSuppresses`). The model keeps the code's behaviour. It proves
  the gates correct in isolation (`Commands.ProcessTextSpec`, `App.DuplicateCheck`) and
  proves that they are dead in the pipeline.
- **"关闭" shadows several configured commands.** Special commands come first in the
  command dictionary, and pass 1 of `find_command` is substring containment. So any
  utterance containing "关闭" resolves to "退出" or "关闭", and both exit the application.
  A configured "关闭窗口" or "关闭标签" is unreachable by voice
  (`Commands.CloseSpokenResolvesToExit`).
- **The prefix and truncation passes of `find_command` never decide anything.** Whatever
  they could find, the containment pass finds first (`Commands.FindCommandCascade`).
- **Units.** Durations are compared in samples at 16 kHz (`16 * ms`). The step of main.py
  is `int(0.1 * sr)`, which is `sr / 10` for a natural sample rate.

## Model

| member | source | states |
|---|---|---|
| Text.Strip | voice_recognition_app.py:300 | `str.strip()`: the result is the span of the input after its leading whitespace, only whitespace follows it, and it neither starts nor ends with whitespace |
| Text.LeadingSpaces | voice_recognition_app.py:300 | the count of leading whitespace: every character before it is whitespace and the one at it is not |
| Text.StripLeft | voice_recognition_app.py:300 | the left half of `strip()`: a suffix of the input, only whitespace before it, not starting with whitespace |
| Text.StripRight | voice_recognition_app.py:300 | the right half of `strip()`: a prefix of the input, only whitespace after it, not ending with whitespace |
| Text.LowerIdempotent | voice_recognition_app.py:300 | lower-casing twice equals lower-casing once |
| Text.Find | fix_audiolab_template.py:79 | `str.find`: -1 exactly when the pattern is absent, otherwise the first index where it occurs |
| Text.Split | voice_recognition_app.py:206 | `str.split('+')`: at least one piece, and no piece contains the separator |
| Text.JoinSplit | voice_recognition_app.py:206 | joining the pieces of a split with the separator gives back the string |
| Text.SplitJoin | controller.py:92 | splitting a join of separator-free pieces gives back the pieces |
| Text.SplitPieces | voice_recognition_app.py:206-211 | the split has more than one piece exactly when the separator occurs |
| Text.ReplaceAll | fix_bv_dictionary.py:203-205 | `str.replace`, left to right without overlaps; `ReplaceBySelf`, `ReplaceAbsent` and `HooksPathIsReplaceAll` characterise it |
| Text.ReplaceBySelf | fix_bv_dictionary.py:203-205 | replacing a pattern by itself changes nothing |
| Text.ReplaceAbsent | fix_bv_dictionary.py:203-205 | replacing an absent pattern changes nothing |
| Controller.CanonicalKeysLowered | controller.py:124-153 | every non-alias key of `KEY_MAPPING` is already lower case |
| Controller.KeyMappingLookup | controller.py:124-153 | the mapping's keys are the canonical names plus the aliases; an alias maps to its target, and every other key maps to itself |
| Controller.AliasTargets | controller.py:131-146 | every alias target is lower case, is not itself an alias, and is a canonical key or 'command' |
| Controller.KeyMappingCanonical | controller.py:124-153 | every mapping value is lower case, and is either a key mapping to itself or not a key |
| Controller.NormalizeKey | controller.py:168-171 | `_normalize_key`: the result is lower case and is a fixed point of the mapping |
| Controller.NormalizeKeyIdempotent | controller.py:168-171 | normalising twice equals normalising once |
| Controller.NormalizeKeyCaseInsensitive | controller.py:168-171 | normalising the lower-cased key gives the same result |
| Controller.AliasNormalizes | controller.py:168-171 | a key whose lower-case form is an alias normalises to that alias's target |
| Controller.KeyAliases | controller.py:131-146 | 'control' and 'CONTROL' give 'ctrl'; 'cmd' gives 'command'; 'windows' gives 'win'; 'return' gives 'enter'; 'Esc' gives 'escape'; 'print screen' gives 'printscreen' |
| Controller.Guarded | controller.py:72-84 | the shared guard: unavailable means false with no backend call; otherwise exactly one call, and true exactly when it does not raise |
| Controller.SendKey | controller.py:173-185 | `send_key` on either back-end: fails closed without a call when unavailable; otherwise one call, and a raise yields false |
| Controller.SendHotkey | controller.py:86-99 | `send_hotkey` on either back-end: same guard, one call carrying all the keys |
| Controller.TypeText | controller.py:101-112 | `type_text` on either back-end: same guard, one call carrying the text and interval |
| Controller.PyAutoGuiHotkeyKeys | controller.py:193-197 | the pyautogui hotkey call carries every key normalised, in order and with the same count; normalising again changes nothing |
| Controller.KeyboardHotkeyKeys | controller.py:92 | the keyboard-library hotkey string, split on '+', gives back the keys when no key contains '+' |
| Commands.AllCommands | voice_recognition_app.py:97-104 | the command dictionary's keys start with the nine special commands, contain exactly the special and configured commands, and hold no duplicates |
| Commands.AppendNew | voice_recognition_app.py:99-104 | config commands are appended in order when not already present; the prefix is kept and distinctness is preserved |
| Commands.ContainedCommand | voice_recognition_app.py:305-308 | pass 1: None exactly when no command occurs in the text; otherwise the first command in dictionary order that occurs |
| Commands.ContainedSynonym | voice_recognition_app.py:310-313 | pass 2: None exactly when no synonym occurs; otherwise the target of the first synonym that occurs |
| Commands.PrefixCommand | voice_recognition_app.py:315-318 | pass 3 returns a command the text starts with, and never finds one when pass 1 found nothing |
| Commands.FuzzyMatch | voice_recognition_app.py:320-335 | passes 4-5: None exactly when no score exceeds 0.6; otherwise a candidate with the highest score, commands before synonyms, earliest on ties, yielding the command or the synonym's target |
| Commands.FuzzyBest | voice_recognition_app.py:320-335 | the winning index scores above 0.6, at least as high as every candidate, and strictly higher than every earlier one |
| Commands.TruncatedCommand | voice_recognition_app.py:337-343 | pass 6 returns a command inside the text minus its last character, and never finds one when pass 1 found nothing |
| Commands.FindCommand | voice_recognition_app.py:290-345 | `find_command`, pass by pass; what it returns is characterised by `FindCommandCascade`, `FindCommandRange` and `CloseSpokenResolvesToExit` |
| Commands.FindCommandRange | voice_recognition_app.py:290-345 | a found command is a key of the command dictionary or the target of a synonym |
| Commands.FindCommandCascade | voice_recognition_app.py:290-345 | `find_command` on the stripped, lower-cased text equals: the contained command, else the contained synonym's target, else the fuzzy winner |
| Commands.CloseSpokenResolvesToExit | voice_recognition_app.py:84-104 | any text containing "关闭" resolves to "退出" or "关闭" |
| Commands.ExecuteShortcut | voice_recognition_app.py:142-211 | `execute_shortcut`: missing or empty keys fail; several '+'-separated keys go as a hotkey whose keys re-join to the string; otherwise the string goes as one key; an unavailable keyboard fails with no call, and a raise fails |
| Commands.ExecuteCommand | voice_recognition_app.py:347-368 | `execute_command`: unknown names fail; a special command reports its handler (None is success, a raise is failure); any other known command is exactly `execute_shortcut` on its configured keys, so a command without keys fails |
| Commands.ProcessTextSpec | voice_recognition_app.py:370-412 | `process_text`: repeated exactly when the text resembles a non-empty last text above 0.8; a cooldown only for the same command within 2 s; a text that is not repeated gives no command when nothing truthy is found, a cooldown when the found command is in cooldown, and otherwise the dispatch of that command with `execute_command`'s result; the state changes only when execution succeeds, and then records the command, the finish time and the text |
| Commands.TextRepeated | voice_recognition_app.py:400-405 | the repeat test: a non-empty last text whose similarity to the text exceeds 0.8; `ProcessTextSpec` states its role |
| Commands.InCooldown | voice_recognition_app.py:407-412 | the cooldown test: the same command as last time within 2 s; `OtherCommandNotInCooldown` and `ProcessTextSpec` state its role |
| Commands.OtherCommandNotInCooldown | voice_recognition_app.py:407-412 | a command other than the last one is never in cooldown |
| Commands.FreshStateGatesOpen | voice_recognition_app.py:414-418 | after a reset nothing is a repeat and nothing is in cooldown |
| Commands.FreshProcessText | voice_recognition_app.py:370-418 | from the reset state `process_text` either finds no command or dispatches one |
| Commands.CommandProcessor.constructor | voice_recognition_app.py:56-140 | builds the command list from the special commands and the loaded table; the `last_*` fields start as None, 0 and "" |
| Commands.CommandProcessor.ResetCommandState | voice_recognition_app.py:414-418 | the three fields become None, 0 and "" |
| Commands.CommandProcessor.ProcessText | voice_recognition_app.py:370-398 | the outcome and new state are those of `ProcessTextSpec` on the old state; the result is true exactly for a successful dispatch |
| Vad.PushBounded | voice_recognition_app.py:474-484 | append and drop the oldest element beyond the bound: the length stays within the bound and the newest element is last |
| Vad.HysteresisDecision | voice_recognition_app.py:493-518 | a voiced raw flag is speech; an unvoiced one is speech exactly when the two previous flags were voiced |
| Vad.InitInv | voice_recognition_app.py:439-468 | a new segmenter satisfies the invariant: bounded histories, counters within the buffer, an idle state holding nothing |
| Vad.Step | voice_recognition_app.py:520-580 | `ImprovedVAD.__call__` as a function of the state and the frame; `StepInv`, `StepMode` and the lemmas beside them state what it does |
| Vad.StepInv | voice_recognition_app.py:520-580 | every call preserves that invariant, so the histories never exceed 20 and 10 entries |
| Vad.NoiseFloorFrozenInSpeech | voice_recognition_app.py:486-491 | the noise floor is not updated during speech |
| Vad.StartEvent | voice_recognition_app.py:529-541 | a start is emitted exactly on a voiced decision while not in speech, and begins a buffer holding just this chunk |
| Vad.EndEvent | voice_recognition_app.py:543-575 | an end is emitted exactly on an unvoiced decision in speech with a long-enough buffer and silence past the pad or the maximum; it carries the whole buffer and clears the buffer, counters and activity history |
| Vad.StepMode | voice_recognition_app.py:520-580 | without an event the mode is unchanged; a start enters speech and an end leaves it |
| Vad.QuietStepInSpeech | voice_recognition_app.py:543-578 | an eventless call during speech stays in speech and appends the chunk to the buffer |
| Vad.EndWhenPadReached | voice_recognition_app.py:551-565 | when min speech <= pad <= max silence, an end fires exactly when the silence reaches the pad, always for that reason: the max-silence branch is dead and the min-speech gate is implied |
| Vad.AppConfigOrdered | voice_recognition_app.py:707-713 | the application's 800/200/1500 ms settings are 12800/3200/24000 samples, ordered so that the lemma above applies |
| Vad.RunAlternates | voice_recognition_app.py:520-580 | over any frame sequence, starts and ends alternate, beginning with a start when idle, and the final mode follows the parity of the events |
| Vad.RunNeverMaxSilence | voice_recognition_app.py:563-565 | with pad <= max silence, no end over any run is for maximum silence |
| Vad.BufferWhileSpeaking | voice_recognition_app.py:543-578 | during speech without events, the buffer is the old buffer followed by every chunk |
| Vad.SegmentWaveform | voice_recognition_app.py:520-580 | an end's waveform is every chunk from the start through the end, trailing silence included |
| Vad.SilenceNeverStarts | voice_recognition_app.py:493-541 | unvoiced frames after unvoiced history never start speech |
| Vad.ImprovedVad.constructor | voice_recognition_app.py:439-468 | durations are converted to samples, and the state is idle with empty histories and a noise floor of 0.01 |
| Vad.ImprovedVad.SmoothEnergy | voice_recognition_app.py:474-484 | the energy history gets the new energy, bounded at 20; nothing else changes |
| Vad.ImprovedVad.UpdateNoiseFloor | voice_recognition_app.py:486-491 | the floor takes the estimate only when idle with more than 5 energies; nothing else changes |
| Vad.ImprovedVad.IsSpeechEnergy | voice_recognition_app.py:493-518 | the activity history gets the raw flag, bounded at 10; the result is the hysteresis decision |
| Vad.ImprovedVad.Call | voice_recognition_app.py:520-580 | the new state and the event are those of `Step` on the old state |
| App.DuplicateCheck | voice_recognition_app.py:811-824 | a duplicate exactly when the stripped text and the timestamps equal the stored pair; otherwise the new pair is stored |
| App.DuplicateCheckTwice | voice_recognition_app.py:811-824 | checking the same result twice in a row reports a duplicate the second time |
| App.OnResult | voice_recognition_app.py:826-847 | empty text changes nothing; a duplicate changes nothing; for non-empty text the outcome is a duplicate exactly when the filter says so, and handled exactly when it is not; a handled text stores the pair, is tried as a command exactly when commands are enabled, with `ProcessTextSpec`'s outcome and new state, and goes to chat unless the command succeeded |
| App.AppStep | voice_recognition_app.py:770-798 | a result is handled only on the chunk where speech ends; the segmenter advances as `Step` says |
| App.AppStepCases | voice_recognition_app.py:770-798 | without an event, or on an end with no samples or no result, only the segmenter changes; a start resets the filter, and the command state when commands are enabled; an end with a result hands it to `OnResult` and takes its outcome and states |
| App.AppRun | voice_recognition_app.py:765-798 | `process_audio_stream` over finitely many chunks; `AppRunSnoc` and `PipelineNeverSuppresses` state what it does |
| App.AppRunSnoc | voice_recognition_app.py:765-798 | running one chunk more extends the outcomes by that chunk's outcome |
| App.FreshResultUnsuppressed | voice_recognition_app.py:772-779 | a result handled against a reset filter and command state is neither a duplicate, a repeat nor a cooldown |
| App.AppStepFresh | voice_recognition_app.py:770-798 | each chunk keeps "during speech, filter and command state are as reset", and an outcome it produces is unsuppressed |
| App.PipelineNeverSuppresses | voice_recognition_app.py:747-809 | over any chunk sequence from a fresh state, no outcome is a duplicate, a repeat or a cooldown |
| App.VoiceRecognitionApp.constructor | voice_recognition_app.py:698-720 | the segmenter is built with the 800/200/1500 ms settings, the processor is well formed, and everything starts fresh |
| App.VoiceRecognitionApp.IsDuplicateResult | voice_recognition_app.py:811-824 | the answer and the new filter state are those of `DuplicateCheck` |
| App.VoiceRecognitionApp.OnRecognitionResult | voice_recognition_app.py:826-847 | the outcome and the new filter and command state are those of `OnResult` |
| App.VoiceRecognitionApp.HandleChunk | voice_recognition_app.py:770-798 | the new state and the outcome are those of `AppStep` |
| App.VoiceRecognitionApp.ProcessAudioStream | voice_recognition_app.py:747-809 | the state and outcomes are those of `AppRun`, and no outcome is suppressed |
| Streaming.GetSize | main.py:24-28 | 0 exactly when `cur_idx + 1 <= padding`, otherwise between 1 and `chunk_size` |
| Streaming.GetSizeResidue | main.py:28 | past the padding, the size is congruent to `cur_idx + 1 - padding` modulo the chunk size, and equals the chunk size exactly on multiples |
| Streaming.GetSizePeriodic | main.py:28 | past the padding, the size repeats with period `chunk_size` |
| Streaming.FullChunkIndices | main.py:52-55 | the size is a full chunk exactly at `padding - 1 + k * chunk_size` for k >= 1 |
| Streaming.WindowShift | main.py:50-51 | each feature shifts the window left by one and becomes its last row |
| Streaming.FreshWindow | main.py:42 | a new window is `chunk_size + 2 * padding` zero rows |
| Streaming.SliceBounds | main.py:56-60 | the decoded slice lies inside the window |
| Streaming.DecodedRows | main.py:52-60 | a triggered decode holds `chunk_size` rows, or `padding + cur_size` when last, and they are exactly the features just before and through the current one |
| Streaming.ChunkDecodesTile | main.py:52-60 | the k-th non-final decode holds exactly features `k * chunk_size` through `k * chunk_size + chunk_size - 1` |
| Streaming.RangeDecodesFullChunks | realtime.py:67-74 | in a non-final batch every decode is a full chunk of `chunk_size` rows |
| Streaming.LastBatchDecodesEveryFeature | realtime.py:67-74 | in a final batch every feature triggers a decode, and each decode ends with that feature |
| Streaming.ChunkWindow.constructor | main.py:38-42 | a new window has index -1 and the given sizes |
| Streaming.ChunkWindow.Push | main.py:50-60 | one feature advances the index and yields the decode the schedule calls for |
| Streaming.ChunkWindow.Feed | main.py:50-60 | a batch of features yields the schedule's decodes for those indices |
| Streaming.DecodeAt | main.py:52-60 | the decode one feature triggers; `DecodedRows` and `ChunkDecodesTile` state which rows it reads |
| Streaming.Decodes | main.py:43-62 | the decodes of a run of batches through one fresh window; `DecodesSingle` and `DecodesSnoc` characterise it |
| Streaming.DecodesSnoc | main.py:43-62 | one more batch appends its decodes, starting at the features already seen |
| MainLoop.StartsShape | main.py:43-45 | the steps start at 0, advance by the step, lie before the end, and the step reaching the end is the final one and no other |
| MainLoop.FileBatchesLast | main.py:45 | `is_last` holds exactly for the file's final step |
| MainLoop.FileStep | main.py:43-62 | one iteration feeds the step's features and keeps the loop's progress |
| MainLoop.RunFile | main.py:38-62 | the loop's decodes are exactly those of the file's batches through one window |
| Realtime.ItemStep | realtime.py:47-77 | one item of the microphone loop; `StartResets` and `StepSegmentDecodes` state what it does |
| Realtime.RunItems | realtime.py:45-77 | the loop over a finite run of items; `RunItemsFails` and `SegmentDecodes` characterise it |
| Realtime.RunItemsFails | realtime.py:45-57 | the loop fails with an undefined window exactly when the first item does not start a segment |
| Realtime.StartResets | realtime.py:49-55 | a start discards the previous segment, and its decodes are those of a fresh window |
| Realtime.SegmentDecodes | realtime.py:45-77 | everything decoded since the last start is the segment's batches through a fresh window |
| Realtime.DecodeRangeMarks | realtime.py:56 | a decode is marked last exactly when its item holds "end" |
| Realtime.HandleItem | realtime.py:47-77 | one item: a start builds a fresh window, then the item's features are fed through it |
| Realtime.RunStream | realtime.py:45-77 | the loop's decodes are those of `RunItems`, and it fails exactly when `RunItems` does |
| Shortcuts.BuildMap | shortcut_config.py:39-43 | the map comprehension; `BuildMapKeys`, `BuildMapLastWins` and `BuildMapUnique` characterise it |
| Shortcuts.BuildMapKeys | shortcut_config.py:39-43 | the rebuilt map's keys are exactly the listed commands |
| Shortcuts.BuildMapLastWins | shortcut_config.py:39-43 | a command maps to the keys of its last entry |
| Shortcuts.BuildMapUnique | shortcut_config.py:39-43 | with unique commands, each command maps to its entry's keys |
| Shortcuts.FirstIndex | shortcut_config.py:94-97 | the first entry with the command, or None exactly when it is absent |
| Shortcuts.SetEntries | shortcut_config.py:81-110 | `set_shortcut`'s list update; `SetEntriesShape` characterises it |
| Shortcuts.RemoveEntry | shortcut_config.py:112-127 | `remove_shortcut`'s list update; `RemoveKeepsConsistent` and `RemoveExistingConsistent` characterise it |
| Shortcuts.SetEntriesShape | shortcut_config.py:81-110 | setting an existing command updates that first entry's keys in place, and its description only when a non-empty one is given; nothing else changes; a new command is appended at the end |
| Shortcuts.SetKeepsConsistent | shortcut_config.py:81-110 | set keeps commands unique and the map equal to the rebuilt list, updated at the command |
| Shortcuts.RemoveKeepsConsistent | shortcut_config.py:112-127 | remove keeps commands unique and the map equal to the rebuilt list, minus the command |
| Shortcuts.ShortcutConfig.constructor | shortcut_config.py:8-18 | loads the table when the file has it; with an entry lacking `command` or `keys` it keeps that list with an empty map; otherwise starts empty |
| Shortcuts.ShortcutConfig.LoadConfig | shortcut_config.py:20-50 | succeeds exactly when the file has a well-formed table, and then replaces the list and rebuilds the map; an entry lacking `command` or `keys` fails after the list was replaced, leaving the old map; a missing or malformed file changes nothing |
| Shortcuts.ShortcutConfig.GetShortcut | shortcut_config.py:69-79 | the mapped keys, or None when the command is absent |
| Shortcuts.ShortcutConfig.SetShortcut | shortcut_config.py:81-110 | the list changes as `SetEntries` says, the map gains the keys, the result is what saving returns, and consistency is kept |
| Shortcuts.ShortcutConfig.RemoveShortcut | shortcut_config.py:112-127 | drops the first entry with the command and its map key, then returns what saving returns; an absent command returns false with nothing changed; consistency is kept |
| Shortcuts.GetShortcutOfConsistent | shortcut_config.py:69-79 | on a consistent table, get returns None exactly for unlisted commands, otherwise the keys of the command's entry |
| ShortcutTest.DangerousAndAudioDisjoint | test_shortcuts.py:40-59 | no command is both dangerous and audio |
| ShortcutTest.SendHotkey | test_shortcuts.py:61-93 | unavailable means false with no call; otherwise the whole keys string goes in one call, and a raise yields false |
| ShortcutTest.TestCommand | test_shortcuts.py:95-147 | a dangerous command with skipping on is skipped, fails and sends nothing; otherwise it is not skipped and succeeds exactly when the send does |
| ShortcutTest.AllResultsShape | test_shortcuts.py:149-192 | one coherent result per entry, in order; skipped exactly when not eligible; audio commands are skipped unless audio testing is on |
| ShortcutTest.AllCallsAreEligibleSends | test_shortcuts.py:149-192 | the calls made are the eligible entries' keys in order, or none when the keyboard is unavailable |
| ShortcutTest.SelectedMissing | test_shortcuts.py:194-232 | one coherent result per requested command; a command missing from the table (or with empty keys) is recorded as skipped with keys '' |
| ShortcutTest.SummaryPartition | test_shortcuts.py:234-243 | successful + failed + skipped equals the total |
| ShortcutTest.ShortcutTester.constructor | test_shortcuts.py:37-51 | the tester starts with no results |
| ShortcutTest.ShortcutTester.TestAllCommands | test_shortcuts.py:149-192 | the stored and returned results and the calls are those of `AllResults` and `AllCalls` on the table |
| ShortcutTest.ShortcutTester.TestSelectedCommands | test_shortcuts.py:194-232 | the stored and returned results and the calls are those of `SelectedResults` and `SelectedCalls` |
| BvFix.InitBlockHasMarker | fix_bv_dictionary.py:126-129 | the appended block contains the marker import |
| BvFix.UpdateBvInit | fix_bv_dictionary.py:109-142 | returns true; writes the content with the block appended exactly when the marker is absent, treating a missing file as empty |
| BvFix.InitContent | fix_bv_dictionary.py:126-131 | the `__init__.py` transform; `InitContentKeepsAndAdds` and `InitContentIdempotent` characterise it |
| BvFix.InitContentKeepsAndAdds | fix_bv_dictionary.py:126-131 | the old content is a prefix of the new, which contains the marker |
| BvFix.InitContentIdempotent | fix_bv_dictionary.py:126-131 | applying the transform twice equals applying it once, and a second run writes nothing |
| BvFix.HooksPathIsReplaceAll | fix_bv_dictionary.py:203-205 | the hooks step replaces every `hookspath=[]` with `hookspath=['hooks']` |
| BvFix.InsertionPoint | fix_bv_dictionary.py:218-224 | the insertion point is just after an occurrence of `hiddenimports = [` |
| BvFix.InsertAfterFirst | fix_bv_dictionary.py:221-224 | inserting after the first occurrence leaves that occurrence first and the text around the insertion intact |
| BvFix.InsertImports | fix_bv_dictionary.py:208-227 | the hidden-import insertion; `InsertImportsShape`, `InsertImportsAllPresent`, `InsertImportsPresent` and `InsertImportsWithoutPattern` characterise it |
| BvFix.InsertImportsShape | fix_bv_dictionary.py:218-227 | the inserted names sit right after the pattern, in reverse list order, with the rest of the content unchanged |
| BvFix.InsertImportsAllPresent | fix_bv_dictionary.py:208-227 | when the pattern exists, all quoted names occur afterwards |
| BvFix.InsertImportsPresent | fix_bv_dictionary.py:218-219 | when every name is already present, nothing changes |
| BvFix.InsertImportsWithoutPattern | fix_bv_dictionary.py:220-221 | without the pattern, nothing is inserted |
| BvFix.InsertBvImportsIdempotent | fix_bv_dictionary.py:208-227 | inserting the seven imports twice equals inserting them once |
| BvFix.UpdateSpec | fix_bv_dictionary.py:191-234 | a missing spec returns false and writes nothing; otherwise it always writes and returns true |
| BvFix.InsertBvImports | fix_bv_dictionary.py:218-227 | the loop computes the insertion of the seven imports |
| BvFix.UpdatePyinstallerSpec | fix_bv_dictionary.py:191-234 | the result and the write are those of `UpdateSpec` |
| AudiolabFix.BlockHasSentinel | fix_audiolab_template.py:84-86 | the inserted block contains `collect_data_files('audiolab')` |
| AudiolabFix.FixSpec | fix_audiolab_template.py:64-101 | a missing spec returns false; otherwise the result is true, and nothing is written when the sentinel is present or the marker absent |
| AudiolabFix.FixSpecInsertsAtMarker | fix_audiolab_template.py:79-91 | the block goes in at the marker's first index, the text on both sides is kept, and the marker follows the block |
| AudiolabFix.FixSpecIdempotent | fix_audiolab_template.py:77-91 | after a write, a second run finds the sentinel, returns true and writes nothing |
| AudiolabFix.RunFixes | fix_audiolab_template.py:103-126 | `main`: a failed template step returns false and skips the spec step; otherwise the result is the spec step's |

## Left out

- Floating-point energy maths of `ImprovedVAD`. This covers the RMS, the moving average,
  the 30th-percentile noise floor and the dynamic threshold. Each frame carries its raw
  voiced flag and the floor estimate as inputs, and energies are opaque values kept only
  in the bounded history.
- `ImprovedVAD`'s `threshold` and `energy_smooth_window` constructor parameters. They feed
  only the left-out energy maths.
- `SequenceMatcher` similarity, `time.time()` and `time.sleep`. They become the `sim`,
  `now`/`doneAt` parameters, or are dropped.
- Printing, threads, the audio capture stream, device selection, `start_recognition`,
  `stop_recognition` and `run`. These are I/O and concurrency.
- The special-command handlers (`exit_app`, `stop_recognition`, `test_copy_function`,
  `open_browser`, `open_notepad`, `open_calculator`) and `send_to_chat`. These are OS,
  clipboard and network effects. A handler is the `handler` parameter, and chat delivery
  is the `toChat` flag of an outcome.
- Lower-casing of non-ASCII characters. Only A-Z are mapped. The command names are Chinese
  and unaffected.
- Speech recognition, `OnlineFbank`, the CTC decoder, `model.reset` and the tensor
  contents. Only the index arithmetic and which rows are decoded are kept. Recognition is
  the `recognize` parameter, and the feature extractor's output is reduced to a row count.
- App.VoiceRecognitionApp.constructor: it builds the segmenter directly. In the source,
  `initialize_models` builds it. The processor is always built, and `enableCommands`
  decides whether it is used.
- The 0.1 s pause after an end of speech, and the start-time and log fields of `ImprovedVAD`.
- MainLoop.RunFile requires a sample rate of at least 10. Below that the step is 0 and
  Python's `range` raises. The feature counts per step are an input.
- Realtime.RunStream: the endless microphone loop is a finite sequence of segmenter items.
  The `NameError` for an item before any start becomes `None`.
- `save_config` and YAML parsing. Saving is the `saved` flag, and loading is a `LoadSource`
  value: a missing file, a document without `shortcuts`, the entry list, or the failure of
  a list that has an entry lacking `command` or `keys` (`BadEntries`).
- Shortcuts.ShortcutConfig.LoadConfig: a `shortcuts` value that is not a list of
  entries (a string, a number, a list of non-mappings) cannot be represented. The source
  stores it and then fails in the comprehension, or later on use.
- Shortcuts.ShortcutConfig.LoadConfig: the list `BadEntries` stores is modelled with every
  entry complete, since an `Entry` always has a command and keys. The model captures that
  the load fails, that the list is replaced and that the map is left as it was. The
  incomplete entry itself is lost, so the later `KeyError`s it causes are not modelled: in
  the loops of `set_shortcut` and `remove_shortcut` and in `CommandProcessor.__init__` for
  an entry without a command, and in `test_all_commands` for an entry missing either field.
  There `SetShortcut`, `RemoveShortcut`, `CommandProcessor`'s constructor and
  `TestAllCommands` run normally.
- `print_shortcuts`, `print_test_summary`, `export_results` and the menu and `main` of
  test_shortcuts.py. These are printing and interactive I/O.
- ShortcutTest.ShortcutTester.constructor is given the table rather than reading it.
  `safe_commands` is never consulted by the source. The `error` field of result records is
  not kept.
- BvFix.UpdateBvInit does not model the missing-package case (`find_bv_location` returning
  None) or an exception while writing. Both return false in the source.
- The exceptions `update_pyinstaller_spec` and `fix_pyinstaller_spec` could raise while
  reading or writing.
- The file-creating steps of fix_bv_dictionary.py (`check_current_dependencies`,
  `find_bv_location`, `create_missing_dictionary_module`,
  `create_pyinstaller_hook_for_bv`, `alternative_solution`, `create_mock_bv_dictionary`,
  `main`) and `create_filter_template` in fix_audiolab_template.py. They write constant
  content. Template creation is the `templateCreated` parameter of `AudiolabFix.RunFixes`.
- The keyboard library's availability. It is a flag fixed at construction.
- BvFix.UpdateSpec: idempotence of the whole spec rewrite is not proved; only the import insertion's is (`InsertBvImportsIdempotent`).
- quantized_sensevoice, bv_dictionary_fix.py, the PyInstaller hooks and the model tests
  are not part of this model.
