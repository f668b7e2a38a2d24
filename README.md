# obsidian-whisper, modelled in Dafny

obsidian-whisper batch-transcribes the audio recordings in an Obsidian vault. It comes as two scripts:

- `obsidian_whisper_basic.py` writes each raw transcript as a note.
- `obsidian_whisper_summary.py` also asks a chat model for a summary, a category folder and a title, and saves both notes.

Both scripts keep a completion log, `transcription_log.json`, so that a second run skips recordings already handled. This project models the scripts' own bookkeeping and proves what it does. The speech and chat engines, the audio decoder and the file system are abstracted away.

Modules:

- `Wrappers` (`wrappers.dfy`): the `Option` type used for calls that may raise.
- `Text` (`text.dfy`): the Python string operations the scripts use, with Python's semantics:
  - `split` and `join` on a separator;
  - `replace`;
  - `strip` over the characters `str.isspace` accepts;
  - `endswith`;
  - `str(int)`;
  - `os.path.splitext`.

  The substring test and search (`Contains`, `Find`) are helpers behind `split` and the contracts, not operations the scripts call.
- `Chunking` (`chunking.dfy`): `split_audio` as slice bounds over a recording's length in milliseconds. It also covers how the chunk texts are joined into `full_transcription`.
- `CompletionLog` (`completion_log.dfy`): the log file, which is missing, unreadable, or a stored list of names. It models `already_processed`, the append done by `update_log`, and a reference definition of which recordings a run handles.
- `Naming` (`naming.dfy`): the parsing half of `categorize_and_name`, and the search of `unique_filename`.
- `VaultModel` (`vault.dfy`): the vault state, which is the root listing, the log and the written notes. It defines three effects (create a folder, write a note, append to the log) with their pure meaning. The class `Vault` performs them in place and keeps a ghost history of every effect.
- `Pipeline` (`pipeline.dfy`): the engines, modelled as functions that may fail. It also picks candidate recordings and category folders, assembles a recording's transcript, and gives the names `os.path.exists` sees in the vault root.
- `BasicScript` and `SummaryScript` (`basic_script.dfy`, `summary_script.dfy`): what each script does for one recording not yet in the log.
- `Batch` (`batch.dfy`): the per-file loop of both `main` functions. A pure run `Run` over the candidates is the reference. The methods `RunBasic` and `RunSummary` are proved to leave exactly that run's vault and effect history.

Two behaviours of the summary script are modelled as written:

- `unique_filename` gets the vault root and the bare title. It looks for an entry named, say, `Waves`, not for `Transcripts/Waves.md` or `<category>/Waves.md`, the notes it then writes.
- The raw transcript is saved under the title the model suggests, not under the recording's base name.

Three edge cases of the code that the model keeps:

- A reply whose category is not an allowed folder only loses its category: the title is kept (`obsidian_whisper_summary.py:118`).
- When the log cannot be parsed, `update_log` writes nothing, because `json.load` raises inside the `try` (`obsidian_whisper_summary.py:74-84`). Such a log stays unreadable, and every later run processes every recording again.
- A recording of length 0 gives no chunk at all, since `range(0, 0, C)` is empty.

## Model

| member | source | states |
|---|---|---|
| `Chunking.SplitAudio` | obsidian_whisper_summary.py:31-35 | reference definition: the slice bounds of `split_audio`, the chunks from offset 0; its meaning is stated by the `SplitAudio*` lemmas |
| `Chunking.ChunksFrom` | obsidian_whisper_summary.py:34 | the first slice starts at the first offset and the last ends at the end of the audio; from the end on there are no slices |
| `Chunking.ChunksFromBounds` | obsidian_whisper_summary.py:34 | every slice starts at or after the first offset, is non-empty, is at most the chunk length long and ends inside the audio |
| `Chunking.SplitAudioCount` | obsidian_whisper_summary.py:31-35 | the number of chunks is `ceil(L / C)`, and there are none exactly when `L = 0` |
| `Chunking.SplitAudioAt` | obsidian_whisper_summary.py:34 | chunk `k` is `[k*C, min((k+1)*C, L))`, so the chunks start at `0, C, 2C, ...` |
| `Chunking.SplitAudioContiguous` | obsidian_whisper_basic.py:16-20 | each chunk ends where the next begins, and every chunk but the last is exactly `C` long |
| `Chunking.SplitAudioPartition` | obsidian_whisper_summary.py:31-35 | every millisecond of the recording lies in chunk `t / C` and in no other: no gaps, no overlaps |
| `Chunking.SplitAudioTotal` | obsidian_whisper_basic.py:19 | the chunk lengths add up to the recording's length |
| `Chunking.ShortRecordingIsOneChunk` | obsidian_whisper_basic.py:19 | a non-empty recording no longer than one chunk is a single chunk holding all of it |
| `Chunking.TwelveMinuteRecording` | obsidian_whisper_summary.py:14 | twelve minutes at five-minute chunks give chunks of 5, 5 and 2 minutes |
| `Chunking.ChunkTexts` | obsidian_whisper_summary.py:164-169 | reference definition: each chunk's transcription text in chunk order, "" for a failed one |
| `Chunking.TranscriptText` | obsidian_whisper_summary.py:37-44 | reference definition: `transcribe_audio` returns the engine's text, or "" when the engine raises |
| `Chunking.Assemble` | obsidian_whisper_summary.py:162-170 | reference definition: every text followed by one space, concatenated in order |
| `Chunking.AssembleConcat` | obsidian_whisper_summary.py:162-170 | the transcript of two runs of chunks is the two transcripts concatenated, so the text is built in chunk order |
| `Chunking.AssembleLength` | obsidian_whisper_summary.py:169 | the transcript holds every chunk's text plus exactly one space per chunk |
| `Chunking.FailedChunkLeavesSpace` | obsidian_whisper_summary.py:37-44 | a chunk whose transcription failed contributes "" and still its " ", and the other chunks' texts are unaffected |
| `Chunking.ThreeChunkTranscript` | obsidian_whisper_basic.py:89-97 | texts "a", "b", "c" give the transcript "a b c " |
| `Chunking.TranscribeChunks` | obsidian_whisper_basic.py:89-97 | the chunk loop leaves `full_transcription` equal to the in-order assembly of each chunk's text (or "") followed by one space |
| `CompletionLog.AlreadyProcessed` | obsidian_whisper_summary.py:86-95 | true exactly when the name is in the stored list; false for a missing or unreadable log |
| `CompletionLog.Appended` | obsidian_whisper_summary.py:74-84 | reference definition: the log after `update_log(f)`: a missing log becomes `[f]`, a stored one gets `f` at the end, an unreadable one stays |
| `CompletionLog.AppendedKeepsOrder` | obsidian_whisper_summary.py:74-84 | over a readable log, `update_log` adds exactly one entry at the end and keeps the earlier ones in order, with no duplicate check; a missing log becomes the one-name list |
| `CompletionLog.ProcessedAfterAppend` | obsidian_whisper_basic.py:40-62 | right after `update_log(f)`, `already_processed` is true for `f` and unchanged for every other name; over an unreadable log it stays false |
| `CompletionLog.AppendedAllExtends` | obsidian_whisper_basic.py:40-50 | appending several names extends a stored list by exactly those names; a missing log becomes those names; an unreadable log stays unreadable |
| `CompletionLog.Unprocessed` | obsidian_whisper_basic.py:83-84 | the recordings a run handles (each candidate the log, as updated so far, does not hold) are all candidates |
| `CompletionLog.NotLogged` | obsidian_whisper_basic.py:84 | a name is selected exactly when it is a candidate and the log did not hold it |
| `CompletionLog.UnprocessedAreNotLogged` | obsidian_whisper_basic.py:83-102 | over a listing without repeats, the recordings a run handles are exactly those not logged when it started, in listing order |
| `CompletionLog.UnreadableSelectsAll` | obsidian_whisper_basic.py:53-62 | over an unreadable log, every candidate is handled |
| `Text.Find` | obsidian_whisper_summary.py:114 | the result is an occurrence and the first one, and there is none exactly when the separator does not occur |
| `Text.Split` | obsidian_whisper_summary.py:114 | `split` gives at least one field and no field contains the separator |
| `Text.ReplaceAll` | obsidian_whisper_summary.py:71 | reference definition: Python's `str.replace` as split on the target, then join with the replacement |
| `Text.StripFences` | obsidian_whisper_summary.py:71 | reference definition of the summary cleaning: every "```markdown" replaced by "", then every "```" replaced by "" |
| `Text.JoinSplit` | obsidian_whisper_summary.py:114 | joining the fields of a split with the separator gives back the original text |
| `Text.SplitJoin` | obsidian_whisper_summary.py:114-117 | splitting fields joined by a separator that cannot overlap itself, none of them containing it, gives back exactly those fields |
| `Text.Strip` | obsidian_whisper_summary.py:113 | the result is a contiguous part of the input that has no whitespace at either end, and text without edge whitespace is returned as it is |
| `Text.StripFencesLeavesNoFence` | obsidian_whisper_summary.py:71 | after removing "```markdown" and then "```", no "```" is left, even where removals bring backticks together |
| `Text.StripFencesKeepsPlainText` | obsidian_whisper_summary.py:71 | a text without "```" passes the cleaning unchanged |
| `Text.NatToString` | obsidian_whisper_summary.py:131 | `str(counter)` is a non-empty string of decimal digits without leading zeros |
| `Text.NatToStringRoundTrip` | obsidian_whisper_summary.py:131 | reading the digits of `str(n)` gives back `n` |
| `Text.LongNumeral` | obsidian_whisper_summary.py:131 | a counter of at least `10^m` is written with more than `m` digits |
| `Text.SplitExt` | obsidian_whisper_summary.py:127 | root and extension concatenate to the name; the extension is empty or a dot followed by no dot or slash; a non-empty extension leaves a non-dot character in the root; there is an extension exactly when the last dot follows the last slash with a non-dot character between them, and it then starts at that dot; a name without a dot has no extension |
| `Naming.ProcessTranscription` | obsidian_whisper_summary.py:46-65 | the summary is `Strip` of the reply, so it has no edge whitespace, or "" when the request fails |
| `Naming.CategorizeAndName` | obsidian_whisper_summary.py:97-124 | the category is always an allowed folder or "Uncategorized"; a failed request gives ("Uncategorized", "Untitled") |
| `Naming.MalformedReplyFallsBack` | obsidian_whisper_summary.py:114-121 | a reply without ", " gives ("Uncategorized", "Untitled") |
| `Naming.ParseRoundTrip` | obsidian_whisper_summary.py:113-119 | a reply that strips to "Category, Title[, more...]" parses to that title and to that category if it is allowed, else "Uncategorized"; further fields are dropped |
| `Naming.FarCandidateIsFree` | obsidian_whisper_summary.py:130-132 | candidates from the bound `10^(longest existing name)` on are free, so the search ends over any finite set of names |
| `Naming.FirstFreeCounter` | obsidian_whisper_summary.py:128-132 | the counter found is the least one from the start whose candidate is free |
| `Naming.Candidate` | obsidian_whisper_summary.py:131 | reference definition: the name tried at step `counter` is `base + "_" + str(counter) + ext` |
| `Naming.UniqueName` | obsidian_whisper_summary.py:126-133 | the name returned exists nowhere; a free name is returned unchanged; a taken one becomes `base_k + ext` for the least free `k >= 1` |
| `Naming.FirstFreeIsUnique` | obsidian_whisper_summary.py:128-132 | there is only one least free counter |
| `Naming.UniqueFilename` | obsidian_whisper_summary.py:126-133 | the `while` loop terminates and returns a name not in the folder, namely `UniqueName` |
| `Naming.CollisionSuffixes` | obsidian_whisper_summary.py:126-133 | "X.md" next to "X.md" becomes "X_1.md", next to "X.md" and "X_1.md" becomes "X_2.md", and stays "X.md" where it is free |
| `VaultModel.Names` | obsidian_whisper_summary.py:145 | a name is listed exactly when some root entry carries it |
| `VaultModel.WithEntry` | obsidian_whisper_summary.py:181 | creating an entry adds its name to the root and changes nothing when the name is there already |
| `VaultModel.NoteBody` | obsidian_whisper_summary.py:71 | a summary is written without any code fence; raw content is written unchanged; text without fences is unchanged either way |
| `VaultModel.MarkdownFolder` | obsidian_whisper_summary.py:68 | reference definition: a summary goes into the folder itself, anything else into its "Transcripts" sub-folder (the only case of the basic script, obsidian_whisper_basic.py line 34) |
| `VaultModel.SaveEffects` | obsidian_whisper_summary.py:67-72 | reference definition of `save_to_markdown`: create the target folder, then write `<filename>.md` there with the cleaned or raw content (the raw case is the basic script's version, obsidian_whisper_basic.py lines 33-37) |
| `VaultModel.SaveToMarkdownWrites` | obsidian_whisper_summary.py:67-72 | `save_to_markdown` writes exactly one note, `<name>.md`, in `Transcripts/` below the folder (raw content, unchanged) or in the folder itself (the summary, fences removed); every other note and the log are unchanged and the root keeps all its names |
| `VaultModel.Apply` | obsidian_whisper_summary.py:67-84 | reference definition of each effect: `makedirs` adds a top-level folder, a write replaces one note whole, a log append is `Appended` |
| `VaultModel.Logged` | obsidian_whisper_summary.py:186 | reference definition: the recordings a run of effects appends to the log, in order |
| `VaultModel.LoggedConcat` | obsidian_whisper_summary.py:156-186 | the appends of two runs of effects are those of the first, then those of the second |
| `VaultModel.ReplayConcat` | obsidian_whisper_summary.py:180-186 | performing two runs of effects one after the other is performing them together |
| `VaultModel.Vault.MakeDirs` | obsidian_whisper_summary.py:180-181 | `os.makedirs(..., exist_ok=True)`: a new top-level folder joins the root listing, an existing one changes nothing |
| `VaultModel.Vault.WriteFile` | obsidian_whisper_summary.py:70-72 | the note's file is created or overwritten whole |
| `VaultModel.Vault.SaveToMarkdown` | obsidian_whisper_basic.py:33-37 | folder creation then note write, as the pure effects of `save_to_markdown` (the basic script's version is the raw case) |
| `VaultModel.Vault.UpdateLog` | obsidian_whisper_summary.py:74-84 | read-modify-write of the log: missing means empty, the name is appended and the list rewritten; an unreadable log is left as it is |
| `Pipeline.Candidates` | obsidian_whisper_summary.py:147 | exactly the root names ending in ".mp3" or ".webm" are candidates |
| `Pipeline.AllowedCategories` | obsidian_whisper_summary.py:145 | the allowed categories are exactly the names of the root's sub-folders |
| `Pipeline.Transcript` | obsidian_whisper_summary.py:160-170 | reference definition: the assembled transcript of a recording's five-minute chunks |
| `Pipeline.ExistingNames` | obsidian_whisper_summary.py:130 | `os.path.exists(join(vault, name))` holds for every root entry, for the log file whenever one exists (readable or not), and for "", which names the vault itself |
| `BasicScript.NoteName` | obsidian_whisper_basic.py:100 | reference definition: the note is named after the recording without its extension, `os.path.splitext(filename)[0]` |
| `BasicScript.RecordingEffects` | obsidian_whisper_basic.py:85-102 | reference definition: save the transcript as `Transcripts/<base name>.md`, then append the recording to the log |
| `BasicScript.RecordingNote` | obsidian_whisper_basic.py:100-102 | after one recording, `Transcripts/<splitext(R)[0]>.md` holds its transcript unchanged, no other note changes, and the log has `R` appended |
| `BasicScript.TwelveMinuteScenario` | obsidian_whisper_basic.py:88-102 | a 12-minute "talk.mp3" heard as "a", "b", "c" becomes `Transcripts/talk.md` holding "a b c ", and a readable log then holds "talk.mp3" |
| `BasicScript.ProcessRecording` | obsidian_whisper_basic.py:85-102 | the per-file body performs exactly the recording's effects (save, then log), or nothing when the audio cannot be decoded |
| `SummaryScript.PlanFor` | obsidian_whisper_summary.py:174-178 | the transcript is the recording's assembled transcript, the summary is the stripped reply of the summarising engine to it ("" when that fails), and the category is the one parsed from the categorising engine's reply to that summary; the category is allowed or "Uncategorized", the note name is the model's title made unique against the vault root and so free there, and the summary has no edge whitespace |
| `SummaryScript.SuggestedTitle` | obsidian_whisper_summary.py:174-177 | the title is the one `categorize_and_name` parses from the categorising engine's reply to the recording's summary |
| `SummaryScript.PlanEffects` | obsidian_whisper_summary.py:180-186 | reference definition: create the category folder, save the raw transcript, save the summary, then append to the log |
| `SummaryScript.RecordingEffects` | obsidian_whisper_summary.py:174-186 | reference definition: the effects of the recording's plan |
| `SummaryScript.PlanNotes` | obsidian_whisper_summary.py:180-186 | after one recording, exactly two notes are written, in order (`Transcripts/<name>.md` with the transcript, then `<category>/<name>.md` with the cleaned summary); the category folder exists and the log has the recording appended |
| `SummaryScript.PlanNoteContents` | obsidian_whisper_summary.py:183-184 | the summary note holds no code fence; the raw note holds the transcript, unless the category is "Transcripts" and the summary replaced it |
| `SummaryScript.RawNoteNamedByModel` | obsidian_whisper_summary.py:177-183 | the raw transcript is saved under the model's title made unique and holds the transcript (unless the category is "Transcripts"); `Transcripts/<recording base name>.md` is neither created nor changed unless the two names agree |
| `SummaryScript.PlanKeepsOtherRawNote` | obsidian_whisper_summary.py:180-183 | every raw note of another name is left as it was: neither created nor changed |
| `SummaryScript.FreeTitleIsKept` | obsidian_whisper_summary.py:177-178 | a suggested title that names nothing in the vault root becomes the note name unchanged |
| `SummaryScript.RootCheckOverwritesNote` | obsidian_whisper_summary.py:178 | a title that names nothing in the vault root is used as it is, even when `Transcripts/<title>.md` exists, and that note is overwritten |
| `SummaryScript.RootCheckRenamesNote` | obsidian_whisper_summary.py:178 | a title that names a root folder or file gets a suffix although no note of that name exists |
| `SummaryScript.PlanSteps` | obsidian_whisper_summary.py:180-186 | replaying a plan's effects is creating the category folder, then saving the raw note, then the summary note, then appending to the log |
| `SummaryScript.CarryOut` | obsidian_whisper_summary.py:180-186 | the writing half of the per-file body leaves exactly the vault and effect history of the plan's effects |
| `SummaryScript.ProcessRecording` | obsidian_whisper_summary.py:157-186 | the per-file body performs exactly the recording's six effects, or nothing when the audio cannot be decoded |
| `Batch.FileEffects` | obsidian_whisper_summary.py:157-186 | reference definition: the effects for one unlogged recording under either script, or `None` when its audio cannot be decoded |
| `Batch.Run` | obsidian_whisper_summary.py:156-186 | reference definition of the per-file loop: skip logged recordings, stop at the first that cannot be decoded, otherwise perform its effects |
| `Batch.BatchRun` | obsidian_whisper_summary.py:145-156 | reference definition of `main` after the vault is chosen: the run over the root's audio files, with the root's folders as categories for the summary script (the basic script's loop, obsidian_whisper_basic.py lines 74-84, passes none) |
| `Batch.RunReplays` | obsidian_whisper_summary.py:156-186 | the vault after a run is the one its effects produce, in order |
| `Batch.RunStopsAfterAbort` | obsidian_whisper_summary.py:161 | once a recording fails to decode, the run is over: later recordings change nothing |
| `Batch.RunStep` | obsidian_whisper_summary.py:156-157 | a logged recording or one after an error is skipped without effects; otherwise it is processed or ends the run |
| `Batch.IdleRun` | obsidian_whisper_summary.py:156-157 | when every candidate is logged, the run has no effects and leaves the vault and the log as they were |
| `Batch.RunLog` | obsidian_whisper_basic.py:83-102 | after a run without error, the log is the old log with exactly the handled recordings appended, in order |
| `Batch.RunAppendsUnlogged` | obsidian_whisper_basic.py:74-102 | over a readable log, the log after a run is the old list followed by exactly the candidates that were not logged, in listing order |
| `Batch.BasicLogsOne` | obsidian_whisper_basic.py:100-102 | the basic script's effects for a recording append exactly that recording to the log |
| `Batch.SummaryLogsOne` | obsidian_whisper_summary.py:180-186 | the summary script's effects for a recording append exactly that recording to the log |
| `Batch.RunHandles` | obsidian_whisper_summary.py:156-186 | a run without error appends to the log exactly the reference selection `Unprocessed`, in order, whatever the state of the log |
| `Batch.UnreadableLogReprocesses` | obsidian_whisper_basic.py:53-62 | with an unreadable log the run logs every candidate again, in listing order, and the log stays unreadable |
| `Batch.RunCommitsAfterNotes` | obsidian_whisper_summary.py:183-186 | in a run's effects every log append comes right after the recording's note (basic) or after both its notes, raw first (summary) |
| `Batch.ProcessNext` | obsidian_whisper_summary.py:157-186 | one pass of the loop leaves the vault and history of the run extended by one file |
| `Batch.RunBasic` | obsidian_whisper_basic.py:74-102 | the basic `main` leaves exactly the reference run's vault and effects, and reports an abort exactly when the run aborts |
| `Batch.RunSummary` | obsidian_whisper_summary.py:145-186 | the summary `main` leaves exactly the reference run's vault and effects, with categories taken from the listing at the start |

## Left out

- Audio decoding, down-mixing, resampling and the `export` of chunks to `temp_chunk_<i>.mp3` and their removal (pydub and the working directory): a recording is its length in milliseconds, and a decode that raises ends the run.
- The Whisper and OpenAI calls: each is a function of its inputs that may fail. `transcribe` sees the recording's name and the chunk's bounds in place of the exported file. The prompts, the model names and the sampling parameters are left out.
- Engine calls are not recorded as effects: the engines are pure here, so "a logged recording triggers no engine call" is stated as the step for it having no effects (`Batch.RunStep`, `Batch.IdleRun`).
- JSON encoding of the log and its pretty-printing: the log is a list of names. A log that parses but is not a list (such as an object) is not modelled.
- Errors raised by `open`, `write` or `makedirs` (for example a file in the way of a folder), which would end the run: writes always succeed.
- Path syntax: names are single path components. A title containing "/" or an absolute path, which `os.path.join` would route elsewhere, is not modelled.
- `os.path.exists` results beyond the root listing and "", "." and "..": other names that join to existing paths are not modelled.
- The choice of vault by `input()`, the vault listing, console output, and the module-level loading of `config.json` (its values are constants or parameters here).
- `setup.py` and `run.py`: an interactive configuration wizard and a process launcher are not part of this model.
- A consistent start state is not required: the vault may hold notes below folders missing from the root listing. Only the log file is tied to the listing, through `Pipeline.ExistingNames`.
- Concurrency between two runs on one vault: runs are sequential.
- `Pipeline.Candidates`: its contract states which names are candidates. That they keep the listing's order follows from its definition but is not stated.
- `CompletionLog.Unprocessed`: its own contract states only that the handled recordings are candidates. Its exact contents are stated by `CompletionLog.UnprocessedAreNotLogged` for listings without repeated names, which is what `os.listdir` produces.
