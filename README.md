# Silence-terminated capture and transcription, modelled in Dafny

This project models the core of a small speech-to-text tool: two capture
loops that record audio from a microphone until the speaker falls silent,
and the strings one transcription session leaves on disk.

- **Count-based capture** (`record_until_silence`, `SilenceCapture`): blocks
  arrive one at a time; each is appended to the recording; a counter of
  consecutive quiet blocks (volume below the threshold) increments on a
  quiet block and resets on any other; the loop breaks on the first block at
  which the counter reaches `max_silence_blocks`. The recording is the
  concatenation of every block consumed, the breaking one included.
- **Session naming and logging** (`transcribe_and_log`, `SessionLog`): the
  session is named `<source>_<timestamp>` from a `%Y%m%d_%H%M%S` clock
  reading; the engine's text is stripped of surrounding whitespace (Python's
  `str.strip`); the transcript file `<name>.txt` holds the text and a newline;
  the master transcript gets `\n[<timestamp>] [<source>] <text>\n`; the audio
  is archived as `<name><ext>`.
- **Time-based live transcription** (`run_transcription`, `LiveTranscription`):
  a silence timer starts on a quiet block when none is running, is kept
  while the quiet run lasts and is cleared by a loud block; the loop breaks
  on a quiet block read strictly more than `silence_duration` after the
  timer started, before that block reaches the recognizer. Non-empty
  committed recognizer texts are kept in arrival order, partial hypotheses
  never; after the loop a non-empty final text is kept last, and the
  transcript is the kept texts joined by newlines. The module globals
  `silence_start_time` and `results` are the fields of the class
  `Transcriber`. An exception in the loop ends the process with nothing
  written.

The audio queue, the energy metric, the clock and the speech engines are
inputs: a block carries an integer energy, a live-transcription tick carries
its volume, the clock reading and the recognizer's answer, and the engine's
text, the timestamp and the file extension are parameters. Because the
source's queue never runs dry, a finite input that ends before silence is
detected means "still recording": the capture returns `stopped == false`,
the live loop returns `Listening`, and nothing is written.

The time-based rule follows the code: the loop stops when the elapsed
silence is strictly greater than the duration (`>` at test2.py:63), not
greater-or-equal.

## Model

| member | source | states |
|---|---|---|
| `SilenceCapture.SilentCount` | speech_to_text.py:41-52 | definition: the `silent_blocks` counter after a sequence of blocks, starting at 0, adding one on a block whose energy is below the threshold and resetting to 0 on any other |
| `SilenceCapture.Concatenate` | speech_to_text.py:57 | definition: the recording, every chunk's samples one after the other in chunk order (`np.concatenate`) |
| `SilenceCapture.RecordUntilSilence` | speech_to_text.py:38-61 | the chunks are the stream's first blocks in arrival order; if the loop stopped, it stopped on the first block at which the counter reached the limit and that block is included; otherwise every block was consumed and the counter never reached the limit; the audio is the concatenation of the chunks |
| `SilenceCapture.SilentCountIsTrailingRun` | speech_to_text.py:41-52 | the counter, starting at 0, equals the length of the run of quiet blocks at the end of what was consumed: those blocks are quiet and the block before them is not |
| `SilenceCapture.SilentCountStep` | speech_to_text.py:49-52 | a block below the threshold increments the counter by exactly one; a block at or above it resets the counter to 0 |
| `SilenceCapture.CountReachesLimit` | speech_to_text.py:54-55 | the counter is at least the limit exactly when the last `limit` blocks consumed are all quiet |
| `SilenceCapture.StopsAtIff` | speech_to_text.py:49-55 | the loop stops on block `n` if and only if the `limit` blocks ending there are quiet and no earlier position ends such a run: it stops after exactly `limit` consecutive quiet blocks, never earlier |
| `SilenceCapture.QuietFromStartStopsAtLimit` | speech_to_text.py:41-55 | a stream quiet from its first block stops after exactly `limit` blocks, with no special case for "no speech yet" |
| `SilenceCapture.SpeechThenSilenceStops` | speech_to_text.py:44-55 | after any number of loud blocks, a run of `limit` quiet blocks stops the loop on its last block |
| `SilenceCapture.FiveVoicedThenFourteenSilent` | speech_to_text.py:30-31 | with the configured threshold 100 and 14 blocks, five voiced blocks followed by fourteen silent ones stop the recording on block 19 |
| `SilenceCapture.LoudStreamNeverStops` | speech_to_text.py:49-55 | if no block is below the threshold the counter stays 0 and the loop never stops |
| `SilenceCapture.ConcatenateAppend` | speech_to_text.py:57 | concatenating two lists of chunks one after the other gives the two recordings one after the other |
| `SilenceCapture.ConcatenateAt` | speech_to_text.py:45-57 | every sample of every chunk appears in the recording, at the offset given by the chunks before it: nothing lost, nothing reordered |
| `SessionLog.BaseName` | speech_to_text.py:75 | definition: the session name is the source, an underscore, then the timestamp |
| `SessionLog.TranscriptFileName` | speech_to_text.py:83 | definition: the transcript file is the session name followed by `.txt` |
| `SessionLog.SessionFileBody` | speech_to_text.py:84 | definition: the transcript file holds the text followed by one newline |
| `SessionLog.MasterLogLine` | speech_to_text.py:87 | definition: the master-transcript append is a newline, `[timestamp]`, a space, `[source]`, a space, the text and a newline |
| `SessionLog.ArchivedAudioName` | speech_to_text.py:90-91 | definition: the archived audio is the session name followed by the original file's extension |
| `SessionLog.TranscribeAndLog` | speech_to_text.py:73-92 | definition: one session's transcript name, transcript body, master-log append and archive name, all built from the same session name and from the engine's text stripped once |
| `SessionLog.StripStart` | speech_to_text.py:79 | the index of the first non-whitespace character: everything before it is whitespace |
| `SessionLog.StripEnd` | speech_to_text.py:79 | the index past the last non-whitespace character: everything after it is whitespace |
| `SessionLog.Strip` | speech_to_text.py:79 | the stripped text neither starts nor ends with whitespace |
| `SessionLog.StripIsMiddle` | speech_to_text.py:79 | for any split of the text into whitespace, a middle without whitespace at either end, and whitespace, the stripped text is that middle |
| `SessionLog.StripIdempotent` | speech_to_text.py:79 | stripping twice gives the same as stripping once |
| `SessionLog.Digits` | speech_to_text.py:74 | a zero-padded field has exactly the requested width and only digits |
| `SessionLog.DigitsRoundTrip` | speech_to_text.py:74 | a zero-padded field reads back as the number written |
| `SessionLog.Timestamp` | speech_to_text.py:74 | the timestamp is 15 characters: eight digits, an underscore, six digits |
| `SessionLog.TimestampRoundTrip` | speech_to_text.py:74 | the timestamp reads back as the clock reading it was made from, to the second |
| `SessionLog.BaseNameInjective` | speech_to_text.py:75 | with timestamps of one length, `source_timestamp` determines both the source and the timestamp |
| `SessionLog.MasterLogLineRoundTrip` | speech_to_text.py:86-87 | a master-transcript entry `\n[timestamp] [source] text\n` reads back as its timestamp, source and text whenever timestamp and source hold no `]` |
| `SessionLog.TranscribeAndLogRecord` | speech_to_text.py:73-92 | one session writes `<source>_<timestamp>.txt` holding the stripped text and a newline, archives the audio as `<source>_<timestamp><ext>`, and appends a master entry that reads back as that timestamp, source and stripped text |
| `LiveTranscription.NextSilenceStart` | test2.py:60-67 | definition: a loud block clears the timer, a quiet block starts it at the block's clock reading when none is running and otherwise leaves it as it is |
| `LiveTranscription.SilenceStartAfter` | test2.py:60-67 | definition: the timer after a sequence of blocks that all passed the silence check, one `NextSilenceStart` step per block from the initial timer |
| `LiveTranscription.BreaksOn` | test2.py:60-65 | definition: block `i` stops the loop when it is quiet, a timer is running after the blocks before it, and its clock reading exceeds the timer by strictly more than the duration |
| `LiveTranscription.Kept` | test2.py:69-79 | definition: a committed non-empty text adds itself to the results; an empty committed text, a partial hypothesis or an exception adds nothing |
| `LiveTranscription.CommittedTexts` | test2.py:69-79 | definition: the results gained from a sequence of blocks, each block's `Kept` texts in arrival order |
| `LiveTranscription.JoinLines` | test2.py:93 | definition: `'\n'.join`, the texts with one newline between neighbours, empty for no texts |
| `LiveTranscription.PrefixStep` | test2.py:60-79 | reading one more block advances the timer by one `NextSilenceStart` step and appends that block's kept texts |
| `LiveTranscription.SilenceOfExactlyTheDurationDoesNotStop` | test2.py:13-14 | with the configured threshold 500 and 1.5 s, quiet blocks 0.5 s apart do not stop the loop on the block read exactly 1.5 s into the silence, and do stop it on the next |
| `LiveTranscription.SilenceStartIsRunStart` | test2.py:60-67 | the timer holds the clock reading of the first block of the trailing quiet run, is cleared by a loud block, and a run reaching back to the start keeps a timer already running |
| `LiveTranscription.BreaksOnIff` | test2.py:60-65 | from no timer, block `i` stops the loop if and only if it is quiet, it is not the block that starts the silence, and it is read strictly more than the duration after the first quiet block of the run |
| `LiveTranscription.CommittedTextsAppend` | test2.py:69-79 | the kept texts of two stretches of blocks are those of the first followed by those of the second: arrival order is preserved |
| `LiveTranscription.CommittedTextsSound` | test2.py:69-79 | every kept text is non-empty and was committed by some block; partial hypotheses are never kept |
| `LiveTranscription.CommittedTextsComplete` | test2.py:69-74 | every non-empty committed text is kept |
| `LiveTranscription.SplitJoinLines` | test2.py:92-93 | the saved transcript splits on newlines back into the kept texts when none of them holds a newline |
| `LiveTranscription.JoinLinesEnd` | test2.py:93 | the saved transcript ends with the last kept text, with no trailing newline after it |
| `LiveTranscription.Transcriber.constructor` | test2.py:21-22 | a run starts with no silence timer and no results |
| `LiveTranscription.Transcriber.CheckSilence` | test2.py:60-67 | the silence check stops exactly on a quiet block with a timer running for strictly longer than the duration, leaving the timer as it was; otherwise it clears, starts or keeps the timer |
| `LiveTranscription.Transcriber.Recognize` | test2.py:69-79 | a block's non-empty committed text is appended to the results, a partial or empty text adds nothing, and an exception is reported |
| `LiveTranscription.Transcriber.Listen` | test2.py:53-79 | the loop ends on the first block that breaks it on silence or raises, or when input runs out; no earlier block did either; the timer has seen every block read; the results gained the kept committed texts of every block read except a breaking one, including those of a block whose recognition raised |
| `LiveTranscription.Transcriber.Run` | test2.py:48-94 | no block before the last one read stopped the loop or raised; when saved, the last block read stopped the loop and was not recognized, the results are the kept committed texts of the blocks before it followed by the non-empty final text, and the transcript is the results joined by newlines; on an exception the run exits with its message, the results holding the texts kept so far; if input runs out the loop is still listening with every block's texts kept |

## Left out

- Speech engines: the batch engine's `transcribe` and the incremental recognizer's `AcceptWaveform`, `Result`, `PartialResult`, `FinalResult` and their JSON are foreign code; they appear only as the engine's text, a per-block `Recognition` and a `FinalResult`.
- Audio capture: the sounddevice input streams, their callbacks and the queue hand-off run on a driver thread; the consumer side is a plain input sequence, and a finite one (the source's queue blocks forever when empty).
- Energy metrics: `np.linalg.norm(block) * 10` and `np.abs(audio).mean()` are floating point; each block carries its energy as an integer.
- Clock: `time.time()` is an integer input per block, in milliseconds (so the 1.5 s duration is 1500); `datetime.now()` is a parameter.
- SessionLog.Timestamp: requires a year from 1000 to 9999, because below 1000 the C library's `%Y` does not pad to four digits on every platform.
- `extract_audio`: the ffmpeg conversion is an external transcoder.
- File-system effects: creating directories, writing and appending files, `sf.write`, `shutil.move`, `os.path.isfile`, and the directory joins with `os.path.join`; only the names and contents are modelled. `os.path.splitext` is not modelled: the extension is a parameter.
- Console menu, keyboard interrupt and the tkinter window (`update_display`, `root.update`, `mainloop`): presentation and I/O. The messages shown for partial and committed texts are therefore not modelled.
- Writing the transcript file after the loop can itself fail; such an error lies outside the modelled outcome.
