# ai-asr: voice-activity segmentation and transcript assembly

This project models the two pieces of logic in the ai-asr live speech-to-text
pipeline and proves properties about them:

- **Segmentation** (`segmentation.dfy`) models the audio handler's callback.
  Every captured block goes through a three-field state machine:
  `is_speaking`, `silence_counter` and `speech_buffer`.
  - A block whose voice-activity probability is strictly above 0.5 starts
    an utterance or extends it, and resets the counter.
  - While speaking, a block at or below the threshold increments the counter.
  - The sixth silent block in a row hands the buffered blocks, concatenated,
    to the audio queue and returns the machine to idle.
  - The VAD model is an oracle. The callback receives the block's
    probability as a parameter.
  - `Step` is the callback as a function on values. `Run` folds it over a
    sequence of observations.
  - The class `AudioHandler` keeps the fields and updates them the way the
    callback does. Its invariant `Valid` says the fields and the queue are
    what `Run` gives over the blocks seen so far.
- **Transcription** (`transcription.dfy`) models the transcriber's consumer
  loop. Each turn checks the stop flag, then takes one chunk off the audio
  queue, or times out when the queue is empty.
  - The speech recogniser is an oracle function of the chunk. It returns
    either the segment texts or a failure.
  - The text is built by appending each segment's text and one space.
    Python's `str.strip()` is modelled with the exact set of characters
    that `str.isspace()` accepts. The result is put on the text queue only
    when it is not blank.
  - A failure emits nothing for that chunk, and the loop goes on.
  - `Consume` is the loop over a sequence of turns. The method
    `Transcriber.TranscribeAudio` runs the loop imperatively and is proved
    equal to `Consume`.
- **Audio** (`audio.dfy`) holds the shared types and the `Concat` function
  that models `np.concatenate(..., axis=0)`. A block is a sequence of
  frames, and a frame holds one sample per channel.

Two behaviours of the callback that are easy to miss:
- Only blocks above the threshold enter an utterance. The callback appends
  to the buffer only in its speech branch. So the trailing silence that ends
  an utterance is not part of the chunk, and two speech blocks followed by
  six silent ones give a chunk of two blocks.
- An exception raised by the VAD model is not caught by the callback, so it
  is not treated as silence.

## Model

| member | source | states |
|---|---|---|
| Audio.Concat | audio_handler.py:73-75 | the concatenated chunk is as long as all buffered blocks together |
| Audio.ConcatAppend | audio_handler.py:74 | concatenating two lists of blocks one after the other is concatenating the joined list |
| Audio.ConcatSlice | audio_handler.py:74 | block k sits in the chunk exactly at the offset of the blocks before it: nothing is reordered, dropped or repeated |
| Audio.ConcatUniform | audio_handler.py:74 | blocks of n frames each give a chunk of (number of blocks) × n frames |
| Segmentation.Step | audio_handler.py:60-77 | one callback keeps the between-callback invariant; a chunk is handed over exactly when a speaking machine at count 5 sees silence, and it is the whole non-empty buffer, after which the machine is idle; speech always leaves it speaking at count 0 with nothing handed over; silence never adds to the buffer |
| Segmentation.Run | audio_handler.py:47-77 | the invariant (idle ⇒ empty buffer and count 0; speaking ⇒ non-empty buffer and count ≤ 5) holds after any sequence of callbacks, and there are at most as many utterances as blocks |
| Segmentation.UtterancesNonEmpty | audio_handler.py:73-75 | every utterance handed to the queue holds at least one block, so the guard on the non-empty buffer always holds |
| Segmentation.ChunkIsUtterance | audio_handler.py:73-75 | queue entry i is the in-order concatenation of utterance i's blocks |
| Segmentation.ChunksAppend | audio_handler.py:75 | the chunks of later utterances follow those of earlier ones: the queue only grows at its end |
| Segmentation.QueueStep | audio_handler.py:60-77 | one more callback keeps fields and queue consistent with the run over the longer history, with the queue extended by at most the one chunk that callback hands over |
| Segmentation.RunAppend | audio_handler.py:47-77 | feeding two block sequences one after the other is feeding their concatenation |
| Segmentation.RunConservesSpeech | audio_handler.py:60-68 | the handed-over utterances followed by the current buffer are exactly the speech blocks in arrival order: every speech block is kept once, no silent block is ever buffered |
| Segmentation.StepConservesSpeech | audio_handler.py:60-77 | one callback's handed-over blocks followed by its new buffer are the old buffer followed by the block if it is speech |
| Segmentation.TrailingSilence | audio_handler.py:66-77 | silent blocks leave an idle machine untouched; a speaking machine only counts up to 5, and the block that takes it past 5 hands over the whole buffer as one utterance and returns to idle |
| Segmentation.PauseDoesNotSplit | audio_handler.py:60-70 | a pause of at most 5 silent blocks followed by speech keeps one utterance: the block joins the same buffer and the count resets |
| Segmentation.SpeechFromIdle | audio_handler.py:60-65 | from idle, a run of speech blocks is buffered exactly, in order, count 0, nothing handed over |
| Segmentation.SeparatedGroups | audio_handler.py:60-77 | groups of speech separated by gaps of more than 5 silent blocks come out as exactly those groups, in order, and the machine ends idle |
| Segmentation.OneGroup | audio_handler.py:60-77 | one group of speech blocks then more than 5 silent blocks is one utterance, and the machine ends idle |
| Segmentation.TwoSpeechBlocksThenSixSilent | tests/test_audio_handler.py:38-74 | two speech blocks then six silent ones leave the machine idle and the queue holding one chunk, the two blocks concatenated, twice a block's length |
| Segmentation.ShortPauseThenSilence | audio_handler.py:60-77 | speech, a 3-block pause, speech, then 6 silent blocks give one utterance of the two speech blocks only |
| Segmentation.NothingButSilence | audio_handler.py:66-67 | blocks that are all silent never start an utterance and never leave idle |
| Segmentation.AudioHandler.constructor | audio_handler.py:17-34 | a new handler is idle (not speaking, count 0, empty buffer), keeps its settings (16000 Hz, 512-frame blocks and 1 channel by default) and the queue it was given, and is consistent with the empty history |
| Segmentation.AudioHandler.AudioCallback | audio_handler.py:47-77 | keeps `Valid` and extends the history by the block; per case: speech while idle gives buffer `[block]`, count 0; speech while speaking appends the block, count 0; silence while idle changes nothing; silence while counting below 5 increments the count; silence at count 5 appends the concatenated non-empty buffer to the queue and resets to idle; the queue is untouched in every other case |
| Transcription.TrimStart | transcriber.py:51-52 | the result is a suffix of the input; what was removed is whitespace; the result does not start with whitespace |
| Transcription.TrimEnd | transcriber.py:51-52 | the result is a prefix of the input; what was removed is whitespace; the result does not end with whitespace |
| Transcription.Strip | transcriber.py:51-52 | the result neither starts nor ends with whitespace, is a contiguous piece of the input with only whitespace around it, and is empty exactly when the input is all whitespace |
| Transcription.Join | transcriber.py:47-49 | the built text is as long as all segment texts plus one space per segment |
| Transcription.AssembleText | transcriber.py:47-49 | the `+=` loop over the segments builds exactly `Join` of the segment texts |
| Transcription.Transcript | transcriber.py:45-52 | a chunk yields a text exactly when recognition succeeds and the joined text is not all whitespace; that text is the stripped join, non-empty, with no whitespace at either end |
| Transcription.StripJoined | transcriber.py:49-52 | a text with no whitespace at either end strips back to itself after the joining space |
| Transcription.SingleSegment | tests/test_transcriber.py:48-61 | the single segment "This is a test transcription." yields exactly that string |
| Transcription.TwoSegments | transcriber.py:47-52 | the segments "hello" and "world" yield "hello world" |
| Transcription.BlankSegments | transcriber.py:51 | no segments, or only blank ones, put nothing on the text queue |
| Transcription.BlankJoin | transcriber.py:47-51 | joining blank segment texts gives a blank text |
| Transcription.Transcripts | transcriber.py:35-52 | a list of chunks yields at most one text per chunk |
| Transcription.TranscriptsWellFormed | transcriber.py:51-52 | every text the loop can emit is non-empty and has no leading or trailing whitespace |
| Transcription.TranscriptsAppend | transcriber.py:35-52 | the texts of consecutive lists of chunks are consecutive |
| Transcription.ChunkWithoutText | transcriber.py:45-58 | a chunk whose recognition fails or is blank adds nothing and leaves the texts of the chunks around it unchanged |
| Transcription.Consume | transcriber.py:35-58 | the loop takes at most one chunk per turn |
| Transcription.ConsumeEmitsInOrder | transcriber.py:35-52 | the texts emitted are exactly the transcripts of the chunks taken, in the order they were taken |
| Transcription.ConsumeTakesFromFront | transcriber.py:35-38 | the chunks taken followed by what remains are the initial queue followed by every arrival seen up to the stop: chunks are taken from the front, in order, and none is lost |
| Transcription.TakeFromFront | transcriber.py:38 | one turn that finds a chunk takes the head and keeps the rest of the queue in order |
| Transcription.StopIsFinal | transcriber.py:35 | once a turn sees the stop flag, later turns change nothing: no further chunk is taken and no text is emitted |
| Transcription.TimeoutsEmitNothing | transcriber.py:35-56 | turns that find the queue empty take nothing and emit nothing |
| Transcription.FailureThenNext | transcriber.py:35-58 | a chunk whose recognition fails emits nothing, and the next turn takes the next chunk and emits its text |
| Transcription.OneTurn | transcriber.py:35-52 | one turn with one chunk queued takes it, leaves the queue empty and emits that chunk's text, if any |
| Transcription.TestSentenceEmitted | tests/test_transcriber.py:43-61 | with the test sentence as the chunk's only segment, the first turn puts exactly that sentence on the text queue |
| Transcription.Transcriber.constructor | transcriber.py:16-28 | a new transcriber keeps its recogniser and starts with empty audio and text queues |
| Transcription.Transcriber.TranscribeAudio | transcriber.py:30-59 | after the loop over the given turns, the audio queue is what `Consume` leaves and the text queue has gained exactly `Consume`'s texts |

## Left out

- Loading the VAD model and the Whisper model, and running them, are foreign calls (audio_handler.py:37-45, 58; transcriber.py:25, 45). The VAD score is a `real` parameter of `AudioCallback`. The recogniser is a function `Block -> Recognition` fixed when the transcriber is built, so it gives the same answer for the same chunk.
- The tensor conversion (audio_handler.py:55) and the integer-to-float rescaling of chunks (transcriber.py:41-42) are floating-point numerics. Samples are `real`, and chunks are passed to the recogniser unchanged.
- A recogniser failure midway through producing its segments is modelled as a failure of the whole chunk: no text is emitted for it.
- `start_recording`, `stop_recording`, the input stream and its polling loop (audio_handler.py:79-104) are device I/O and thread signalling. So are `stop_transcribing`, the stop event and the threads that run the loops. The stop flag and the producer's puts are inputs to `TranscribeAudio`: one `Tick` per turn, giving the chunks put on the queue before the turn's stop check and whether the flag is set.
- `queue.get(timeout=1)` blocking is modelled only as "an empty queue at the turn's check times out and emits nothing". Interleavings finer than one turn are not modelled.
- The audio queue in `AudioHandler` is the sequence of items the handler has put, as the producer sees it. It is shared with the consumer, which removes items concurrently; that is not modelled.
- Segmentation.AudioHandler.AudioCallback: the model computes the new flag, counter, buffer and queue in local variables along the same branches as the source, then writes all four fields at once at the end. The source writes them one at a time. Nothing else runs in between in a single-threaded model, so the final state is the same. Intermediate states are not visible.
- The `status` printout and every other `print` are logging.
- The `device` field, and the VAD utility functions unpacked at audio_handler.py:41-45, are never used by the callback.
- gui.py and main.py are UI and thread wiring. They are not part of this model.
