# PDF to MP3 narration: a Dafny model of the conversion pipeline

The application reads a PDF in the browser and cuts its text into 4500-character slices. It sends
each slice to a text-to-speech model, retrying with exponential backoff. It collects the 16-bit PCM
audio that comes back, feeds it to a streaming MP3 encoder, and offers the resulting file for
download. The project models the three parts of that pipeline and proves their properties:

- `GeminiService` (`gemini_service.dfy`), the slice loop of `convertTextToAudio`:
  - cutting the text into slices;
  - the progress schedule and its status messages;
  - the retry wrapper `generateContentWithRetry`;
  - collecting the audio buffers while counting the slices answered without audio.
- `AudioUtils` (`audio_utils.dfy`):
  - `decodeBase64`, from the binary string `atob` returns onward;
  - reading PCM bytes as 16-bit little-endian samples;
  - `createMp3File`, which drives a stateful encoder (the class `Mp3Encoder`).
- `App` (`app.dfy`), the page component:
  - its React state, as the class `AppState`;
  - `resetDownloadState`, `handleFileChange`, `handleVoiceChange` and `handleConvertClick`;
  - the `.pdf` to `.mp3` rename of the output file.
- `JsStrings` (`js_strings.dfy`): the JavaScript built-ins the code relies on. These are
  `substring` clamping, `trim` and its whitespace set, the decimal text `${n}` produces, and the
  ASCII case folding of a `/…/i` regular expression.
- `Wrappers` (`wrappers.dfy`): `Option`, `Result` and the thrown `Error`.
- `Seqs` (`seqs.dfy`): `Flatten`, the joining of parts end to end that string concatenation and
  `new Blob(parts)` both perform.

Everything outside the program is an oracle passed in as a function parameter. This covers:

- the speech service: `Service`, which gives the outcome of attempt `a` for slice `i`;
- `atob`;
- the encoder's `encodeBuffer` and `flush` answers;
- the PDF text extractor;
- `URL.createObjectURL`.

Each handler of the component is a method on `AppState`, and a function on `View` specifies it.
`View` holds the values of all the fields. Each handler ensures
`Snapshot() == F(old(Snapshot()), …)`, and the properties of the handlers are lemmas about `F`.
Several things the component does to the outside world are recorded in an `effects` list:
revoking an object URL, clicking the download link, and playing the completion chime. The
`onProgress` callback is modelled as an event log: `ConvertTextToAudio` returns it and the
component replays it through `handleProgress`.

## Model

| member | source | states |
|---|---|---|
| JsStrings.Substring | services/geminiService.ts:49 | `substring` with in-range ends is the slice between them; an end past the string stops at its end (the last slice); a start and an end both at or past the end of the string, or both at or below 0, give the empty string; the result is never longer than the string |
| JsStrings.TrimEmptyIffBlank | App.tsx:91 | `!text.trim()` holds exactly when every character is JavaScript whitespace (the empty text included) |
| JsStrings.NatToStringRoundTrip | App.tsx:118 | the decimal text of a count reads back as that count |
| GeminiService.SplitText | services/geminiService.ts:47-50 | the chunking loop produces exactly the slice list `Chunks(text)` |
| GeminiService.ChunksReassemble | services/geminiService.ts:47-50 | the slices joined in order give back the text |
| GeminiService.ChunksCount | services/geminiService.ts:4 | there are ceil(len/4500) slices, and none exactly when the text is empty |
| GeminiService.ChunkAt | services/geminiService.ts:47-50 | slice j is text[4500j .. min(4500(j+1), len)]; it is non-empty, at most 4500 long, and exactly 4500 long unless it is the last |
| GeminiService.Progress | services/geminiService.ts:58 | the progress of slice i is the nearest integer to 95(i+1)/n, with halves rounded up: within one half of it, above by at most a half and below by less |
| GeminiService.ProgressBounds | services/geminiService.ts:58 | progress during the requests never exceeds 95 |
| GeminiService.ProgressMonotone | services/geminiService.ts:55-58 | progress never decreases from one slice to a later one |
| GeminiService.ProgressLast | services/geminiService.ts:58 | the last slice reports exactly 95 |
| GeminiService.WithRetry | services/geminiService.ts:14-30 | the wrapper makes 1 to retries+1 attempts and returns the last attempt's outcome verbatim; every earlier attempt failed; a failure comes back only after all attempts; wait j is delay·2^j |
| GeminiService.RetryDelays | services/geminiService.ts:18-25 | the schedule of delays before retries 0..k-1 has length k |
| GeminiService.RetryDelaysAt | services/geminiService.ts:23-25 | delay j of the service's schedule is 2000·2^j |
| GeminiService.BackoffTotal | services/geminiService.ts:23-25 | delays d, 2d, …, 2^(k-1)d add up to d·(2^k − 1) |
| GeminiService.GenerateContentWithRetry | services/geminiService.ts:14-30 | with the defaults (5 retries, 2000 ms): at most 6 attempts; the last attempt's outcome is returned and every earlier one failed; a failure only after all 6; a first success returns at once with no wait; the waits are 2000·2^j ms |
| GeminiService.RetrySucceedsAfterFailures | services/geminiService.ts:14-25 | k failures (k ≤ 5) followed by a success return that success after k+1 attempts, having waited 2000, 4000, … ms, 2000·(2^k − 1) ms in all; with k = 0 the first success returns at once without waiting |
| GeminiService.RetryExhausted | services/geminiService.ts:27-28 | when all 6 attempts fail, the error of the sixth attempt itself is rethrown, after 62000 ms of waits |
| GeminiService.ChunksRequested | services/geminiService.ts:74 | all slices are requested when no throw escapes; otherwise the loop stops at the slice that threw, and its outcome is the loop's |
| GeminiService.SynthesizedInOrder | services/geminiService.ts:76-88 | without a throw, the audio list holds the decoded payloads of exactly the slices that carried audio, in slice order, and audio count + skipped count == slice count |
| GeminiService.SynthesizeOkIff | services/geminiService.ts:74-78 | no throw escapes exactly when every slice's wrapper returned and every audio payload decoded |
| GeminiService.ErrorPersists | services/geminiService.ts:74 | after a throw on slice i no later slice changes the outcome or is requested |
| GeminiService.SliceLogAt | services/geminiService.ts:58-74 | in the log, the progress report for slice j comes right before the request carrying slice j's text, model name and voice |
| GeminiService.AbsorbAccountsForSlice | services/geminiService.ts:74-85 | one iteration rethrows the wrapper's error verbatim, or throws only from decoding a payload; otherwise a response with audio appends exactly one buffer, its decoded payload, at the end and leaves the skip count alone, and a response without audio adds one skip and leaves the audio list alone |
| GeminiService.ConvertSlice | services/geminiService.ts:56-85 | one iteration reports progress, sends the request, then appends the decoded audio, counts a skip, or propagates the throw |
| GeminiService.ConvertTextToAudio | services/geminiService.ts:38-89 | the result is the in-order synthesis of all slices or the first throw; the log holds one report and one request per slice requested |
| AudioUtils.DecodeBase64 | utils/audioUtils.ts:30-38 | a throw from `atob` propagates; otherwise a fresh array of the binary string's length holding byte i = ToUint8(charCode i) |
| AudioUtils.BinaryBytesRoundTrip | utils/audioUtils.ts:33-36 | copying a binary string into bytes loses nothing the string carried |
| AudioUtils.BinaryStringRoundTrip | utils/audioUtils.ts:33-36 | for a binary string (every code below 256) the bytes give back the string |
| AudioUtils.PcmSamples | utils/audioUtils.ts:56 | the sample view of a buffer holds byteLength/2 samples |
| AudioUtils.SamplesRoundTrip | utils/audioUtils.ts:53-56 | reading samples back from their little-endian bytes gives the samples |
| AudioUtils.PcmRoundTrip | utils/audioUtils.ts:53-56 | an even-length buffer is exactly the little-endian bytes of the samples read from it |
| AudioUtils.SampleBuffers | utils/audioUtils.ts:52-56 | there is one sample buffer per PCM chunk |
| AudioUtils.FirstOddChunk | utils/audioUtils.ts:56 | finds the first chunk whose sample view throws; every earlier chunk has even length |
| AudioUtils.Mp3Encoder.EncodeBuffer | utils/audioUtils.ts:57 | returns the encoder's answer for the new buffer given the ones fed before, and records the buffer |
| AudioUtils.Mp3Encoder.Flush | utils/audioUtils.ts:64 | returns the encoder's flush output for every buffer fed, and counts the flush |
| AudioUtils.EncodedFramesAt | utils/audioUtils.ts:52-57 | encoder output j answers buffer j, given buffers 0..j-1 as history; there is one output per buffer |
| AudioUtils.NonEmptyKeepsBytes | utils/audioUtils.ts:58-60 | dropping the empty outputs drops no byte and reorders nothing |
| AudioUtils.NonEmptyIndicesAt | utils/audioUtils.ts:58-60 | the positions of the kept outputs increase, each names a non-empty output, and a position is kept exactly when its output is not empty |
| AudioUtils.NonEmptyDropsOnlyEmpty | utils/audioUtils.ts:58-67 | kept frame m is output idx[m] of those positions, whole: nothing is merged, split or reordered |
| AudioUtils.NonEmptyKeepsAll | utils/audioUtils.ts:58-67 | when no output is empty every output is kept |
| AudioUtils.Mp3BytesAreAllOutputs | utils/audioUtils.ts:64-70 | the file's bytes are every encoder output, then the flush output; with no chunk they are the flush output alone |
| AudioUtils.CreateMp3File | utils/audioUtils.ts:47-71 | a fresh encoder (1 channel, the sample rate, 128 kbps) is fed each chunk's samples once, in order, and flushed exactly once; the blob is the non-empty frames with the flush frame last, typed audio/mpeg; an odd-length chunk throws before it reaches the encoder, and there is no flush |
| App.SkipWarningCount | App.tsx:117-119 | the skip warning carries the skipped count, which reads back from its text |
| App.Mp3FileName | App.tsx:124 | the name keeps its length; a trailing `.pdf` in any case becomes `.mp3` with the stem kept; other names are unchanged; the result never ends in `.pdf` |
| App.PdfExtensionRewritten | App.tsx:124 | stem + any case spelling of `.pdf` becomes stem + `.mp3` |
| App.Mp3FileNameIdempotent | App.tsx:124 | rewriting the name twice is rewriting it once |
| App.ReportsAfterSlices | App.tsx:99-102 | after k slices the bar shows slice k-1's progress and the message "Convertendo parte k de n..." |
| App.NothingStartsWithoutFileAndVoice | App.tsx:70-73 | a missing file or voice sets only the error; nothing else changes |
| App.NothingStartsWithoutApiKey | App.tsx:75-79 | a missing API key sets only the error, before anything is marked converting |
| App.BlankTextStopsBeforeSynthesis | App.tsx:91-95 | blank text sets the empty-PDF error and stops with progress 0; the outcome does not depend on the service, decoder, encoder or object URL |
| App.NoAudioStopsBeforeEncoding | App.tsx:111-115 | zero audio buffers set the distinct no-audio error; no file, URL, name or warning is produced, and the encoder is never consulted |
| App.DownloadOfferedIffCompleted | App.tsx:81-139 | once admitted, a download URL is set exactly when the text is read and non-blank, synthesis does not throw, some audio was produced, and every buffer is even |
| App.CompletedConversionOffersMp3 | App.tsx:117-139 | a completed run offers the URL of the MP3 blob under the rewritten name, clicks the link and then chimes; progress is 100, there is no error, and the warning is set iff some slices were skipped |
| App.ExtractionErrorCaught | App.tsx:87-147 | a throw while reading the PDF is shown (or the fallback text), progress goes to 0 and no URL is set |
| App.SynthesisErrorCaught | App.tsx:104-147 | a throw from the slice loop is shown (or the fallback text) and progress goes to 0; the status keeps the report of the slice that threw |
| App.OddAudioBufferCaught | App.tsx:121-147 | an odd-length audio buffer's throw is shown and progress goes from 100 back to 0, with no URL set |
| App.ConvertClickSettles | App.tsx:69-148 | every path leaves the component not converting, with progress in 0..100 |
| App.FileChangeOutcome | App.tsx:51-61 | a non-PDF file sets the error and clears the selection, leaving the download alone; a PDF or no file clears the error and warning, revokes a live URL and clears the URL and name |
| App.AppState.constructor | App.tsx:24-32 | the initial state: the first voice ("Kore") and nothing else |
| App.AppState.ResetDownloadState | App.tsx:43-49 | a truthy URL is revoked, then the URL and name are cleared; the bar stays valid |
| App.AppState.HandleFileChange | App.tsx:51-61 | performs `FileChange` on the fields, whose outcome `App.FileChangeOutcome` states; the bar stays valid |
| App.AppState.HandleVoiceChange | App.tsx:63-66 | sets the voice and resets the download state; the bar stays valid |
| App.AppState.HandleProgress | App.tsx:99-102 | sets progress and status to the report, and nothing else; a report within 0..100 keeps the bar valid |
| App.AppState.ReplayProgress | App.tsx:99-102 | each progress report, in order, sets progress and status |
| App.AppState.Catch | App.tsx:141-147 | shows the error's message (or the fallback text), zeroes progress and ends the conversion |
| App.AppState.HandleConvertClick | App.tsx:69-148 | performs `ConvertClick` on the fields and leaves the component valid and not converting |
| App.AppState.ConvertText | App.tsx:104-109 | from the synthesis call on, performs `Synthesized` on the fields |
| App.AppState.Conclude | App.tsx:111-147 | from the return of `convertTextToAudio` on, performs `Concluded` on the fields: a throw is caught, no audio is the distinct error, otherwise the warning, progress 100 and the file |
| App.AppState.EncodeAndOffer | App.tsx:123-139 | from `createMp3File` on, performs `Encoded` on the fields |

## Left out

- The `GoogleGenAI` client, the request's `contents`/`config` envelope and the response path `candidates[0].content.parts[0].inlineData.data` are not modelled in detail. The service is an oracle per slice and attempt, and a response is its optional payload. The request keeps the model name, the slice text and the voice.
- `setTimeout`: the wrapper records the delays it would wait and does not wait.
- `console.warn` and `console.error` logging are not modelled, including the 100-character preview of a skipped slice.
- `atob` is an oracle that may throw. Base64 decoding itself is not modelled.
- The lamejs bitstream is not modelled. `encodeBuffer` and `flush` answer from oracles given the configuration and the buffers fed so far. Signed `Int8Array` frames are modelled as their bytes.
- `Blob` is modelled only by its frame list and MIME type. Its bytes are the frames concatenated.
- `utils/pdfUtils.ts` (text extraction with pdf.js) is not part of this model. The extractor is an oracle that returns the text or throws.
- `playCompletionSound` (Web Audio) is recorded as a `Chimed` effect.
- `URL.createObjectURL` is an oracle from blob to URL. `URL.revokeObjectURL` is recorded as a `Revoked` effect.
- The temporary `<a>` element, its click and its removal are recorded as one `Downloaded` effect.
- The `useEffect` cleanup (App.tsx:34-41) is not modelled. It revokes the previous URL a second time when the URL changes and revokes it on unmount; it changes no state.
- The JSX and the components (file picker, voice picker, progress bar, icons) are not modelled.
- GeminiService.Progress: `Math.round` over floating-point `(i+1)/n*95` is replaced by exact round-half-up integer arithmetic. A floating-point error at an exact half is not modelled.
- JavaScript strings are UTF-16 code-unit sequences. Here they are sequences of Dafny characters, so slice boundaries and lengths of text outside the Basic Multilingual Plane differ.
- React batches state updates and renders asynchronously. The handlers apply their updates in program order to one state, and `handleConvertClick`'s closure reads the state as it was when it started. No two handlers run interleaved.
- The callback `onProgress` is modelled as the event log the service returns, replayed by the component in the same order; interleaving with other UI events is not modelled.
- `new Int16Array(pcmChunk.buffer)` views the whole underlying buffer. `decodeBase64` allocates a fresh array of exactly the decoded length, so the buffer is the chunk. The model reads the bytes as little-endian. `Int16Array` uses the host's byte order, and the source relies on a little-endian host without stating it.
- On the zero-audio path (App.tsx:111-115) the code sets the error and stops without touching progress, so the bar stays at the last slice's 95. The model follows the code; `App.NoAudioStopsBeforeEncoding` states the 95.
