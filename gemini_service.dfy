/**
 * The text-to-speech service: the text is cut into fixed-size slices, each slice is sent to
 * the speech model through a retry wrapper with exponential backoff, and the audio that comes
 * back is collected in slice order while slices answered without audio are counted as skipped.
 *
 * The remote call is an oracle: `service(i, a)` is what attempt `a` for slice `i` returns,
 * either a response or a thrown error. Waiting is not modelled; the delays the wrapper would
 * wait are recorded instead.
 */
module GeminiService {
  import opened Wrappers
  import opened JsStrings
  import opened Seqs
  import AudioUtils

  /** Characters per slice of text sent in one request. */
  const TextChunkSize: nat := 4500
  /** Retries after the first attempt of a request. */
  const MaxRetries: nat := 5
  /** Milliseconds waited before the first retry; doubled before each further one. */
  const InitialDelay: nat := 2000
  /** Share of the progress bar given to the speech requests; the rest is left for encoding. */
  const ConversionShare: nat := 95
  const TtsModel := "gemini-2.5-flash-preview-tts"

  function Min(a: int, b: int): int {
    if a <= b then a else b
  }

  // ---------------------------------------------------------------- slicing the text

  /** The slices the chunking loop produces: `text.substring(i, i + 4500)` for i = 0, 4500, ... */
  function Chunks(text: string): seq<string>
    decreases |text|
  {
    if |text| == 0 then []
    else
      var k := Min(TextChunkSize, |text|);
      [text[..k]] + Chunks(text[k..])
  }

  /** The slices, joined in order, give back the text. */
  lemma {:induction false} ChunksReassemble(text: string)
    ensures Flatten(Chunks(text)) == text
    decreases |text|
  {
    if |text| > 0 {
      var k := Min(TextChunkSize, |text|);
      ChunksReassemble(text[k..]);
      FlattenAppend([text[..k]], Chunks(text[k..]));
      FlattenSingleton(text[..k]);
      assert text[..k] + text[k..] == text;
    }
  }

  /** There are ceil(|text| / 4500) slices, none at all for the empty text. */
  lemma {:induction false} ChunksCount(text: string)
    ensures |Chunks(text)| == (|text| + TextChunkSize - 1) / TextChunkSize
    ensures Chunks(text) == [] <==> text == []
    decreases |text|
  {
    if |text| > 0 {
      ChunksCount(text[Min(TextChunkSize, |text|)..]);
    }
  }

  /**
   * Slice j is the text from position 4500*j up to 4500*(j+1) or the end: it is never empty,
   * never longer than 4500 characters, and exactly 4500 long unless it is the last slice.
   */
  lemma {:induction false} ChunkAt(text: string, j: nat)
    requires j < |Chunks(text)|
    ensures j * TextChunkSize < |text|
    ensures Chunks(text)[j] == text[j * TextChunkSize .. Min((j + 1) * TextChunkSize, |text|)]
    ensures 0 < |Chunks(text)[j]| <= TextChunkSize
    ensures j < |Chunks(text)| - 1 ==> |Chunks(text)[j]| == TextChunkSize
    decreases |text|
  {
    var k := Min(TextChunkSize, |text|);
    var rest := text[k..];
    ChunksCount(text);
    if j > 0 {
      assert |text| > TextChunkSize;
      ChunkAt(rest, j - 1);
      assert Chunks(text)[j] == Chunks(rest)[j - 1];
      var a := (j - 1) * TextChunkSize;
      var b := Min(j * TextChunkSize, |rest|);
      assert k == TextChunkSize;
      assert j * TextChunkSize == a + k;
      assert (j + 1) * TextChunkSize == j * TextChunkSize + k;
      assert Min((j + 1) * TextChunkSize, |text|) == b + k;
      assert rest[a..b] == text[a + k .. b + k] by {
        forall t | 0 <= t < b - a
          ensures rest[a..b][t] == text[a + k .. b + k][t]
        {
          assert rest[a + t] == text[k + a + t];
        }
      }
    } else if |Chunks(text)| > 1 {
      assert |text| > TextChunkSize;
    }
  }

  /** The chunking loop of `convertTextToAudio`. */
  method SplitText(text: string) returns (textChunks: seq<string>)
    ensures textChunks == Chunks(text)
  {
    textChunks := [];
    var i := 0;
    while i < |text|
      invariant textChunks + Chunks(text[Min(i, |text|)..]) == Chunks(text)
      decreases |text| - i
    {
      var k := Min(TextChunkSize, |text| - i);
      assert text[i..][..k] == Substring(text, i, i + TextChunkSize);
      assert text[i..][k..] == text[Min(i + TextChunkSize, |text|)..];
      textChunks := textChunks + [Substring(text, i, i + TextChunkSize)];
      i := i + TextChunkSize;
    }
  }

  // ---------------------------------------------------------------- progress schedule

  lemma DivBounds(a: nat, d: nat)
    requires d > 0
    ensures d * (a / d) <= a < d * (a / d) + d
  {
  }

  /**
   * `Math.round((i + 1) / n * 95)` in exact arithmetic: the integer nearest to 95(i+1)/n,
   * halves rounded up. It is within one half of 95(i+1)/n: above by at most a half, below by
   * less.
   */
  function Progress(i: nat, n: nat): (p: nat)
    requires i < n
    ensures n * (2 * p - 1) <= 2 * ConversionShare * (i + 1) < n * (2 * p + 1)
  {
    DivBounds(2 * ConversionShare * (i + 1) + n, 2 * n);
    (2 * ConversionShare * (i + 1) + n) / (2 * n)
  }

  lemma {:induction false} CancelFactor(n: int, a: int, b: int)
    requires n > 0
    ensures n * a <= n * b ==> a <= b
    ensures n * a < n * b ==> a < b
  {
    if a > b {
      var c := a - b;
      assert n * a == n * b + n * c;
      assert n * c >= n by {
        MulAtLeast(n, c);
      }
    }
    if a == b {
      assert n * a == n * b;
    }
  }

  lemma {:induction false} MulAtLeast(n: int, c: int)
    requires n > 0 && c >= 1
    ensures n * c >= n
    decreases c
  {
    if c > 1 {
      MulAtLeast(n, c - 1);
      assert n * c == n * (c - 1) + n;
    }
  }

  /** Progress during the requests stays within 0..95. */
  lemma ProgressBounds(i: nat, n: nat)
    requires i < n
    ensures Progress(i, n) <= ConversionShare
  {
    var p: int := Progress(i, n);
    assert 2 * ConversionShare * (i + 1) <= n * (2 * ConversionShare);
    CancelFactor(n, 2 * p - 1, 2 * ConversionShare);
  }

  /** Progress never goes down from one slice to a later one. */
  lemma ProgressMonotone(i: nat, j: nat, n: nat)
    requires i <= j < n
    ensures Progress(i, n) <= Progress(j, n)
  {
    var p: int, q: int := Progress(i, n), Progress(j, n);
    assert n * (2 * p - 1) < n * (2 * q + 1);
    CancelFactor(n, 2 * p - 1, 2 * q + 1);
  }

  /** The last slice reports exactly 95. */
  lemma ProgressLast(n: nat)
    requires n > 0
    ensures Progress(n - 1, n) == ConversionShare
  {
    var p: int := Progress(n - 1, n);
    assert n * (2 * p - 1) <= n * (2 * ConversionShare) < n * (2 * p + 1);
    CancelFactor(n, 2 * p - 1, 2 * ConversionShare);
    CancelFactor(n, 2 * ConversionShare, 2 * p + 1);
  }

  /** The status line shown with each progress report. */
  function ProgressMessage(part: nat, total: nat): string {
    "Convertendo parte " + NatToString(part) + " de " + NatToString(total) + "..."
  }

  // ---------------------------------------------------------------- retry with backoff

  /** The envelope field read from a response: `candidates[0].content.parts[0].inlineData.data`. */
  datatype Response = Response(inlineData: Option<string>)

  /** `if (base64Audio)`: the payload is present and is not the empty string. */
  predicate HasAudio(r: Response) {
    r.inlineData.Some? && r.inlineData.value != ""
  }

  /** The outcome of each attempt of one request, by attempt number. */
  type Call = nat -> Result<Response, Error>

  /** What the retry wrapper returns or throws, the delays it waited, and how many attempts it made. */
  datatype RetryRun = RetryRun(result: Result<Response, Error>, waits: seq<nat>, attempts: nat)

  function Pow2(k: nat): nat {
    if k == 0 then 1 else 2 * Pow2(k - 1)
  }

  /**
   * `generateContentWithRetry(ai, request, retries, delay)`, starting at attempt `attempt`:
   * the result is the outcome of the last attempt made, verbatim; every earlier attempt
   * failed; a failure is returned only when all retries+1 attempts failed; before retry j
   * the wrapper waits delay * 2^j.
   */
  function WithRetry(call: Call, attempt: nat, retries: nat, delay: nat): (r: RetryRun)
    decreases retries
    ensures 1 <= r.attempts <= retries + 1
    ensures r.result == call(attempt + r.attempts - 1)
    ensures forall a :: attempt <= a < attempt + r.attempts - 1 ==> call(a).Err?
    ensures r.result.Err? ==> r.attempts == retries + 1
    ensures |r.waits| == r.attempts - 1
    ensures forall j :: 0 <= j < |r.waits| ==> r.waits[j] == delay * Pow2(j)
  {
    match call(attempt)
    case Ok(_) => RetryRun(call(attempt), [], 1)
    case Err(e) =>
      if retries > 0 then
        var rest := WithRetry(call, attempt + 1, retries - 1, delay * 2);
        DoubledSchedule(rest.waits, delay);
        RetryRun(rest.result, [delay] + rest.waits, rest.attempts + 1)
      else
        RetryRun(Err(e), [], 1)
  }

  lemma DoubledSchedule(waits: seq<nat>, delay: nat)
    requires forall j :: 0 <= j < |waits| ==> waits[j] == delay * 2 * Pow2(j)
    ensures forall j :: 0 <= j < |waits| + 1 ==> ([delay] + waits)[j] == delay * Pow2(j)
  {
    forall j | 0 <= j < |waits| + 1
      ensures ([delay] + waits)[j] == delay * Pow2(j)
    {
      if j > 0 {
        assert Pow2(j) == 2 * Pow2(j - 1);
        assert delay * 2 * Pow2(j - 1) == delay * (2 * Pow2(j - 1));
      }
    }
  }

  /**
   * The wrapper as the service calls it, with its defaults of 5 retries and a 2000 ms first
   * delay: at most 6 attempts; a first success is returned at once, without waiting; the
   * waits are 2000, 4000, 8000, ... ms.
   */
  function GenerateContentWithRetry(call: Call): (r: RetryRun)
    ensures 1 <= r.attempts <= MaxRetries + 1
    ensures r.result == call(r.attempts - 1)
    ensures forall a :: 0 <= a < r.attempts - 1 ==> call(a).Err?
    ensures r.result.Err? ==> r.attempts == MaxRetries + 1
    ensures call(0).Ok? ==> r.attempts == 1 && r.waits == []
    ensures |r.waits| == r.attempts - 1
    ensures forall j :: 0 <= j < |r.waits| ==> r.waits[j] == InitialDelay * Pow2(j)
  {
    WithRetry(call, 0, MaxRetries, InitialDelay)
  }

  function Sum(s: seq<nat>): nat {
    if s == [] then 0 else Sum(s[..|s| - 1]) + s[|s| - 1]
  }

  /** Delays d, 2d, ..., 2^(k-1) d add up to d (2^k - 1). */
  lemma {:induction false} BackoffTotal(waits: seq<nat>, delay: nat)
    requires forall j :: 0 <= j < |waits| ==> waits[j] == delay * Pow2(j)
    ensures Sum(waits) == delay * (Pow2(|waits|) - 1)
  {
    if waits != [] {
      var k := |waits|;
      var init := waits[..k - 1];
      BackoffTotal(init, delay);
      assert Sum(waits) == delay * (Pow2(k - 1) - 1) + delay * Pow2(k - 1);
      assert delay * (Pow2(k - 1) - 1) + delay * Pow2(k - 1) == delay * (2 * Pow2(k - 1) - 1);
    }
  }

  /**
   * When the first k attempts (k <= 5) fail and the next succeeds, the wrapper returns that
   * success after exactly k+1 attempts, having waited 2000, 4000, ... ms, 2000 (2^k - 1) ms
   * in all; with k = 0 it returns at once without waiting.
   */
  lemma RetrySucceedsAfterFailures(call: Call, k: nat)
    requires k <= MaxRetries
    requires forall a :: 0 <= a < k ==> call(a).Err?
    requires call(k).Ok?
    ensures GenerateContentWithRetry(call).result == call(k)
    ensures GenerateContentWithRetry(call).attempts == k + 1
    ensures GenerateContentWithRetry(call).waits == RetryDelays(k)
    ensures Sum(GenerateContentWithRetry(call).waits) == InitialDelay * (Pow2(k) - 1)
  {
    var r := GenerateContentWithRetry(call);
    var last: nat := r.attempts - 1;
    assert last < k ==> call(last).Err?;
    assert k < last ==> call(k).Err?;
    assert r.attempts == k + 1;
    RetryDelaysAt(k);
    assert r.waits == RetryDelays(k);
    BackoffTotal(r.waits, InitialDelay);
  }

  /** The delays before retries 0..k-1 of the service's wrapper. */
  function RetryDelays(k: nat): (d: seq<nat>)
    ensures |d| == k
  {
    if k == 0 then [] else RetryDelays(k - 1) + [InitialDelay * Pow2(k - 1)]
  }

  lemma {:induction false} RetryDelaysAt(k: nat)
    ensures forall j :: 0 <= j < k ==> RetryDelays(k)[j] == InitialDelay * Pow2(j)
  {
    if k > 0 {
      RetryDelaysAt(k - 1);
    }
  }

  /**
   * When every attempt fails the wrapper gives up after 6 attempts and 5 waits (62000 ms in
   * all) and throws the error of the sixth attempt itself.
   */
  lemma RetryExhausted(call: Call)
    requires forall a :: 0 <= a <= MaxRetries ==> call(a).Err?
    ensures GenerateContentWithRetry(call).result == Err(call(MaxRetries).error)
    ensures GenerateContentWithRetry(call).attempts == MaxRetries + 1
    ensures Sum(GenerateContentWithRetry(call).waits) == InitialDelay * (Pow2(MaxRetries) - 1) == 62000
  {
    var r := GenerateContentWithRetry(call);
    assert call(r.attempts - 1).Err?;
    BackoffTotal(r.waits, InitialDelay);
  }

  // ---------------------------------------------------------------- the per-slice loop

  /** `service(i, a)`: what attempt a of the request for slice i returns or throws. */
  type Service = (nat, nat) -> Result<Response, Error>

  /** The request body sent for one slice. */
  datatype SpeechRequest = SpeechRequest(model: string, text: string, voiceName: string)

  /** The observable steps of the loop: an `onProgress` call, then the request for a slice. */
  datatype Event = Reported(progress: nat, message: string) | Requested(request: SpeechRequest)

  /** What `convertTextToAudio` resolves to. */
  datatype Synthesis = Synthesis(audioPcmChunks: seq<seq<AudioUtils.byte>>, skippedChunks: nat)

  function ChunkCall(service: Service, i: nat): Call {
    (a: nat) => service(i, a)
  }

  /** What the retry wrapper returned or threw for each slice, by slice index. */
  type Outcomes = nat -> Result<Response, Error>

  /** The outcomes the service's retry wrapper produces for every slice. */
  function ChunkOutcomes(service: Service): Outcomes {
    (i: nat) => GenerateContentWithRetry(ChunkCall(service, i)).result
  }

  /** `decodeBase64(base64Audio)`: the payload's bytes, or the error `atob` throws. */
  function DecodedAudio(atob: AudioUtils.Atob, r: Response): Result<seq<AudioUtils.byte>, Error>
    requires HasAudio(r)
  {
    match atob(r.inlineData.value)
    case Err(e) => Err(e)
    case Ok(binary) => Ok(AudioUtils.BinaryBytes(binary))
  }

  /** One iteration: append the decoded audio, or count the slice as skipped, or propagate a throw. */
  function Absorb(acc: Synthesis, outcome: Result<Response, Error>, atob: AudioUtils.Atob): Result<Synthesis, Error> {
    match outcome
    case Err(e) => Err(e)
    case Ok(r) =>
      if !HasAudio(r) then Ok(Synthesis(acc.audioPcmChunks, acc.skippedChunks + 1))
      else
        match DecodedAudio(atob, r)
        case Err(e) => Err(e)
        case Ok(bytes) => Ok(Synthesis(acc.audioPcmChunks + [bytes], acc.skippedChunks))
  }

  /**
   * A throw reaching one iteration comes from the wrapper, verbatim, or from decoding the
   * payload. Otherwise a response with audio appends exactly one buffer, its decoded payload,
   * and leaves the skip count alone; a response without audio adds one skip and leaves the
   * audio list alone.
   */
  lemma AbsorbAccountsForSlice(acc: Synthesis, outcome: Result<Response, Error>, atob: AudioUtils.Atob)
    ensures var r := Absorb(acc, outcome, atob);
      && (outcome.Err? ==> r == Err(outcome.error))
      && (r.Err? && outcome.Ok? ==> HasAudio(outcome.value) && DecodedAudio(atob, outcome.value) == Err(r.error))
      && (r.Ok? && HasAudio(outcome.value) ==>
            && |r.value.audioPcmChunks| == |acc.audioPcmChunks| + 1
            && r.value.audioPcmChunks[..|acc.audioPcmChunks|] == acc.audioPcmChunks
            && DecodedAudio(atob, outcome.value) == Ok(r.value.audioPcmChunks[|acc.audioPcmChunks|])
            && r.value.skippedChunks == acc.skippedChunks)
      && (r.Ok? && !HasAudio(outcome.value) ==>
            r.value == Synthesis(acc.audioPcmChunks, acc.skippedChunks + 1))
  {
    if outcome.Ok? && HasAudio(outcome.value) && DecodedAudio(atob, outcome.value).Ok? {
      var n := |acc.audioPcmChunks|;
      assert (acc.audioPcmChunks + [DecodedAudio(atob, outcome.value).value])[..n] == acc.audioPcmChunks;
    }
  }

  /** The outcome of processing slices 0..n-1 in order; the first throw ends the loop. */
  function Synthesize(outcomes: Outcomes, atob: AudioUtils.Atob, n: nat): Result<Synthesis, Error>
  {
    if n == 0 then Ok(Synthesis([], 0))
    else
      match Synthesize(outcomes, atob, n - 1)
      case Err(e) => Err(e)
      case Ok(acc) => Absorb(acc, outcomes(n - 1), atob)
  }

  /**
   * How many slices are requested when there are n: all of them, or, when a throw ends the
   * loop, the slices up to and including the one that threw; the throw is the loop's outcome.
   */
  function ChunksRequested(outcomes: Outcomes, atob: AudioUtils.Atob, n: nat): (k: nat)
    ensures k <= n
    ensures Synthesize(outcomes, atob, n).Ok? ==> k == n
    ensures Synthesize(outcomes, atob, n).Err? ==>
      && 0 < k
      && Synthesize(outcomes, atob, k - 1).Ok?
      && Synthesize(outcomes, atob, n) == Synthesize(outcomes, atob, k)
  {
    if n == 0 then 0
    else if Synthesize(outcomes, atob, n - 1).Err? then ChunksRequested(outcomes, atob, n - 1)
    else n
  }

  predicate ProducesAudio(outcomes: Outcomes, j: nat) {
    outcomes(j).Ok? && HasAudio(outcomes(j).value)
  }

  /** The slices among 0..n-1 whose response carried audio, in increasing order. */
  function AudioChunkIndices(outcomes: Outcomes, n: nat): seq<nat> {
    if n == 0 then []
    else AudioChunkIndices(outcomes, n - 1) + (if ProducesAudio(outcomes, n - 1) then [n - 1] else [])
  }

  /**
   * When no throw escapes, the audio list holds the decoded payload of exactly the slices that
   * carried audio, in slice order; every other slice counts as skipped, so the list length and
   * the skipped count add up to the number of slices.
   */
  lemma {:induction false} SynthesizedInOrder(outcomes: Outcomes, atob: AudioUtils.Atob, n: nat)
    requires Synthesize(outcomes, atob, n).Ok?
    ensures var s := Synthesize(outcomes, atob, n).value;
      var idx := AudioChunkIndices(outcomes, n);
      && |s.audioPcmChunks| == |idx|
      && |s.audioPcmChunks| + s.skippedChunks == n
      && (forall m :: 0 <= m < |idx| ==>
            && idx[m] < n
            && ProducesAudio(outcomes, idx[m])
            && DecodedAudio(atob, outcomes(idx[m]).value) == Ok(s.audioPcmChunks[m]))
      && (forall m, m' :: 0 <= m < m' < |idx| ==> idx[m] < idx[m'])
      && (forall j :: 0 <= j < n ==> (ProducesAudio(outcomes, j) <==> j in idx))
  {
    if n > 0 {
      SynthesizedInOrder(outcomes, atob, n - 1);
      var prev := Synthesize(outcomes, atob, n - 1).value;
      var s := Synthesize(outcomes, atob, n).value;
      var idx0 := AudioChunkIndices(outcomes, n - 1);
      var idx := AudioChunkIndices(outcomes, n);
      if ProducesAudio(outcomes, n - 1) {
        assert idx == idx0 + [n - 1];
        assert s.audioPcmChunks == prev.audioPcmChunks + [s.audioPcmChunks[|idx0|]];
      } else {
        assert idx == idx0;
      }
    }
  }

  /**
   * No throw escapes exactly when every slice's wrapper returned a response and every audio
   * payload decoded.
   */
  lemma {:induction false} SynthesizeOkIff(outcomes: Outcomes, atob: AudioUtils.Atob, n: nat)
    ensures Synthesize(outcomes, atob, n).Ok? <==>
      forall j :: 0 <= j < n ==>
        && outcomes(j).Ok?
        && (HasAudio(outcomes(j).value) ==> DecodedAudio(atob, outcomes(j).value).Ok?)
  {
    if n > 0 {
      SynthesizeOkIff(outcomes, atob, n - 1);
    }
  }

  lemma SynthesizeStep(outcomes: Outcomes, atob: AudioUtils.Atob, i: nat, acc: Synthesis)
    requires Synthesize(outcomes, atob, i) == Ok(acc)
    ensures Synthesize(outcomes, atob, i + 1) == Absorb(acc, outcomes(i), atob)
  {
  }

  /** Once a throw ends the loop, processing more slices changes nothing. */
  lemma {:induction false} ErrorPersists(outcomes: Outcomes, atob: AudioUtils.Atob, k: nat, m: nat)
    requires k <= m
    requires Synthesize(outcomes, atob, k).Err?
    ensures Synthesize(outcomes, atob, m) == Synthesize(outcomes, atob, k)
    ensures k > 0 && Synthesize(outcomes, atob, k - 1).Ok? ==> ChunksRequested(outcomes, atob, m) == k
    decreases m
  {
    if m > k {
      ErrorPersists(outcomes, atob, k, m - 1);
    }
  }

  /** What the loop does for slice j of the slices: report progress, then send the request. */
  function SliceEvents(chunks: seq<string>, voiceId: string, j: nat): seq<Event>
    requires j < |chunks|
  {
    [ Reported(Progress(j, |chunks|), ProgressMessage(j + 1, |chunks|)),
      Requested(SpeechRequest(TtsModel, chunks[j], voiceId)) ]
  }

  /** The events of the first k iterations. */
  function SliceLog(chunks: seq<string>, voiceId: string, k: nat): seq<Event>
    requires k <= |chunks|
  {
    if k == 0 then [] else SliceLog(chunks, voiceId, k - 1) + SliceEvents(chunks, voiceId, k - 1)
  }

  /**
   * In the log of k iterations, position 2j is the progress report for slice j and position
   * 2j+1 the request carrying slice j's text: each report comes before its slice's request.
   */
  lemma {:induction false} SliceLogAt(chunks: seq<string>, voiceId: string, k: nat, j: nat)
    requires j < k <= |chunks|
    ensures |SliceLog(chunks, voiceId, k)| == 2 * k
    ensures SliceLog(chunks, voiceId, k)[2 * j] == Reported(Progress(j, |chunks|), ProgressMessage(j + 1, |chunks|))
    ensures SliceLog(chunks, voiceId, k)[2 * j + 1] == Requested(SpeechRequest(TtsModel, chunks[j], voiceId))
  {
    if j < k - 1 {
      SliceLogAt(chunks, voiceId, k - 1, j);
    } else if k > 1 {
      SliceLogAt(chunks, voiceId, k - 1, 0);
    }
  }

  /**
   * One iteration of the loop over slices: report progress, build the request, send it through
   * the retry wrapper, then keep the decoded audio or count the slice as skipped.
   */
  method ConvertSlice(textChunks: seq<string>, i: nat, voiceId: string, service: Service, atob: AudioUtils.Atob,
                      audioPcmChunks: seq<seq<AudioUtils.byte>>, skippedChunks: nat)
    returns (events: seq<Event>, next: Result<Synthesis, Error>)
    requires i < |textChunks|
    ensures events == SliceEvents(textChunks, voiceId, i)
    ensures next == Absorb(Synthesis(audioPcmChunks, skippedChunks), ChunkOutcomes(service)(i), atob)
  {
    var n := |textChunks|;
    var chunk := textChunks[i];
    var progress := Progress(i, n);
    events := [Reported(progress, ProgressMessage(i + 1, n))];
    var modelRequest := SpeechRequest(TtsModel, chunk, voiceId);
    events := events + [Requested(modelRequest)];
    assert events == SliceEvents(textChunks, voiceId, i);
    var response := GenerateContentWithRetry(ChunkCall(service, i)).result;
    assert response == ChunkOutcomes(service)(i);
    if response.Err? {
      return events, Err(response.error);
    }
    var r := response.value;
    if HasAudio(r) {
      var decoded := AudioUtils.DecodeBase64(r.inlineData.value, atob);
      if decoded.Err? {
        return events, Err(decoded.error);
      }
      assert DecodedAudio(atob, r) == Ok(decoded.value[..]);
      next := Ok(Synthesis(audioPcmChunks + [decoded.value[..]], skippedChunks));
    } else {
      next := Ok(Synthesis(audioPcmChunks, skippedChunks + 1));
    }
  }

  /**
   * `convertTextToAudio`: slice the text, then for each slice report progress and send the
   * request through the retry wrapper; collect the audio in order and count the skipped slices.
   * The log holds the iterations of the slices requested: all of them, or, when a throw ends
   * the loop, none after the slice that threw.
   */
  method ConvertTextToAudio(text: string, voiceId: string, service: Service, atob: AudioUtils.Atob)
    returns (result: Result<Synthesis, Error>, log: seq<Event>)
    ensures result == Synthesize(ChunkOutcomes(service), atob, |Chunks(text)|)
    ensures log == SliceLog(Chunks(text), voiceId, ChunksRequested(ChunkOutcomes(service), atob, |Chunks(text)|))
  {
    var textChunks := SplitText(text);
    var n := |textChunks|;
    ghost var outcomes := ChunkOutcomes(service);
    var audioPcmChunks: seq<seq<AudioUtils.byte>> := [];
    var skippedChunks: nat := 0;
    log := [];
    for i := 0 to n
      invariant Synthesize(outcomes, atob, i) == Ok(Synthesis(audioPcmChunks, skippedChunks))
      invariant log == SliceLog(textChunks, voiceId, i)
    {
      var events, next := ConvertSlice(textChunks, i, voiceId, service, atob, audioPcmChunks, skippedChunks);
      log := log + events;
      SynthesizeStep(outcomes, atob, i, Synthesis(audioPcmChunks, skippedChunks));
      if next.Err? {
        result := Err(next.error);
        ErrorPersists(outcomes, atob, i + 1, n);
        return;
      }
      audioPcmChunks, skippedChunks := next.value.audioPcmChunks, next.value.skippedChunks;
    }
    result := Ok(Synthesis(audioPcmChunks, skippedChunks));
  }
}
