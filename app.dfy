/**
 * The page component: its React state, the three handlers that change it (choosing a file,
 * choosing a voice, converting) and the rewrite of the PDF file name into the MP3 one.
 *
 * Each piece of React state is a field of `AppState`; a handler is a method that sets those
 * fields in the order the component calls its setters. What a handler does is specified by a
 * function on `View`, the values of all the fields at once, and the properties of a handler are
 * lemmas about that function. The browser calls the component makes (reading the PDF, the API
 * key, `URL.createObjectURL`, the link click, the completion chime) come in as the fields of
 * an `Environment` or are recorded as `Effect`s.
 */
module App {
  import opened Wrappers
  import opened JsStrings
  import GeminiService
  import AudioUtils

  const SampleRate: nat := 24000
  const PdfMime := "application/pdf"
  const DefaultVoice := "Kore"

  const SelectFileAndVoiceError := "Por favor, selecione um arquivo e uma voz."
  const MissingApiKeyError := "A chave da API não foi encontrada. Verifique a configuração do ambiente."
  const EmptyPdfError := "O PDF parece estar vazio ou não contém texto legível."
  const NoAudioError := "Não foi possível gerar nenhum áudio. O conteúdo do PDF pode ter sido totalmente bloqueado ou a API pode estar indisponível."
  const SelectPdfError := "Por favor, selecione um arquivo PDF."
  const ProcessingFailedError := "Falha ao processar o arquivo."

  const ExtractingStatus := "Extraindo texto do PDF..."
  const StartingStatus := "Iniciando conversão..."
  const FinishingStatus := "Finalizando e criando arquivo .mp3..."
  const DownloadStartedStatus := "Download iniciado!"

  const SkipWarningPrefix := "Atenção: "
  const SkipWarningSuffix := " parte(s) do documento não foram convertidas, possivelmente por violação das políticas de conteúdo. O áudio restante foi gerado."

  /** The warning shown when some slices came back without audio. */
  function SkipWarning(skippedChunks: nat): string {
    SkipWarningPrefix + NatToString(skippedChunks) + SkipWarningSuffix
  }

  /** The warning carries the number of skipped slices: it can be read back from the text. */
  lemma SkipWarningCount(skippedChunks: nat)
    ensures var w := SkipWarning(skippedChunks);
      && |SkipWarningPrefix| <= |w| - |SkipWarningSuffix|
      && (forall i :: |SkipWarningPrefix| <= i < |w| - |SkipWarningSuffix| ==> IsDigit(w[i]))
      && ParseDecimal(w[|SkipWarningPrefix|..|w| - |SkipWarningSuffix|]) == skippedChunks
  {
    var w := SkipWarning(skippedChunks);
    var digits := NatToString(skippedChunks);
    assert w[|SkipWarningPrefix|..|w| - |SkipWarningSuffix|] == digits;
    NatToStringRoundTrip(skippedChunks);
  }

  // ---------------------------------------------------------------- output file name

  /** The name ends in `.pdf`, in any mix of letter case. */
  predicate HasPdfSuffix(name: string) {
    |name| >= 4 && AsciiLowerString(name[|name| - 4..]) == ".pdf"
  }

  /** `name.replace(/\.pdf$/i, '.mp3')`: only a `.pdf` at the very end is replaced. */
  function Mp3FileName(name: string): (r: string)
    ensures |r| == |name|
    ensures !HasPdfSuffix(r)
    ensures !HasPdfSuffix(name) ==> r == name
    ensures HasPdfSuffix(name) ==> r[..|r| - 4] == name[..|name| - 4] && r[|r| - 4..] == ".mp3"
  {
    if HasPdfSuffix(name) then
      var r := name[..|name| - 4] + ".mp3";
      assert AsciiLowerString(r[|r| - 4..])[1] == 'm';
      r
    else name
  }

  /** Any case of the extension is rewritten, and only the extension. */
  lemma PdfExtensionRewritten(stem: string, extension: string)
    requires |extension| == 4 && extension[0] == '.'
    requires AsciiLower(extension[1]) == 'p' && AsciiLower(extension[2]) == 'd' && AsciiLower(extension[3]) == 'f'
    ensures Mp3FileName(stem + extension) == stem + ".mp3"
  {
    var name := stem + extension;
    assert name[|name| - 4..] == extension;
    assert AsciiLowerString(extension) == ".pdf";
    assert name[..|name| - 4] == stem;
  }

  /** Rewriting twice is rewriting once. */
  lemma Mp3FileNameIdempotent(name: string)
    ensures Mp3FileName(Mp3FileName(name)) == Mp3FileName(name)
  {
  }

  // ---------------------------------------------------------------- component state

  datatype PdfFile = PdfFile(name: string, mimeType: string)

  /** What the component does to the world outside its own state. */
  datatype Effect =
    | Revoked(url: string)
    | Downloaded(url: string, fileName: string)
    | Chimed

  /** The values of every piece of the component's state at one moment. */
  datatype View = View(
    selectedVoice: string,
    selectedFile: Option<PdfFile>,
    isConverting: bool,
    progress: int,
    statusMessage: string,
    error: Option<string>,
    warning: Option<string>,
    downloadUrl: Option<string>,
    finalFileName: Option<string>,
    effects: seq<Effect>)

  /** JavaScript truthiness of a nullable string: present and not empty. */
  predicate Truthy(s: Option<string>) {
    s.Some? && s.value != ""
  }

  /** Everything a conversion consults besides the component's state. */
  datatype Environment = Environment(
    apiKey: Option<string>,
    extractText: PdfFile -> Result<string, Error>,
    service: GeminiService.Service,
    atob: AudioUtils.Atob,
    encode: AudioUtils.EncodeOracle,
    flush: AudioUtils.FlushOracle,
    createObjectUrl: AudioUtils.Blob -> string)

  // ---------------------------------------------------------------- the handlers, as functions

  /** `resetDownloadState`: revoke a live object URL, then forget it and the file name. */
  function ResetDownload(v: View): View {
    var effects := if Truthy(v.downloadUrl) then v.effects + [Revoked(v.downloadUrl.value)] else v.effects;
    v.(downloadUrl := None, finalFileName := None, effects := effects)
  }

  /** `handleFileChange`. */
  function FileChange(v: View, file: Option<PdfFile>): View {
    if file.Some? && file.value.mimeType != PdfMime then
      v.(error := Some(SelectPdfError), selectedFile := None)
    else
      ResetDownload(v.(error := None, selectedFile := file, warning := None))
  }

  /** `handleVoiceChange`. */
  function VoiceChange(v: View, voiceId: string): View {
    ResetDownload(v.(selectedVoice := voiceId))
  }

  /** `handleProgress` applied to every progress report of a conversion log, in order. */
  function ApplyReports(v: View, log: seq<GeminiService.Event>): View {
    if log == [] then v
    else
      var w := ApplyReports(v, log[..|log| - 1]);
      match log[|log| - 1]
      case Reported(p, m) => w.(progress := p, statusMessage := m)
      case Requested(_) => w
  }

  /** The `catch` and `finally` blocks: show the message (or a fallback), zero the progress. */
  function Caught(v: View, e: Error): View {
    v.(error := Some(if e.message == "" then ProcessingFailedError else e.message), progress := 0, isConverting := false)
  }

  /** Encoding the collected audio and offering the file (progress is already at 100). */
  function Encoded(v: View, file: PdfFile, audioPcmChunks: seq<seq<AudioUtils.byte>>, env: Environment): View {
    if AudioUtils.FirstOddChunk(audioPcmChunks) < |audioPcmChunks| then Caught(v, AudioUtils.Int16ViewError)
    else
      var blob := AudioUtils.Blob(Mp3BlobParts(audioPcmChunks, env), AudioUtils.MpegMime);
      var url := env.createObjectUrl(blob);
      var name := Mp3FileName(file.name);
      v.(downloadUrl := Some(url), finalFileName := Some(name), statusMessage := DownloadStartedStatus,
         effects := v.effects + [Downloaded(url, name), Chimed], isConverting := false)
  }

  /** The frames of the MP3 file made from the collected audio. */
  function Mp3BlobParts(audioPcmChunks: seq<seq<AudioUtils.byte>>, env: Environment): seq<seq<AudioUtils.byte>> {
    AudioUtils.Mp3Frames(AudioUtils.EncoderConfig(1, SampleRate, 128), env.encode, env.flush, AudioUtils.SampleBuffers(audioPcmChunks))
  }

  /**
   * From the return of `convertTextToAudio` to the end of the handler: a throw is caught, no
   * audio is an error, otherwise the warning is set, the bar goes to 100 and the file is made.
   */
  function Concluded(v: View, file: PdfFile, synthesis: Result<GeminiService.Synthesis, Error>, env: Environment): View {
    match synthesis
    case Err(e) => Caught(v, e)
    case Ok(s) =>
      if |s.audioPcmChunks| == 0 then v.(error := Some(NoAudioError), isConverting := false)
      else
        var warned := if s.skippedChunks > 0 then v.(warning := Some(SkipWarning(s.skippedChunks))) else v;
        Encoded(warned.(progress := 100, statusMessage := FinishingStatus), file, s.audioPcmChunks, env)
  }

  /** From the synthesis of non-blank text to the end of the handler. */
  function Synthesized(v: View, file: PdfFile, text: string, voiceId: string, env: Environment): View {
    var outcomes := GeminiService.ChunkOutcomes(env.service);
    var chunks := GeminiService.Chunks(text);
    var requested := GeminiService.ChunksRequested(outcomes, env.atob, |chunks|);
    var reported := ApplyReports(v, GeminiService.SliceLog(chunks, voiceId, requested));
    Concluded(reported, file, GeminiService.Synthesize(outcomes, env.atob, |chunks|), env)
  }

  /** The state once conversion has started and the download state has been reset. */
  function Started(v: View): View {
    ResetDownload(v.(isConverting := true, progress := 0, error := None, warning := None)).(statusMessage := ExtractingStatus)
  }

  /** The file and voice are chosen and the API key is set: the conversion starts. */
  predicate Admitted(v: View, env: Environment) {
    v.selectedFile.Some? && v.selectedVoice != "" && Truthy(env.apiKey)
  }

  /** `handleConvertClick`. */
  function ConvertClick(v: View, env: Environment): View {
    if v.selectedFile.None? || v.selectedVoice == "" then
      v.(error := Some(SelectFileAndVoiceError))
    else if !Truthy(env.apiKey) then
      v.(error := Some(MissingApiKeyError))
    else
      var started := Started(v);
      match env.extractText(v.selectedFile.value)
      case Err(e) => Caught(started, e)
      case Ok(text) =>
        if Trim(text) == [] then started.(error := Some(EmptyPdfError), isConverting := false)
        else Synthesized(started.(statusMessage := StartingStatus), v.selectedFile.value, text, v.selectedVoice, env)
  }

  // ---------------------------------------------------------------- properties of the handlers

  lemma {:induction false} ApplyReportsFrame(v: View, log: seq<GeminiService.Event>)
    ensures var w := ApplyReports(v, log); w == v.(progress := w.progress, statusMessage := w.statusMessage)
  {
    if log != [] {
      ApplyReportsFrame(v, log[..|log| - 1]);
    }
  }

  /**
   * After the first k slices were processed, the bar shows the last report: the progress of
   * slice k-1 and the message "Convertendo parte k de n...".
   */
  lemma ReportsAfterSlices(v: View, chunks: seq<string>, voiceId: string, k: nat)
    requires 0 < k <= |chunks|
    ensures ApplyReports(v, GeminiService.SliceLog(chunks, voiceId, k))
      == v.(progress := GeminiService.Progress(k - 1, |chunks|),
            statusMessage := GeminiService.ProgressMessage(k, |chunks|))
  {
    var before := GeminiService.SliceLog(chunks, voiceId, k - 1);
    var log := GeminiService.SliceLog(chunks, voiceId, k);
    assert log[..|log| - 1][..|log| - 2] == before;
    ApplyReportsFrame(v, before);
  }

  /** A missing file or voice only sets the error: nothing starts, nothing else changes. */
  lemma NothingStartsWithoutFileAndVoice(v: View, env: Environment)
    requires v.selectedFile.None? || v.selectedVoice == ""
    ensures ConvertClick(v, env) == v.(error := Some(SelectFileAndVoiceError))
  {
  }

  /** A missing API key only sets the error, before the component is marked as converting. */
  lemma NothingStartsWithoutApiKey(v: View, env: Environment)
    requires v.selectedFile.Some? && v.selectedVoice != "" && !Truthy(env.apiKey)
    ensures ConvertClick(v, env) == v.(error := Some(MissingApiKeyError))
  {
  }

  /**
   * Text that is empty or only whitespace is rejected before any slice is sent: the outcome is
   * the same whatever the speech service, the decoder and the encoder would have done.
   */
  lemma BlankTextStopsBeforeSynthesis(v: View, env: Environment, text: string, other: Environment)
    requires Admitted(v, env)
    requires env.extractText(v.selectedFile.value) == Ok(text) && IsBlank(text)
    requires other == env.(service := other.service, atob := other.atob, encode := other.encode,
                           flush := other.flush, createObjectUrl := other.createObjectUrl)
    ensures ConvertClick(v, env).error == Some(EmptyPdfError)
    ensures ConvertClick(v, env) == ConvertClick(v, other)
    ensures !ConvertClick(v, env).isConverting && ConvertClick(v, env).progress == 0
  {
    TrimEmptyIffBlank(text);
  }

  /**
   * When every slice came back without audio, the distinct error is shown and no file is
   * made or offered: the encoder and `createObjectURL` are never consulted. The bar keeps the
   * last slice's progress, 95.
   */
  lemma NoAudioStopsBeforeEncoding(v: View, env: Environment, text: string, other: Environment)
    requires Admitted(v, env)
    requires env.extractText(v.selectedFile.value) == Ok(text) && !IsBlank(text)
    requires var s := GeminiService.Synthesize(GeminiService.ChunkOutcomes(env.service), env.atob, |GeminiService.Chunks(text)|);
      s.Ok? && s.value.audioPcmChunks == []
    requires other == env.(encode := other.encode, flush := other.flush, createObjectUrl := other.createObjectUrl)
    ensures var w := ConvertClick(v, env);
      && w.error == Some(NoAudioError)
      && w.downloadUrl == None && w.finalFileName == None
      && w.effects == ResetDownload(v).effects
      && w.warning == None
      && w.progress == GeminiService.ConversionShare
      && !w.isConverting
    ensures ConvertClick(v, env) == ConvertClick(v, other)
  {
    TrimEmptyIffBlank(text);
    var chunks := GeminiService.Chunks(text);
    GeminiService.ChunksCount(text);
    var n := |chunks|;
    ReportsAfterSlices(Started(v).(statusMessage := StartingStatus), chunks, v.selectedVoice, n);
    GeminiService.ProgressLast(n);
  }

  /**
   * The conversion of `file` runs to the end: the text was read and is not blank, every slice
   * was synthesized without a throw, at least one slice produced audio and every audio buffer
   * has an even number of bytes.
   */
  predicate ConversionCompletes(file: PdfFile, voiceId: string, env: Environment) {
    match env.extractText(file)
    case Err(_) => false
    case Ok(text) =>
      && !IsBlank(text)
      && var s := GeminiService.Synthesize(GeminiService.ChunkOutcomes(env.service), env.atob, |GeminiService.Chunks(text)|);
      && s.Ok?
      && s.value.audioPcmChunks != []
      && AudioUtils.FirstOddChunk(s.value.audioPcmChunks) == |s.value.audioPcmChunks|
  }

  /** Once the conversion is admitted, a download is offered exactly when the conversion completes. */
  lemma DownloadOfferedIffCompleted(v: View, env: Environment)
    requires Admitted(v, env)
    ensures ConvertClick(v, env).downloadUrl.Some? <==> ConversionCompletes(v.selectedFile.value, v.selectedVoice, env)
  {
    match env.extractText(v.selectedFile.value)
    case Err(_) =>
    case Ok(text) =>
      TrimEmptyIffBlank(text);
      if !IsBlank(text) {
        match GeminiService.Synthesize(GeminiService.ChunkOutcomes(env.service), env.atob, |GeminiService.Chunks(text)|)
        case Err(e) => SynthesisErrorCaught(v, env, text, e);
        case Ok(s) =>
          if s.audioPcmChunks == [] {
            NoAudioStopsBeforeEncoding(v, env, text, env);
          } else if AudioUtils.FirstOddChunk(s.audioPcmChunks) < |s.audioPcmChunks| {
            OddAudioBufferCaught(v, env, text, s);
          } else {
            CompletedConversionOffersMp3(v, env, text, s);
          }
      }
  }

  /**
   * A completed conversion offers the MP3 made from the collected audio, under the rewritten
   * name, with the bar at 100 and no error; the warning names the skipped slices when there
   * were any.
   */
  lemma CompletedConversionOffersMp3(v: View, env: Environment, text: string, s: GeminiService.Synthesis)
    requires Admitted(v, env)
    requires env.extractText(v.selectedFile.value) == Ok(text) && !IsBlank(text)
    requires GeminiService.Synthesize(GeminiService.ChunkOutcomes(env.service), env.atob, |GeminiService.Chunks(text)|) == Ok(s)
    requires s.audioPcmChunks != [] && AudioUtils.FirstOddChunk(s.audioPcmChunks) == |s.audioPcmChunks|
    ensures var w := ConvertClick(v, env);
      var url := env.createObjectUrl(AudioUtils.Blob(Mp3BlobParts(s.audioPcmChunks, env), AudioUtils.MpegMime));
      var name := Mp3FileName(v.selectedFile.value.name);
      && w.downloadUrl == Some(url)
      && w.finalFileName == Some(name)
      && w.effects == ResetDownload(v).effects + [Downloaded(url, name), Chimed]
      && w.error == None
      && w.progress == 100
      && w.statusMessage == DownloadStartedStatus
      && w.warning == (if s.skippedChunks > 0 then Some(SkipWarning(s.skippedChunks)) else None)
      && !w.isConverting
  {
    TrimEmptyIffBlank(text);
    var file := v.selectedFile.value;
    var before := Started(v).(statusMessage := StartingStatus);
    assert ConvertClick(v, env) == Synthesized(before, file, text, v.selectedVoice, env);
    var outcomes := GeminiService.ChunkOutcomes(env.service);
    var chunks := GeminiService.Chunks(text);
    var requested := GeminiService.ChunksRequested(outcomes, env.atob, |chunks|);
    var reported := ApplyReports(before, GeminiService.SliceLog(chunks, v.selectedVoice, requested));
    ApplyReportsFrame(before, GeminiService.SliceLog(chunks, v.selectedVoice, requested));
    var warned := if s.skippedChunks > 0 then reported.(warning := Some(SkipWarning(s.skippedChunks))) else reported;
    assert Synthesized(before, file, text, v.selectedVoice, env) == Encoded(warned.(progress := 100, statusMessage := FinishingStatus), file, s.audioPcmChunks, env);
  }

  /** A throw while reading the PDF is shown (or the fallback) and the progress goes to 0. */
  lemma ExtractionErrorCaught(v: View, env: Environment, e: Error)
    requires Admitted(v, env)
    requires env.extractText(v.selectedFile.value) == Err(e)
    ensures var w := ConvertClick(v, env);
      && w.error == Some(if e.message == "" then ProcessingFailedError else e.message)
      && w.progress == 0 && w.downloadUrl == None && !w.isConverting
  {
  }

  /**
   * A throw that escapes the slice loop is shown (or the fallback) and the progress goes to 0;
   * the status keeps the report of the slice that threw.
   */
  lemma SynthesisErrorCaught(v: View, env: Environment, text: string, e: Error)
    requires Admitted(v, env)
    requires env.extractText(v.selectedFile.value) == Ok(text) && !IsBlank(text)
    requires GeminiService.Synthesize(GeminiService.ChunkOutcomes(env.service), env.atob, |GeminiService.Chunks(text)|) == Err(e)
    ensures var w := ConvertClick(v, env);
      var k := GeminiService.ChunksRequested(GeminiService.ChunkOutcomes(env.service), env.atob, |GeminiService.Chunks(text)|);
      && w.error == Some(if e.message == "" then ProcessingFailedError else e.message)
      && w.progress == 0 && w.downloadUrl == None && !w.isConverting
      && w.statusMessage == GeminiService.ProgressMessage(k, |GeminiService.Chunks(text)|)
  {
    TrimEmptyIffBlank(text);
    var file := v.selectedFile.value;
    var before := Started(v).(statusMessage := StartingStatus);
    assert ConvertClick(v, env) == Synthesized(before, file, text, v.selectedVoice, env);
    var chunks := GeminiService.Chunks(text);
    var k := GeminiService.ChunksRequested(GeminiService.ChunkOutcomes(env.service), env.atob, |chunks|);
    ReportsAfterSlices(before, chunks, v.selectedVoice, k);
    var reported := ApplyReports(before, GeminiService.SliceLog(chunks, v.selectedVoice, k));
    assert Synthesized(before, file, text, v.selectedVoice, env) == Caught(reported, e);
  }

  /**
   * An audio buffer of odd length makes the encoder's input view throw: the error is shown,
   * the progress goes from 100 back to 0 and no file is offered.
   */
  lemma OddAudioBufferCaught(v: View, env: Environment, text: string, s: GeminiService.Synthesis)
    requires Admitted(v, env)
    requires env.extractText(v.selectedFile.value) == Ok(text) && !IsBlank(text)
    requires GeminiService.Synthesize(GeminiService.ChunkOutcomes(env.service), env.atob, |GeminiService.Chunks(text)|) == Ok(s)
    requires s.audioPcmChunks != [] && AudioUtils.FirstOddChunk(s.audioPcmChunks) < |s.audioPcmChunks|
    ensures var w := ConvertClick(v, env);
      && w.error == Some(AudioUtils.Int16ViewError.message)
      && w.progress == 0 && w.downloadUrl == None && !w.isConverting
      && w.statusMessage == FinishingStatus
  {
    TrimEmptyIffBlank(text);
    var file := v.selectedFile.value;
    var before := Started(v).(statusMessage := StartingStatus);
    assert ConvertClick(v, env) == Synthesized(before, file, text, v.selectedVoice, env);
    var outcomes := GeminiService.ChunkOutcomes(env.service);
    var chunks := GeminiService.Chunks(text);
    var requested := GeminiService.ChunksRequested(outcomes, env.atob, |chunks|);
    var reported := ApplyReports(before, GeminiService.SliceLog(chunks, v.selectedVoice, requested));
    ApplyReportsFrame(before, GeminiService.SliceLog(chunks, v.selectedVoice, requested));
    var warned := if s.skippedChunks > 0 then reported.(warning := Some(SkipWarning(s.skippedChunks))) else reported;
    assert Synthesized(before, file, text, v.selectedVoice, env) == Caught(warned.(progress := 100, statusMessage := FinishingStatus), AudioUtils.Int16ViewError);
  }

  /** The handler never leaves the component converting, and the bar stays within 0..100. */
  lemma ConvertClickSettles(v: View, env: Environment)
    requires !v.isConverting && 0 <= v.progress <= 100
    ensures !ConvertClick(v, env).isConverting
    ensures 0 <= ConvertClick(v, env).progress <= 100
  {
    if Admitted(v, env) {
      match env.extractText(v.selectedFile.value)
      case Err(e) => ExtractionErrorCaught(v, env, e);
      case Ok(text) =>
        if IsBlank(text) {
          BlankTextStopsBeforeSynthesis(v, env, text, env);
        } else {
          match GeminiService.Synthesize(GeminiService.ChunkOutcomes(env.service), env.atob, |GeminiService.Chunks(text)|)
          case Err(e) => SynthesisErrorCaught(v, env, text, e);
          case Ok(s) =>
            if s.audioPcmChunks == [] {
              NoAudioStopsBeforeEncoding(v, env, text, env);
            } else if AudioUtils.FirstOddChunk(s.audioPcmChunks) < |s.audioPcmChunks| {
              OddAudioBufferCaught(v, env, text, s);
            } else {
              CompletedConversionOffersMp3(v, env, text, s);
            }
        }
    }
  }

  /**
   * Choosing a file of another type shows the error and clears the selection, leaving the
   * download alone; choosing a PDF, or clearing the choice, clears the error and the warning,
   * revokes a live object URL and forgets it and the output name.
   */
  lemma FileChangeOutcome(v: View, file: Option<PdfFile>)
    ensures var w := FileChange(v, file);
      if file.Some? && file.value.mimeType != PdfMime then
        && w.error == Some(SelectPdfError) && w.selectedFile == None
        && w.downloadUrl == v.downloadUrl && w.finalFileName == v.finalFileName && w.effects == v.effects
      else
        && w.error == None && w.warning == None && w.selectedFile == file
        && w.downloadUrl == None && w.finalFileName == None
        && w.effects == v.effects + (if Truthy(v.downloadUrl) then [Revoked(v.downloadUrl.value)] else [])
  {
  }

  // ---------------------------------------------------------------- the component

  class AppState {
    var selectedVoice: string
    var selectedFile: Option<PdfFile>
    var isConverting: bool
    var progress: int
    var statusMessage: string
    var error: Option<string>
    var warning: Option<string>
    var downloadUrl: Option<string>
    var finalFileName: Option<string>
    var effects: seq<Effect>

    ghost function Snapshot(): View
      reads this
    {
      View(selectedVoice, selectedFile, isConverting, progress, statusMessage, error, warning,
           downloadUrl, finalFileName, effects)
    }

    /** The progress bar reads a percentage. */
    ghost predicate Valid()
      reads this
    {
      0 <= progress <= 100
    }

    /** The initial state of the component: the first voice chosen, nothing else. */
    constructor ()
      ensures Valid()
      ensures Snapshot() == View(DefaultVoice, None, false, 0, "", None, None, None, None, [])
    {
      selectedVoice := DefaultVoice;
      selectedFile := None;
      isConverting := false;
      progress := 0;
      statusMessage := "";
      error := None;
      warning := None;
      downloadUrl := None;
      finalFileName := None;
      effects := [];
    }

    method ResetDownloadState()
      requires Valid()
      modifies this
      ensures Snapshot() == ResetDownload(old(Snapshot()))
      ensures Valid()
    {
      if downloadUrl.Some? && downloadUrl.value != "" {
        effects := effects + [Revoked(downloadUrl.value)];
      }
      downloadUrl := None;
      finalFileName := None;
    }

    method HandleFileChange(file: Option<PdfFile>)
      requires Valid()
      modifies this
      ensures Snapshot() == FileChange(old(Snapshot()), file)
      ensures Valid()
    {
      if file.Some? && file.value.mimeType != PdfMime {
        error := Some(SelectPdfError);
        selectedFile := None;
        return;
      }
      error := None;
      selectedFile := file;
      warning := None;
      ResetDownloadState();
    }

    method HandleVoiceChange(voiceId: string)
      requires Valid()
      modifies this
      ensures Snapshot() == VoiceChange(old(Snapshot()), voiceId)
      ensures Valid()
    {
      selectedVoice := voiceId;
      ResetDownloadState();
    }

    method HandleProgress(p: int, message: string)
      modifies this
      ensures Snapshot() == old(Snapshot()).(progress := p, statusMessage := message)
      ensures 0 <= p <= 100 ==> Valid()
    {
      progress := p;
      statusMessage := message;
    }

    /** The progress callback, invoked once for each report the conversion made. */
    method ReplayProgress(log: seq<GeminiService.Event>)
      modifies this
      ensures Snapshot() == ApplyReports(old(Snapshot()), log)
    {
      for i := 0 to |log|
        invariant Snapshot() == ApplyReports(old(Snapshot()), log[..i])
      {
        assert log[..i + 1][..i] == log[..i];
        if log[i].Reported? {
          HandleProgress(log[i].progress, log[i].message);
        }
      }
      assert log[..|log|] == log;
    }

    /** The `catch` and `finally` blocks of the conversion. */
    method Catch(e: Error)
      modifies this
      ensures Snapshot() == Caught(old(Snapshot()), e)
      ensures Valid()
    {
      error := Some(if e.message == "" then ProcessingFailedError else e.message);
      progress := 0;
      isConverting := false;
    }

    method HandleConvertClick(env: Environment)
      requires Valid() && !isConverting
      modifies this
      ensures Snapshot() == ConvertClick(old(Snapshot()), env)
      ensures Valid() && !isConverting
    {
      ghost var v := Snapshot();
      ConvertClickSettles(v, env);
      if selectedFile.None? || selectedVoice == "" {
        error := Some(SelectFileAndVoiceError);
        return;
      }
      var apiKey := env.apiKey;
      if apiKey.None? || apiKey.value == "" {
        error := Some(MissingApiKeyError);
        return;
      }
      var file := selectedFile.value;
      isConverting := true;
      progress := 0;
      error := None;
      warning := None;
      ResetDownloadState();
      statusMessage := ExtractingStatus;
      assert Snapshot() == Started(v);
      var extracted := env.extractText(file);
      if extracted.Err? {
        Catch(extracted.error);
        return;
      }
      var extractedText := extracted.value;
      if Trim(extractedText) == [] {
        error := Some(EmptyPdfError);
        isConverting := false;
        return;
      }
      statusMessage := StartingStatus;
      ConvertText(file, extractedText, env);
    }

    /** The handler from the call of `convertTextToAudio` on. */
    method ConvertText(file: PdfFile, extractedText: string, env: Environment)
      modifies this
      ensures Snapshot() == Synthesized(old(Snapshot()), file, extractedText, old(selectedVoice), env)
    {
      var result, log := GeminiService.ConvertTextToAudio(extractedText, selectedVoice, env.service, env.atob);
      ReplayProgress(log);
      Conclude(file, result, env);
    }

    /** The handler from the return of `convertTextToAudio` on. */
    method Conclude(file: PdfFile, result: Result<GeminiService.Synthesis, Error>, env: Environment)
      modifies this
      ensures Snapshot() == Concluded(old(Snapshot()), file, result, env)
    {
      if result.Err? {
        Catch(result.error);
        return;
      }
      var synthesis := result.value;
      if |synthesis.audioPcmChunks| == 0 {
        error := Some(NoAudioError);
        isConverting := false;
        return;
      }
      if synthesis.skippedChunks > 0 {
        warning := Some(SkipWarning(synthesis.skippedChunks));
      }
      HandleProgress(100, FinishingStatus);
      EncodeAndOffer(file, synthesis.audioPcmChunks, env);
    }

    /** The handler from the call of `createMp3File` on. */
    method EncodeAndOffer(file: PdfFile, audioPcmChunks: seq<seq<AudioUtils.byte>>, env: Environment)
      modifies this
      ensures Snapshot() == Encoded(old(Snapshot()), file, audioPcmChunks, env)
    {
      var mp3Blob, encoder := AudioUtils.CreateMp3File(audioPcmChunks, SampleRate, env.encode, env.flush);
      if mp3Blob.Err? {
        Catch(mp3Blob.error);
        return;
      }
      assert mp3Blob.value == AudioUtils.Blob(Mp3BlobParts(audioPcmChunks, env), AudioUtils.MpegMime);
      var newFileName := Mp3FileName(file.name);
      var audioUrl := env.createObjectUrl(mp3Blob.value);
      downloadUrl := Some(audioUrl);
      finalFileName := Some(newFileName);
      statusMessage := DownloadStartedStatus;
      effects := effects + [Downloaded(audioUrl, newFileName)];
      effects := effects + [Chimed];
      isConverting := false;
      assert effects == old(effects) + [Downloaded(audioUrl, newFileName), Chimed];
    }
  }
}
