/**
 * The job worker `runJob` (src/routes/jobs.js) as one function of its inputs:
 * the asset, the job's context and what the outside world does (which tools
 * exist, whether they succeed, what the language model replies, what the
 * shell prints). The stages follow each other as in the source: slides,
 * script, narration, captions, timing, encoding; the first fatal error ends
 * the run and its message is the failure.
 */
module Worker {
  import opened JsText
  import opened Script
  import opened Captions
  import opened Timing
  import opened Narration

  /** An asset row as the worker reads it; `kind` is the `type` column. */
  datatype Asset = Asset(id: string, owner: string, kind: string, path: string)

  /** The context `runJob` is given by the create route. */
  datatype Ctx = Ctx(jobDir: string, outDir: string, outputPath: string, logsPath: string,
                     duration: Option<int>, dialogue: Option<string>)

  /** What `callOllama` does: a reply with a `response` text, a reply without one, or a thrown error. */
  datatype OllamaReply = Replied(text: string) | NoResponse | CallFailed(message: string)

  /**
   * The outside world during one run: whether `pdftoppm`, `pdftotext` and
   * `espeak-ng` are installed, whether rasterising or copying succeeded, the
   * `OLLAMA_BASE` and `OLLAMA_MODEL` settings, the model's reply, the shell
   * oracle of the narration step, the job directory's listing when the slides
   * are counted, whether ffmpeg left the video behind and its size.
   */
  datatype Env = Env(
    hasPdftoppm: bool, rasterOk: bool, copyOk: bool, hasPdftotext: bool,
    ollamaBase: Option<string>, ollamaModel: Option<string>, ollama: OllamaReply,
    hasEspeak: bool, run: Command -> ToolRun,
    jobFiles: seq<string>, outputExists: bool, outputSize: nat)

  const NoPdftoppm := "pdftoppm not found (install poppler-utils)"
  const RasterFailed := "pdf->images failed"
  const CopyFailed := "copy image failed"
  const EncodeFailed := "ffmpeg failed to produce output"
  /** Node's message when `fs.writeFileSync` is handed `undefined` as the data. */
  const ScriptNotText := "The \"data\" argument must be of type string or an instance of Buffer, TypedArray, or DataView. Received undefined"
  const NoPdftotext := "WARN: pdftotext not found; using fallback summary prompt."
  const FallbackScript := "Welcome to NoteFlix. This is an automatically generated study summary. Please review your notes and key definitions."
  const ImageScript := "This video animates your uploaded slide. Add more pages for a richer episode."
  const DefaultBase := "http://localhost:11434"
  const DefaultModel := "llama3"
  const DoneLine := "JOB DONE"

  /** `process.env.X || d`: an unset or empty setting means `d`. */
  function Setting(v: Option<string>, d: string): string {
    if v.None? || v.value == "" then d else v.value
  }

  /** The log line written before the model is called. */
  function CallingLine(env: Env): string {
    "Calling Ollama at " + Setting(env.ollamaBase, DefaultBase) + " with model " + Setting(env.ollamaModel, DefaultModel) + " ..."
  }

  /** The script stage: the log lines it writes and the script text, `None` when it is `undefined`. */
  datatype ScriptStage = ScriptStage(lines: seq<string>, script: Option<string>)

  function MakeScript(isPdf: bool, env: Env): ScriptStage {
    if !isPdf then ScriptStage([], Some(ImageScript))
    else
      var warn := if env.hasPdftotext then [] else [NoPdftotext];
      var lines := warn + [CallingLine(env)];
      match env.ollama
      case Replied(text) => ScriptStage(lines, Some(text))
      case NoResponse => ScriptStage(lines, None)
      case CallFailed(msg) => ScriptStage(lines + ["Ollama call failed: " + msg], Some(FallbackScript))
  }

  /** The file the script is saved to, as it came. */
  function ScriptPath(ctx: Ctx): string {
    PathJoin(ctx.jobDir, "script.txt")
  }

  /** The file of the cleaned text that the solo voice reads. */
  function TtsPath(ctx: Ctx): string {
    PathJoin(ctx.jobDir, "tts.txt")
  }

  function CaptionsPath(ctx: Ctx): string {
    PathJoin(ctx.jobDir, "captions.vtt")
  }

  /** The two files written once the script is text: the script itself, then its text for speech. */
  function ScriptFiles(ctx: Ctx, script: string): seq<Effect> {
    [Write(ScriptPath(ctx), script), Write(TtsPath(ctx), CleanForSpeech(script))]
  }

  /** The narration step chosen by `dialogue`: the duet for `"duet"`, the solo voice reading `tts.txt` otherwise. */
  function Narrate(ctx: Ctx, env: Env, script: string): NarrationRun {
    if ctx.dialogue == Some("duet") then DuetOutcome(env.hasEspeak, ctx.jobDir, script, env.run)
    else SoloOutcome(env.hasEspeak, ctx.jobDir, TtsPath(ctx), env.run)
  }

  /** How a run ends: with the video, or with the message of the error that stopped it. */
  datatype Outcome =
    | Produced(script: string, audio: Option<string>, captions: string, timing: SlideTiming)
    | Aborted(message: string)

  /** The log lines the worker writes itself, before its last line, and how the run ends. */
  datatype WorkerRun = WorkerRun(lines: seq<string>, outcome: Outcome)

  function RunWorker(asset: Asset, ctx: Ctx, env: Env): WorkerRun {
    var isPdf := asset.kind == "pdf";
    if isPdf && !env.hasPdftoppm then WorkerRun([], Aborted(NoPdftoppm))
    else if isPdf && !env.rasterOk then WorkerRun([], Aborted(RasterFailed))
    else if !isPdf && !env.copyOk then WorkerRun([], Aborted(CopyFailed))
    else
      var st := MakeScript(isPdf, env);
      if st.script.None? then WorkerRun(st.lines, Aborted(ScriptNotText))
      else
        var script := st.script.value;
        var narration := Narrate(ctx, env, script).result;
        var lines := st.lines + [narration.log];
        if !env.outputExists then WorkerRun(lines, Aborted(EncodeFailed))
        else WorkerRun(lines, Produced(script, narration.path, CaptionTrack(script), PlanTiming(ctx.duration, env.jobFiles)))
  }

  /** The run gets past the slides and has a script to save. */
  predicate ReachesScript(asset: Asset, env: Env) {
    var isPdf := asset.kind == "pdf";
    (if isPdf then env.hasPdftoppm && env.rasterOk else env.copyOk) && MakeScript(isPdf, env).script.Some?
  }

  /**
   * The text files a run writes into its job directory and the commands of
   * its narration step, in the order the run performs them. The slide images,
   * the model call and ffmpeg are not part of it.
   */
  function RunTrace(asset: Asset, ctx: Ctx, env: Env): seq<Effect> {
    if !ReachesScript(asset, env) then []
    else ScriptTrace(ctx, env, MakeScript(asset.kind == "pdf", env).script.value)
  }

  /** What a run does with its script: save it, narrate it and write its captions. */
  function ScriptTrace(ctx: Ctx, env: Env, script: string): seq<Effect> {
    ScriptFiles(ctx, script) + Narrate(ctx, env, script).trace + [Write(CaptionsPath(ctx), CaptionTrack(script))]
  }

  /** The log line that closes a run. */
  function LastLine(o: Outcome): string {
    if o.Produced? then DoneLine else "FAILED: " + o.message
  }

  /** Everything the run appends to the job's log, in order. */
  function RunLog(asset: Asset, ctx: Ctx, env: Env): seq<string> {
    var w := RunWorker(asset, ctx, env);
    w.lines + [LastLine(w.outcome)]
  }

  // ---------- properties ----------

  /**
   * The run produces the video exactly when the slides were made, the script
   * is text and ffmpeg left the output file; otherwise the first failing stage
   * names the error.
   */
  lemma WorkerOutcomes(asset: Asset, ctx: Ctx, env: Env)
    ensures var isPdf := asset.kind == "pdf"; var o := RunWorker(asset, ctx, env).outcome;
      && (o.Produced? <==>
            && (if isPdf then env.hasPdftoppm && env.rasterOk else env.copyOk)
            && MakeScript(isPdf, env).script.Some?
            && env.outputExists)
      && (isPdf && !env.hasPdftoppm ==> o == Aborted(NoPdftoppm))
      && (isPdf && env.hasPdftoppm && !env.rasterOk ==> o == Aborted(RasterFailed))
      && (!isPdf && !env.copyOk ==> o == Aborted(CopyFailed))
  {
  }

  /** An image asset is narrated from the fixed one-slide script, and its script stage cannot fail. */
  lemma ImageScriptUsed(asset: Asset, ctx: Ctx, env: Env)
    requires asset.kind != "pdf" && env.copyOk && env.outputExists
    ensures RunWorker(asset, ctx, env).outcome.Produced?
    ensures RunWorker(asset, ctx, env).outcome.script == ImageScript
  {
  }

  /**
   * Only a reply without `response` makes the script stage fail; a failed call
   * is logged with its message and replaced by the fallback summary.
   */
  lemma ScriptFallback(env: Env)
    ensures MakeScript(true, env).script.None? <==> env.ollama.NoResponse?
    ensures env.ollama.CallFailed? ==>
      && MakeScript(true, env).script == Some(FallbackScript)
      && MakeScript(true, env).lines[|MakeScript(true, env).lines| - 1] == "Ollama call failed: " + env.ollama.message
    ensures var lines := MakeScript(true, env).lines;
      && (!env.hasPdftotext ==> lines[0] == NoPdftotext && lines[1] == CallingLine(env))
      && (env.hasPdftotext ==> lines[0] == CallingLine(env))
  {
  }

  /**
   * Narration is optional: the tools of the narration step and what they do
   * never change how the run ends or the script of the video (and hence, by
   * `ProducedParts`, its captions and timing), only whether it has a sound
   * track.
   */
  lemma NarrationNeverFails(asset: Asset, ctx: Ctx, env: Env, hasEspeak: bool, run: Command -> ToolRun)
    ensures var o1 := RunWorker(asset, ctx, env).outcome;
      var o2 := RunWorker(asset, ctx, env.(hasEspeak := hasEspeak, run := run)).outcome;
      && o1.Produced? == o2.Produced?
      && (o1.Aborted? ==> o1 == o2)
      && (o1.Produced? ==> o1.script == o2.script)
  {
    var env2 := env.(hasEspeak := hasEspeak, run := run);
    assert MakeScript(asset.kind == "pdf", env2) == MakeScript(asset.kind == "pdf", env);
  }

  /** A produced video carries the captions of its script and the slide timing of the requested duration. */
  lemma ProducedParts(asset: Asset, ctx: Ctx, env: Env)
    requires RunWorker(asset, ctx, env).outcome.Produced?
    ensures var o := RunWorker(asset, ctx, env).outcome;
      && o.captions == CaptionTrack(o.script)
      && o.timing == PlanTiming(ctx.duration, env.jobFiles)
      && o.audio == Narrate(ctx, env, o.script).result.path
  {
  }

  /** The log ends with `JOB DONE` exactly for a produced video, and otherwise with `FAILED: ` and the error. */
  lemma LastLogLine(asset: Asset, ctx: Ctx, env: Env)
    ensures var log := RunLog(asset, ctx, env); var o := RunWorker(asset, ctx, env).outcome;
      && |log| >= 1
      && (log[|log| - 1] == DoneLine <==> o.Produced?)
      && (o.Aborted? ==> log[|log| - 1] == "FAILED: " + o.message)
  {
    var o := RunWorker(asset, ctx, env).outcome;
    if o.Aborted? {
      assert ("FAILED: " + o.message)[0] == 'F';
      assert DoneLine[0] == 'J';
    }
  }

  /**
   * A run writes something exactly when it gets to its script, and then it
   * does with its script what `ScriptTrace` says; every produced video got
   * that far.
   */
  lemma TraceCases(asset: Asset, ctx: Ctx, env: Env)
    ensures RunTrace(asset, ctx, env) == [] <==> !ReachesScript(asset, env)
    ensures ReachesScript(asset, env) ==>
      RunTrace(asset, ctx, env) == ScriptTrace(ctx, env, MakeScript(asset.kind == "pdf", env).script.value)
    ensures RunWorker(asset, ctx, env).outcome.Produced? ==> ReachesScript(asset, env)
  {
    if ReachesScript(asset, env) {
      assert |RunTrace(asset, ctx, env)| >= 3;
    }
  }

  /**
   * The run writes the script and its cleaned text first, then does what the
   * narration step does, and writes the captions of the script last, whether
   * or not ffmpeg succeeds afterwards.
   */
  lemma TraceOrder(ctx: Ctx, env: Env, s: string)
    ensures var e := ScriptTrace(ctx, env, s);
      && |e| >= 3
      && e[0] == Write(ScriptPath(ctx), s)
      && e[1] == Write(TtsPath(ctx), CleanForSpeech(s))
      && e[2..|e| - 1] == Narrate(ctx, env, s).trace
      && e[|e| - 1] == Write(CaptionsPath(ctx), CaptionTrack(s))
  {
    var t := Narrate(ctx, env, s).trace;
    var e := ScriptTrace(ctx, env, s);
    assert e == ScriptFiles(ctx, s) + t + [Write(CaptionsPath(ctx), CaptionTrack(s))];
    assert e[2..|e| - 1] == t;
  }

  /**
   * The solo voice reads the cleaned script: espeak-ng is run on `tts.txt`
   * right after the run wrote there the script with no carriage return, line
   * break or tab, no two spaces in a row and no whitespace at either end.
   */
  lemma SoloReadsCleanScript(ctx: Ctx, env: Env, s: string)
    requires ctx.dialogue != Some("duet") && env.hasEspeak
    ensures var e := ScriptTrace(ctx, env, s);
      && |e| == 4
      && e[1] == Write(TtsPath(ctx), CleanForSpeech(s))
      && e[2] == Run(Speak(SoloVoice, 8, NarrationWav(ctx.jobDir), TtsPath(ctx)))
      && IsSpeechClean(e[1].content)
  {
    TraceOrder(ctx, env, s);
    CleanIsClean(s);
  }
}
