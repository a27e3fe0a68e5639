/**
 * The narration step of the worker (src/routes/jobs.js): `synthSolo` reads the
 * cleaned script with one voice, `synthDuet` reads each duet segment with its
 * speaker's voice, puts a short pause after each and joins the pieces with
 * an ffmpeg concat list. A duet gets narration only if every segment and the
 * final concat produced their files.
 *
 * The shell is an oracle `run` from a command to its outcome: what it printed
 * on stderr and whether the file the command writes exists afterwards. A
 * command is kept as its parts; `CommandLine` renders the line `sh` is given.
 * What the step writes and runs, in order, is recorded as a trace of effects.
 */
module Narration {
  import opened JsText
  import opened Script
  import opened Speech

  /** The outcome of one shell command. */
  datatype ToolRun = ToolRun(stderr: string, produced: bool)

  /** One thing the step does to the outside world. */
  datatype Effect = Write(path: string, content: string) | Run(command: Command)

  /** What `synthSolo` and `synthDuet` return: the narration file, if any, and a log text. */
  datatype Narration = Narration(path: Option<string>, log: string)

  datatype NarrationRun = NarrationRun(result: Narration, trace: seq<Effect>)

  const NoEspeakSolo := "INFO: espeak-ng not found; proceeding captions-only."
  const SoloFailed := "WARN: TTS failed; proceeding without narration."
  const NoEspeakDuet := "INFO: espeak-ng not found; duet captions-only."
  const DuetTtsFailed := "WARN: duet TTS failed; captions-only."
  const ConcatFailed := "WARN: concat failed; duet captions-only."

  // ---------- file names ----------

  /** `path.join(dir, name)`, without the normalisation of `.` and `..`. */
  function PathJoin(dir: string, name: string): string {
    dir + "/" + name
  }

  /** `String(i + 1).padStart(3, "0")`: the one-based segment number, three digits at least. */
  function SegNumber(i: nat): string {
    PadStart(NatToString(i + 1), 3, '0')
  }

  function SegWav(dir: string, i: nat): string {
    PathJoin(dir, "seg-" + SegNumber(i) + ".wav")
  }

  function SegTxt(dir: string, i: nat): string {
    PathJoin(dir, "seg-" + SegNumber(i) + ".txt")
  }

  function SilWav(dir: string, i: nat): string {
    PathJoin(dir, "sil-" + SegNumber(i) + ".wav")
  }

  function NarrationWav(dir: string): string {
    PathJoin(dir, "narration.wav")
  }

  function ConcatList(dir: string): string {
    PathJoin(dir, "concat.txt")
  }

  // ---------- commands ----------

  datatype Voice = Voice(name: string, speed: nat, pitch: nat)

  /** The solo narrator. */
  const SoloVoice := Voice("en+f3", 150, 45)

  /** The duet voices: Alex a female voice, Sam a male one, with their own pace and pitch. */
  function VoiceOf(s: Speaker): Voice {
    match s
    case Alex => Voice("en+f3", 145, 48)
    case Sam => Voice("en+m3", 148, 42)
  }

  /** The three shell commands of the step. */
  datatype Command =
    | Speak(voice: Voice, gap: nat, wav: string, txt: string)
    | Silence(pad: string)
    | Concat(list: string, out: string)

  /**
   * The command line: espeak-ng reading `txt` into `wav` at amplitude 140 with
   * a word gap of `gap`; ffmpeg writing 0.20 s of mono silence; ffmpeg joining
   * the files of the list into one 44.1 kHz mono 16-bit wav.
   */
  function CommandLine(c: Command): string {
    match c
    case Speak(v, gap, wav, txt) =>
      "espeak-ng -v " + v.name + " -s " + NatToString(v.speed) + " -p " + NatToString(v.pitch)
        + " -a 140 -g " + NatToString(gap) + " -w \"" + wav + "\" -f \"" + txt + "\""
    case Silence(pad) =>
      "ffmpeg -y -f lavfi -i anullsrc=r=44100:cl=mono -t 0.20 \"" + pad + "\" >/dev/null 2>&1"
    case Concat(list, out) =>
      "ffmpeg -y -f concat -safe 0 -i \"" + list + "\" -ar 44100 -ac 1 -c:a pcm_s16le \"" + out + "\""
  }

  function ConcatCommand(dir: string): Command {
    Concat(ConcatList(dir), NarrationWav(dir))
  }

  // ---------- the concat list ----------

  /** `f.replace(/'/g, "'\\''")`: a quote inside a single-quoted name closes, escapes and reopens. */
  function EscapeQuotes(f: string): string {
    ReplaceChar(f, '\'', "'\\''")
  }

  /** The reading of an escaped name: each `'\''` stands for one quote. */
  function UnescapeQuotes(e: string): string {
    if |e| == 0 then ""
    else if |e| >= 4 && e[..4] == "'\\''" then "'" + UnescapeQuotes(e[4..])
    else [e[0]] + UnescapeQuotes(e[1..])
  }

  /** One line of the concat list. */
  function FileLine(f: string): string {
    "file '" + EscapeQuotes(f) + "'"
  }

  /** `work.map(FileLine).join("\n")`. */
  function ConcatListing(work: seq<string>): string {
    Join(seq(|work|, k requires 0 <= k < |work| => FileLine(work[k])), "\n")
  }

  /** The files of the first `n` segments as `work` holds them: each segment's audio, then its pause. */
  function Work(dir: string, n: nat): (w: seq<string>)
    ensures |w| == 2 * n
  {
    if n == 0 then [] else Work(dir, n - 1) + [SegWav(dir, n - 1), SilWav(dir, n - 1)]
  }

  // ---------- synthSolo ----------

  /** `synthSolo` reading the cleaned script at `ttsPath`. */
  function SoloOutcome(hasEspeak: bool, dir: string, ttsPath: string, run: Command -> ToolRun): NarrationRun {
    if !hasEspeak then NarrationRun(Narration(None, NoEspeakSolo), [])
    else
      var out := NarrationWav(dir);
      var cmd := Speak(SoloVoice, 8, out, ttsPath);
      var r := run(cmd);
      NarrationRun(if r.produced then Narration(Some(out), r.stderr) else Narration(None, SoloFailed), [Run(cmd)])
  }

  // ---------- synthDuet ----------

  /** The espeak-ng call for segment `i`. */
  function SegmentCommand(dir: string, segs: seq<Segment>, i: nat): Command
    requires i < |segs|
  {
    Speak(VoiceOf(segs[i].speaker), 10, SegWav(dir, i), SegTxt(dir, i))
  }

  /** Whether segment `i`'s audio file exists after its call. */
  predicate SegmentProduced(dir: string, segs: seq<Segment>, run: Command -> ToolRun, i: nat)
    requires i < |segs|
  {
    run(SegmentCommand(dir, segs, i)).produced
  }

  predicate AllProduced(dir: string, segs: seq<Segment>, run: Command -> ToolRun, n: nat)
    requires n <= |segs|
  {
    forall k :: 0 <= k < n ==> SegmentProduced(dir, segs, run, k)
  }

  /** The first segment from `i` on whose audio is missing. */
  function FailureFrom(dir: string, segs: seq<Segment>, run: Command -> ToolRun, i: nat): (f: Option<nat>)
    requires i <= |segs|
    decreases |segs| - i
  {
    if i == |segs| then None
    else if !SegmentProduced(dir, segs, run, i) then Some(i)
    else FailureFrom(dir, segs, run, i + 1)
  }

  function FirstFailure(dir: string, segs: seq<Segment>, run: Command -> ToolRun): Option<nat> {
    FailureFrom(dir, segs, run, 0)
  }

  /** What the loop does for segment `i` when its audio appears: write the text, speak it, write the pause. */
  function StepEffects(dir: string, segs: seq<Segment>, i: nat): seq<Effect>
    requires i < |segs|
  {
    [Write(SegTxt(dir, i), CleanForSpeech(segs[i].text) + "\n"),
     Run(SegmentCommand(dir, segs, i)),
     Run(Silence(SilWav(dir, i)))]
  }

  function SegmentEffects(dir: string, segs: seq<Segment>, n: nat): (t: seq<Effect>)
    requires n <= |segs|
    ensures |t| == 3 * n
  {
    if n == 0 then [] else SegmentEffects(dir, segs, n - 1) + StepEffects(dir, segs, n - 1)
  }

  /** The non-empty stderr texts of the first `n` segment calls. */
  function SegmentLogs(dir: string, segs: seq<Segment>, run: Command -> ToolRun, n: nat): seq<string>
    requires n <= |segs|
  {
    if n == 0 then []
    else
      var e := run(SegmentCommand(dir, segs, n - 1)).stderr;
      SegmentLogs(dir, segs, run, n - 1) + (if e != "" then [e] else [])
  }

  /** The run that stops at segment `k`, whose audio is missing: nothing after its espeak-ng call. */
  function DuetStopped(dir: string, segs: seq<Segment>, k: nat): NarrationRun
    requires k < |segs|
  {
    NarrationRun(Narration(None, DuetTtsFailed), SegmentEffects(dir, segs, k) + StepEffects(dir, segs, k)[..2])
  }

  /** The run in which every segment's audio appeared: the concat list is written and joined. */
  function DuetConcatenated(dir: string, segs: seq<Segment>, run: Command -> ToolRun): NarrationRun {
    var n := |segs|;
    var concat := run(ConcatCommand(dir));
    var logs := SegmentLogs(dir, segs, run, n) + (if concat.stderr != "" then [concat.stderr] else []);
    NarrationRun(
      if concat.produced then Narration(Some(NarrationWav(dir)), Join(logs, "\n"))
      else Narration(None, ConcatFailed),
      SegmentEffects(dir, segs, n) + [Write(ConcatList(dir), ConcatListing(Work(dir, n))), Run(ConcatCommand(dir))])
  }

  /** `synthDuet`: what it returns and what it does, given the shell's outcomes. */
  function DuetOutcome(hasEspeak: bool, dir: string, script: string, run: Command -> ToolRun): NarrationRun {
    if !hasEspeak then NarrationRun(Narration(None, NoEspeakDuet), [])
    else
      var segs := DuetSegments(script);
      var f := FirstFailure(dir, segs, run);
      if f.Some? && f.value < |segs| then DuetStopped(dir, segs, f.value) else DuetConcatenated(dir, segs, run)
  }

  lemma {:induction false} FailureFromFacts(dir: string, segs: seq<Segment>, run: Command -> ToolRun, i: nat)
    requires i <= |segs|
    ensures var f := FailureFrom(dir, segs, run, i);
      && (f.None? ==> forall k :: i <= k < |segs| ==> SegmentProduced(dir, segs, run, k))
      && (f.Some? ==>
            && i <= f.value < |segs| && !SegmentProduced(dir, segs, run, f.value)
            && forall k :: i <= k < f.value ==> SegmentProduced(dir, segs, run, k))
    decreases |segs| - i
  {
    if i < |segs| && SegmentProduced(dir, segs, run, i) {
      FailureFromFacts(dir, segs, run, i + 1);
    }
  }

  /** The first failure is the least segment whose audio is missing, and there is none exactly when all appear. */
  lemma FirstFailureFacts(dir: string, segs: seq<Segment>, run: Command -> ToolRun)
    ensures var f := FirstFailure(dir, segs, run);
      && (f.None? <==> AllProduced(dir, segs, run, |segs|))
      && (f.Some? ==>
            && f.value < |segs| && AllProduced(dir, segs, run, f.value)
            && !SegmentProduced(dir, segs, run, f.value))
  {
    FailureFromFacts(dir, segs, run, 0);
  }

  /** The first failure is at `i` when every segment before it appeared and segment `i` did not. */
  lemma FirstFailureAt(dir: string, segs: seq<Segment>, run: Command -> ToolRun, i: nat)
    requires i < |segs| && AllProduced(dir, segs, run, i) && !SegmentProduced(dir, segs, run, i)
    ensures FirstFailure(dir, segs, run) == Some(i)
  {
    FirstFailureFacts(dir, segs, run);
  }

  lemma ProducedStep(dir: string, segs: seq<Segment>, run: Command -> ToolRun, i: nat)
    requires i < |segs| && AllProduced(dir, segs, run, i) && SegmentProduced(dir, segs, run, i)
    ensures AllProduced(dir, segs, run, i + 1)
  {
  }

  /** One more segment whose audio appeared adds its three effects to the trace. */
  lemma EffectsStep(dir: string, segs: seq<Segment>, i: nat)
    requires i < |segs|
    ensures SegmentEffects(dir, segs, i + 1) == SegmentEffects(dir, segs, i)
      + [Write(SegTxt(dir, i), CleanForSpeech(segs[i].text) + "\n"), Run(SegmentCommand(dir, segs, i)),
         Run(Silence(SilWav(dir, i)))]
  {
  }

  /** The run stopped at segment `i` ends with that segment's text and its espeak-ng call. */
  lemma StoppedStep(dir: string, segs: seq<Segment>, i: nat)
    requires i < |segs|
    ensures DuetStopped(dir, segs, i) == NarrationRun(Narration(None, DuetTtsFailed), SegmentEffects(dir, segs, i)
      + [Write(SegTxt(dir, i), CleanForSpeech(segs[i].text) + "\n"), Run(SegmentCommand(dir, segs, i))])
  {
    assert StepEffects(dir, segs, i)[..2]
      == [Write(SegTxt(dir, i), CleanForSpeech(segs[i].text) + "\n"), Run(SegmentCommand(dir, segs, i))];
  }

  /** `synthSolo`. */
  method SynthSolo(hasEspeak: bool, dir: string, ttsPath: string, run: Command -> ToolRun) returns (r: NarrationRun)
    ensures r == SoloOutcome(hasEspeak, dir, ttsPath, run)
  {
    if !hasEspeak {
      return NarrationRun(Narration(None, NoEspeakSolo), []);
    }
    var out := NarrationWav(dir);
    var cmd := Speak(SoloVoice, 8, out, ttsPath);
    var res := run(cmd);
    if res.produced {
      r := NarrationRun(Narration(Some(out), res.stderr), [Run(cmd)]);
    } else {
      r := NarrationRun(Narration(None, SoloFailed), [Run(cmd)]);
    }
  }

  /**
   * The loop of `synthDuet`: each segment's text is written and spoken; the
   * loop returns the stopped run at the first missing audio file, and
   * otherwise the files, the stderr texts and the trace of all segments.
   */
  method SpeakSegments(dir: string, segs: seq<Segment>, run: Command -> ToolRun)
    returns (stopped: Option<NarrationRun>, work: seq<string>, logs: seq<string>, trace: seq<Effect>)
    ensures var f := FirstFailure(dir, segs, run);
      if f.Some? && f.value < |segs| then stopped == Some(DuetStopped(dir, segs, f.value))
      else && stopped.None? && work == Work(dir, |segs|)
           && logs == SegmentLogs(dir, segs, run, |segs|) && trace == SegmentEffects(dir, segs, |segs|)
  {
    work, logs, trace := [], [], [];
    for i := 0 to |segs|
      invariant AllProduced(dir, segs, run, i)
      invariant work == Work(dir, i)
      invariant logs == SegmentLogs(dir, segs, run, i)
      invariant trace == SegmentEffects(dir, segs, i)
    {
      var wav := SegWav(dir, i);
      var clean := CleanForSpeech(segs[i].text);
      var segTxt := SegTxt(dir, i);
      var cmd := Speak(VoiceOf(segs[i].speaker), 10, wav, segTxt);
      assert cmd == SegmentCommand(dir, segs, i);
      var res := run(cmd);
      if res.stderr != "" {
        logs := logs + [res.stderr];
      }
      if !res.produced {
        FirstFailureAt(dir, segs, run, i);
        StoppedStep(dir, segs, i);
        stopped := Some(NarrationRun(Narration(None, DuetTtsFailed), trace + [Write(segTxt, clean + "\n"), Run(cmd)]));
        return;
      }
      ProducedStep(dir, segs, run, i);
      var pad := SilWav(dir, i);
      EffectsStep(dir, segs, i);
      trace := trace + [Write(segTxt, clean + "\n"), Run(cmd), Run(Silence(pad))];
      work := work + [wav, pad];
    }
    FirstFailureFacts(dir, segs, run);
    stopped := None;
  }

  /** `synthDuet`: the segment loop, then the concat list and the concat call. */
  method SynthDuet(hasEspeak: bool, dir: string, script: string, run: Command -> ToolRun) returns (r: NarrationRun)
    ensures r == DuetOutcome(hasEspeak, dir, script, run)
  {
    if !hasEspeak {
      return NarrationRun(Narration(None, NoEspeakDuet), []);
    }
    var segs := ParseDuet(script);
    var stopped, work, logs, trace := SpeakSegments(dir, segs, run);
    if stopped.Some? {
      return stopped.value;
    }
    var list := ConcatList(dir);
    var out := NarrationWav(dir);
    var ccmd := ConcatCommand(dir);
    trace := trace + [Write(list, ConcatListing(work)), Run(ccmd)];
    var concat := run(ccmd);
    ghost var logsBefore := logs;
    if concat.stderr != "" {
      logs := logs + [concat.stderr];
    }
    assert logs == logsBefore + (if concat.stderr != "" then [concat.stderr] else []);
    if concat.produced {
      r := NarrationRun(Narration(Some(out), Join(logs, "\n")), trace);
    } else {
      r := NarrationRun(Narration(None, ConcatFailed), trace);
    }
    assert r == DuetConcatenated(dir, segs, run);
  }

  // ---------- properties ----------

  /**
   * All or nothing: the duet has narration exactly when espeak-ng is there,
   * every segment's audio appeared and the concat produced its file, which is
   * then `narration.wav` in the job directory.
   */
  lemma DuetAllOrNothing(hasEspeak: bool, dir: string, script: string, run: Command -> ToolRun)
    ensures var r := DuetOutcome(hasEspeak, dir, script, run).result;
      && (r.path.Some? <==>
            hasEspeak && AllProduced(dir, DuetSegments(script), run, |DuetSegments(script)|)
            && run(ConcatCommand(dir)).produced)
      && (r.path.Some? ==> r.path.value == NarrationWav(dir))
  {
    FirstFailureFacts(dir, DuetSegments(script), run);
  }

  /** Each way a duet ends without narration logs its own message. */
  lemma DuetMessages(hasEspeak: bool, dir: string, script: string, run: Command -> ToolRun)
    ensures var o := DuetOutcome(hasEspeak, dir, script, run); var segs := DuetSegments(script);
      && (!hasEspeak ==> o.result.log == NoEspeakDuet && o.trace == [])
      && (hasEspeak && !AllProduced(dir, segs, run, |segs|) ==> o.result.log == DuetTtsFailed)
      && (hasEspeak && AllProduced(dir, segs, run, |segs|) && !run(ConcatCommand(dir)).produced ==>
            o.result.log == ConcatFailed)
  {
    FirstFailureFacts(dir, DuetSegments(script), run);
  }

  /** With narration the log is the non-empty stderr texts of every call, in order, one per line. */
  lemma DuetLog(hasEspeak: bool, dir: string, script: string, run: Command -> ToolRun)
    requires DuetOutcome(hasEspeak, dir, script, run).result.path.Some?
    ensures var segs := DuetSegments(script); var e := run(ConcatCommand(dir)).stderr;
      DuetOutcome(hasEspeak, dir, script, run).result.log
        == Join(SegmentLogs(dir, segs, run, |segs|) + (if e != "" then [e] else []), "\n")
  {
    FirstFailureFacts(dir, DuetSegments(script), run);
  }

  /** Segment `j`'s three effects sit at positions `3j` to `3j + 2` of the trace. */
  lemma {:induction false} EffectsLayout(dir: string, segs: seq<Segment>, n: nat, j: nat, m: nat)
    requires j < n <= |segs| && m < 3
    ensures SegmentEffects(dir, segs, n)[3 * j + m] == StepEffects(dir, segs, j)[m]
  {
    if j < n - 1 {
      EffectsLayout(dir, segs, n - 1, j, m);
    }
  }

  /**
   * The early exit: a duet stopped at segment `k` has done exactly the steps of
   * segments 0 to `k - 1`, then written segment `k`'s text and run its
   * espeak-ng call; no pause is
   * made for it and no later segment is touched.
   */
  lemma DuetStopsAtFailure(dir: string, script: string, run: Command -> ToolRun, k: nat)
    requires FirstFailure(dir, DuetSegments(script), run) == Some(k)
    ensures var segs := DuetSegments(script); var t := DuetOutcome(true, dir, script, run).trace;
      && k < |segs|
      && |t| == 3 * k + 2
      && t[..3 * k] == SegmentEffects(dir, segs, k)
      && t[3 * k] == StepEffects(dir, segs, k)[0]
      && t[3 * k + 1] == Run(SegmentCommand(dir, segs, k))
  {
    var segs := DuetSegments(script);
    FirstFailureFacts(dir, segs, run);
    StoppedStep(dir, segs, k);
  }

  /**
   * Without a failure every segment's three effects come first, in segment
   * order, then the concat list is written and the concat is run.
   */
  lemma DuetRunsAll(dir: string, segs: seq<Segment>, run: Command -> ToolRun, j: nat, m: nat)
    requires j < |segs| && m < 3
    ensures var t := DuetConcatenated(dir, segs, run).trace;
      && |t| == 3 * |segs| + 2
      && t[3 * j + m] == StepEffects(dir, segs, j)[m]
      && t[3 * |segs|] == Write(ConcatList(dir), ConcatListing(Work(dir, |segs|)))
      && t[3 * |segs| + 1] == Run(ConcatCommand(dir))
  {
    EffectsLayout(dir, segs, |segs|, j, m);
  }

  /** Without a failure `synthDuet` ends with the concat: with every espeak-ng call made, the run is the concatenated one. */
  lemma DuetConcatenates(dir: string, script: string, run: Command -> ToolRun)
    requires AllProduced(dir, DuetSegments(script), run, |DuetSegments(script)|)
    ensures DuetOutcome(true, dir, script, run) == DuetConcatenated(dir, DuetSegments(script), run)
  {
    FirstFailureFacts(dir, DuetSegments(script), run);
  }

  /** The text written for each segment is the cleaned text and a newline. */
  lemma SegmentTextClean(dir: string, segs: seq<Segment>, i: nat)
    requires i < |segs|
    ensures var w := StepEffects(dir, segs, i)[0];
      && w.Write? && w.path == SegTxt(dir, i)
      && |w.content| >= 1 && w.content[|w.content| - 1] == '\n'
      && IsSpeechClean(w.content[..|w.content| - 1])
  {
    var c := CleanForSpeech(segs[i].text);
    CleanIsClean(segs[i].text);
    assert (c + "\n")[..|c|] == c;
  }

  /** The concat list names, for each segment in order, its audio and then its pause. */
  lemma {:induction false} WorkLayout(dir: string, n: nat, k: nat)
    requires k < n
    ensures Work(dir, n)[2 * k] == SegWav(dir, k) && Work(dir, n)[2 * k + 1] == SilWav(dir, k)
  {
    if k < n - 1 {
      WorkLayout(dir, n - 1, k);
    }
  }

  /** Two segment numbers coincide only for the same segment. */
  lemma SegNumberInjective(i: nat, j: nat)
    requires SegNumber(i) == SegNumber(j)
    ensures i == j
  {
    PaddedValue(i + 1, 3);
    PaddedValue(j + 1, 3);
  }

  /** The number of a file named `dir/<tag>NNN.<ext>` with a four-character tag and extension. */
  lemma NameInjective(dir: string, tag: string, ext: string, a: string, b: string)
    requires |tag| == 4 && |ext| == 4
    requires PathJoin(dir, tag + a + ext) == PathJoin(dir, tag + b + ext)
    ensures a == b
  {
    var x := PathJoin(dir, tag + a + ext);
    var y := PathJoin(dir, tag + b + ext);
    assert |a| == |b|;
    assert x[|dir| + 5..|dir| + 5 + |a|] == a;
    assert y[|dir| + 5..|dir| + 5 + |b|] == b;
  }

  /** A segment's audio file is never a pause file. */
  lemma AudioIsNotPause(dir: string, i: nat, j: nat)
    ensures SegWav(dir, i) != SilWav(dir, j)
  {
    assert SegWav(dir, i)[|dir| + 2] == 'e';
    assert SilWav(dir, j)[|dir| + 2] == 'i';
  }

  /** Every file of the concat list is a different file. */
  lemma WorkDistinct(dir: string, n: nat, a: nat, b: nat)
    requires a < b < 2 * n
    ensures Work(dir, n)[a] != Work(dir, n)[b]
  {
    WorkLayout(dir, n, a / 2);
    WorkLayout(dir, n, b / 2);
    var i, j := a / 2, b / 2;
    var x, y := Work(dir, n)[a], Work(dir, n)[b];
    if a % 2 != b % 2 {
      if a % 2 == 0 {
        AudioIsNotPause(dir, i, j);
      } else {
        AudioIsNotPause(dir, j, i);
      }
    } else if x == y {
      NameInjective(dir, if a % 2 == 0 then "seg-" else "sil-", ".wav", SegNumber(i), SegNumber(j));
      SegNumberInjective(i, j);
    }
  }

  /** Reading an escaped name back gives the name. */
  lemma {:induction false} EscapeRoundTrip(f: string)
    ensures UnescapeQuotes(EscapeQuotes(f)) == f
  {
    if |f| > 0 {
      EscapeRoundTrip(f[1..]);
      var rest := EscapeQuotes(f[1..]);
      if f[0] == '\'' {
        assert EscapeQuotes(f) == "'\\''" + rest;
        assert (EscapeQuotes(f))[4..] == rest;
      } else {
        assert EscapeQuotes(f) == [f[0]] + rest;
        assert (EscapeQuotes(f))[1..] == rest;
      }
    }
  }

  /** The solo narration exists exactly when espeak-ng is there and wrote `narration.wav`. */
  lemma SoloAllOrNothing(hasEspeak: bool, dir: string, ttsPath: string, run: Command -> ToolRun)
    ensures var o := SoloOutcome(hasEspeak, dir, ttsPath, run);
      var r := run(Speak(SoloVoice, 8, NarrationWav(dir), ttsPath));
      && (o.result.path.Some? <==> hasEspeak && r.produced)
      && (o.result.path.Some? ==> o.result.path.value == NarrationWav(dir) && o.result.log == r.stderr)
      && (!hasEspeak ==> o.result.log == NoEspeakSolo && o.trace == [])
      && (hasEspeak && !r.produced ==> o.result.log == SoloFailed)
  {
  }
}
