# NoteFlix job and asset routes in Dafny

The model covers the two route files of the NoteFlix backend:

- **`src/routes/jobs.js`** turns an uploaded lecture PDF or image into a narrated video. Its parts are:
  - **the job routes:** create, list, details, log, and video with `Range` support;
  - **the worker `runJob`:** slides, script, narration, captions, timing and encoding, in that order;
  - **the pure helpers inside it:** the caption generator `makeVttFromScript` with `stamp` and `pad`, the text cleaner for speech, `parseDuet`, the timing plan, and `synthSolo` and `synthDuet`.
- **`src/routes/assets.js`**:
  - the type an upload gets from its file name;
  - the listing `GET /`: parameter clamping, filters, the whitelisted sort and paging.

Modules:

| module | file | what it holds |
|---|---|---|
| `JsText` | `jstext.dfy` | The JavaScript string built-ins the routes use: `trim`, ASCII `toLowerCase`, `includes`, `padStart`, `split`, `join`, `String(n)`, `parseInt`, `filter`, string `<`. |
| `Script` | `script.dfy` | The sentence splitter `split(/(?<=[.!?])\s+/)`, and the replace chain that cleans text for the speech synthesizer. |
| `Captions` | `captions.dfy` | `makeVttFromScript` as a function, as a method with its loop, and its cue structure. It also has the timestamp round trip. |
| `Speech` | `speech.dfy` | `parseDuet` as a function and as a method with its two loops. |
| `Narration` | `narration.dfy` | `synthSolo` and `synthDuet`. The shell is an oracle from a command to its outcome. What the step writes and runs is recorded as a trace. |
| `Timing` | `timing.dfy` | Slide count, seconds per slide and frames per slide. |
| `Worker` | `worker.dfy` | `runJob`'s stages as one function of the asset, the context and the environment, and the trace of the files the run writes and the narration commands it runs. |
| `Jobs` | `jobs.dfy` | The class `JobStore`. It holds the `jobs` table, the log files and the videos. Its methods are the routes and the worker's updates. It also has the `Range` arithmetic. |
| `Sorting` | `sorting.dfy` | The stable sort behind `items.sort(cmp)`, as an in-place insertion sort on an array. |
| `Assets` | `assets.dfy` | The upload type rule and the listing pipeline. |

**Store invariant.** The invariant kept by every `JobStore` method is `StoreValid`:

- every row carries its own id;
- its log is `logs.txt` in its job directory;
- it names an existing asset;
- it has an output path exactly when it is `done`, and that video exists;
- the rowid order lists each job once.

**Outside world.** These are parameters of the model:

- the clock;
- the uuid the create route draws;
- which tools are installed;
- what the shell commands do;
- the language model's reply;
- the directory listing;
- whether ffmpeg produced the video, and its size.

**Where the code and the design description disagree**, the model follows the code:

- **Script stage.** The design says this stage never fails the job. In the code, a model reply without a `response` field makes `scriptText` `undefined`. The `fs.writeFileSync` at `src/routes/jobs.js:252` then throws, and the job fails with Node's message (`Worker.ScriptFallback`, `Worker.WorkerOutcomes`). A thrown call does fall back to the fixed summary.
- **Duration.** The design clamps the requested duration to [30, 600] and lets the narration's length override it. The code uses `ctx.duration || 90` as it is (`src/routes/jobs.js:392-395`), with neither clamp nor override. It also computes no target word count.
- **Encode profiles.** The code has none. The encoder command is fixed, and the captions are burned into the frames with ffmpeg's `subtitles` filter rather than shipped as a separate track.
- **Asset storage imports.** `src/ddb.js:57` exports neither `sks` nor `queryByPrefix`. So `sks.asset(id)` (`src/routes/assets.js:45`) and `queryByPrefix` (`src/routes/assets.js:79`) throw a `TypeError`, and both asset routes answer 500. The model describes the routes as if those imports resolved.
- **Logs route.** A job row without a log path is a 404, and a log file that does not exist yet is an empty 200 (`Jobs.JobStore.Logs`). Every row the create route inserts has a log path (`Jobs.JobStore.EveryJobHasLog`).

## Model

| member | source | states |
|---|---|---|
| JsText.Trim | src/routes/jobs.js:47 | `trim` removes exactly the whitespace at both ends: the result is the infix between them, and it starts and ends with a non-space. |
| JsText.TrimOfTrimmed | src/routes/jobs.js:281 | A string with nothing to trim is itself after `trim`. |
| JsText.PadStartFacts | src/routes/jobs.js:50 | `padStart` yields the longer of the width and the input: fill characters, then the input. |
| JsText.PaddedValue | src/routes/jobs.js:50-56 | A zero-padded `String(n)` is still a digit string whose value is `n`. |
| JsText.DigitsRoundTrip | src/routes/jobs.js:56 | `String(n)` is a digit string that reads back as `n`. |
| JsText.ParseInt | src/routes/jobs.js:153-154 | `parseInt` is NaN exactly when no digit follows the optional sign after leading whitespace. Otherwise its sign follows the text's sign. |
| JsText.ParseIntOfNat | src/routes/jobs.js:153 | `parseInt(String(n), 10) == n`. |
| JsText.SplitOnFree | src/routes/jobs.js:152 | No piece of `split(c)` holds `c`. |
| JsText.SplitAfterPiece | src/routes/jobs.js:152 | Splitting `a + c + b` on `c`, with `a` free of `c`, gives `a` and then the pieces of `b`. |
| JsText.FilterMembers | src/routes/jobs.js:386-389 | `filter(p)` keeps an element exactly when it is in the input and satisfies `p`. |
| JsText.FilterSubsequence | src/routes/assets.js:82-92 | `filter` returns a subsequence of its input. |
| JsText.ContainsAt | src/routes/assets.js:40 | `includes(sub)` holds exactly when `sub` occurs at some offset. |
| JsText.LexLessTotal | src/routes/assets.js:101-102 | Two strings are equal or one is `<` the other. |
| JsText.LexLessTransitive | src/routes/assets.js:101-102 | String `<` is transitive. |
| JsText.LexLessIrreflexive | src/routes/assets.js:101-102 | No string is `<` itself. |
| Script.SplitRoundTrip | src/routes/jobs.js:48 | The sentence split loses nothing. The pieces, rejoined with the whitespace runs it consumed, give back the input. Every consumed run follows `.`, `!` or `?`. |
| Script.NoBoundaryOneSentence | src/routes/jobs.js:48 | Text with no sentence end followed by whitespace is one piece. |
| Script.NonEmpty | src/routes/jobs.js:48 | `filter(Boolean)` keeps only non-empty strings and never adds any. |
| Script.ReplaceChar | src/routes/jobs.js:254-255 | After `replace(/c/g, rep)`, `c` is gone unless `rep` holds it. Text without `c` is unchanged. |
| Script.CollapseFacts | src/routes/jobs.js:256 | `replace(/\n+/g, ". ")` leaves no line feed, adds no carriage return, and changes nothing without a line feed. |
| Script.SqueezeFacts | src/routes/jobs.js:257 | `replace(/[ \t]+/g, " ")` leaves no tab and no two spaces in a row. It adds no `\r` or `\n`, and starts with a space exactly when the input starts with a blank. |
| Script.SqueezeFixes | src/routes/jobs.js:257 | Text with no tab and no double space is left as it is. |
| Script.CleanIsClean | src/routes/jobs.js:254-258 | The speech text has no `\r`, `\n` or tab, no two spaces in a row and no whitespace at either end. |
| Script.CleanFixesClean | src/routes/jobs.js:254-258 | Already-clean text passes through the cleaner unchanged. |
| Script.CleanIdempotent | src/routes/jobs.js:254-258 | Cleaning twice is cleaning once. |
| Captions.Pad2Facts | src/routes/jobs.js:50 | `pad(n)` is a digit string of at least two digits with value `n`, exactly two below 100. |
| Captions.ClockArithmetic | src/routes/jobs.js:52-54 | Hours, minutes and seconds recombine to the seconds they came from. |
| Captions.FieldBounds | src/routes/jobs.js:53-54 | Minutes and seconds are below 60. |
| Captions.StampRoundTrip | src/routes/jobs.js:51-57 | Reading `stamp(n)` back as `H:MM:SS.mmm` gives `1000 * n` milliseconds. |
| Captions.StampInjective | src/routes/jobs.js:51-57 | Different seconds never give the same timestamp. |
| Captions.StampLayout | src/routes/jobs.js:51-57 | Below 100 hours a timestamp is exactly `HH:MM:SS.000`. |
| Captions.PlaceholderBlock | src/routes/jobs.js:66-68 | The hard-coded placeholder text is the block of cue 1, from 0 to 3 seconds, reading `(no script)`. |
| Captions.AppendCues | src/routes/jobs.js:58-65 | The loop builds the header followed by one rendered block per part, in three-second windows from 0. |
| Captions.MakeVtt | src/routes/jobs.js:46-70 | `makeVttFromScript` returns the caption track of its script: the cue blocks of the parts, or the placeholder block. |
| Captions.CuesContiguous | src/routes/jobs.js:47-68 | Cues are numbered 1..n. Each lasts three seconds, the first starts at 0, and each starts where the previous ended. There is one cue per part in order, or the single placeholder cue. |
| Captions.CueStampsDecode | src/routes/jobs.js:59-65 | Cue `i`'s timing line reads back as the window from `3i` to `3i + 3` seconds. |
| Captions.RenderSplits | src/routes/jobs.js:63 | The rendered cues of any prefix are a prefix of the track. |
| Captions.RenderStep | src/routes/jobs.js:63 | Rendering one more cue appends its block. |
| Speech.SplitLines | src/routes/jobs.js:280 | `split(/\r?\n/)` gives one piece more than the text has line feeds, and no piece holds a line feed. |
| Speech.TrimAll | src/routes/jobs.js:281 | Every line is trimmed, and none is dropped or added. |
| Speech.ParseDuet | src/routes/jobs.js:278-301 | The two loops of `parseDuet` return the labelled segments, or the alternating sentence segments when no line is labelled. |
| Speech.MatchTrimmedLine | src/routes/jobs.js:285-286 | On a trimmed line the regex `^(Alex\|Sam):\s*(.+)$`/i matches exactly as the reference `TrimmedMatch` says: a label, then a non-empty text free of line terminators with its leading whitespace dropped. |
| Speech.TextOfNonBlank | src/routes/jobs.js:285 | After a text ending in a non-space, `\s*(.+)$` captures the text without its leading whitespace. |
| Speech.LabelSpeaker | src/routes/jobs.js:285-286 | A label is `alex:` or `sam:` in any ASCII case, and the speaker recorded is its lower-case name. |
| Speech.MatchedText | src/routes/jobs.js:285-286 | A matched text is non-empty and has no line terminator. |
| Speech.LabelledConcat | src/routes/jobs.js:284-287 | The segments of two blocks of lines are the first block's, then the second's. |
| Speech.LabelledFromLines | src/routes/jobs.js:284-287 | Every labelled segment comes from a matching line, and there are no more segments than lines. |
| Speech.DuetLabelled | src/routes/jobs.js:278-288 | With a labelled line the result is exactly the labelled segments. |
| Speech.DuetFallback | src/routes/jobs.js:288-299 | Without a labelled line there is one segment per sentence, in order. Alex reads the even-numbered sentences and Sam the odd-numbered ones. |
| Speech.SegmentsNonEmpty | src/routes/jobs.js:278-301 | Every segment has some text. |
| Narration.SynthSolo | src/routes/jobs.js:263-276 | `synthSolo` returns what `SoloOutcome` says and runs at most one command. |
| Narration.SoloAllOrNothing | src/routes/jobs.js:263-276 | Solo narration exists exactly when espeak-ng is installed and wrote `narration.wav`. Its log is then espeak-ng's stderr. Each other case logs its own message. |
| Narration.SpeakSegments | src/routes/jobs.js:310-349 | At the first segment whose audio is missing the loop returns the stopped run. Otherwise it returns the files, the stderr texts and the trace of every segment. |
| Narration.SynthDuet | src/routes/jobs.js:303-366 | `synthDuet` returns what `DuetOutcome` says: its result and the trace of what it wrote and ran. |
| Narration.DuetAllOrNothing | src/routes/jobs.js:303-366 | A duet has narration exactly when espeak-ng is installed, every segment's audio appeared and the concat produced its file, which is `narration.wav`. |
| Narration.DuetMessages | src/routes/jobs.js:303-366 | The three ways a duet ends without narration log their own messages. |
| Narration.DuetLog | src/routes/jobs.js:336-364 | With narration, the log is the non-empty stderr texts of every call, joined by newlines. |
| Narration.DuetStopsAtFailure | src/routes/jobs.js:337-338 | A duet stopped at segment `k` has done exactly the steps of segments 0 to `k - 1`, then written segment `k`'s text and run its espeak-ng call, and nothing more. |
| Narration.DuetRunsAll | src/routes/jobs.js:310-361 | Without a failure, each segment's three effects come in segment order, then the concat list is written and the concat is run. |
| Narration.DuetConcatenates | src/routes/jobs.js:351-365 | When every segment's audio appears, the duet is the concatenated run. |
| Narration.SegmentTextClean | src/routes/jobs.js:316-327 | Each segment file holds the cleaned text and a newline. |
| Narration.WorkLayout | src/routes/jobs.js:348 | The concat list names each segment's audio and then its pause, in order. |
| Narration.WorkDistinct | src/routes/jobs.js:312-348 | No file appears twice in the concat list. |
| Narration.SegNumberInjective | src/routes/jobs.js:314 | Different segments get different numbers. |
| Narration.AudioIsNotPause | src/routes/jobs.js:312-348 | A segment's audio file is never a pause file. |
| Narration.EscapeRoundTrip | src/routes/jobs.js:355 | Reading a quote-escaped file name back gives the name. |
| Narration.FirstFailureFacts | src/routes/jobs.js:337 | The first failure is the first segment whose audio is missing, and there is none exactly when every segment's audio appears. |
| Narration.FailureFromFacts | src/routes/jobs.js:310-338 | The scan from segment `i` stops only at a segment whose audio is missing, with every earlier segment from `i` produced. |
| Narration.FirstFailureAt | src/routes/jobs.js:310-338 | The first failure is at `i` when every earlier audio appeared and segment `i`'s did not. |
| Timing.RoundDiv | src/routes/jobs.js:394 | `Math.round(a / b)` is the nearest integer, halves rounded up. |
| Timing.RoundMonotone | src/routes/jobs.js:394 | Rounding the quotient keeps the order of the dividends. |
| Timing.PlanBounds | src/routes/jobs.js:390-397 | At least one slide and at least three seconds per slide. The frames are a whole number of seconds at 30 fps. |
| Timing.PlanRounds | src/routes/jobs.js:392-395 | Seconds per slide are duration/slides rounded to the nearest integer, unless that is below three. The floor applies exactly when `2d < 7n`. |
| Timing.PlanDefault | src/routes/jobs.js:394 | A missing duration, 0 and 90 give the same plan. |
| Timing.SlideCountOfFiles | src/routes/jobs.js:386-390 | The slide count is the number of `slide-*.png` files, or 1 when there is none. |
| Timing.PlanMonotone | src/routes/jobs.js:392-395 | A longer requested duration never shortens a slide. |
| Timing.PlanOneSlide | src/routes/jobs.js:390-397 | One slide for ten seconds shows for ten seconds, 300 frames. |
| Timing.PlanManySlides | src/routes/jobs.js:390-397 | Twenty slides in ten seconds get the three-second floor each. |
| Worker.WorkerOutcomes | src/routes/jobs.js:183-427 | A run produces the video exactly when the slides were made, the script is text and ffmpeg left the output. Otherwise the first failing stage names the error. |
| Worker.ImageScriptUsed | src/routes/jobs.js:245-248 | An image asset is narrated from the fixed one-slide script, and its script stage cannot fail. |
| Worker.ScriptFallback | src/routes/jobs.js:209-244 | Only a reply without `response` leaves the script undefined. A failed call is logged and replaced by the fallback summary. The pdftotext warning comes before the calling line. |
| Worker.NarrationNeverFails | src/routes/jobs.js:368-378 | Narration tools and their outcomes never change whether the run produces a video, nor its script or the error that stops it. |
| Worker.ProducedParts | src/routes/jobs.js:368-397 | A produced video has its script's captions, the timing of the requested duration and the narration's audio, if any. |
| Worker.LastLogLine | src/routes/jobs.js:413-427 | The log ends with `JOB DONE` exactly for a produced video, and otherwise with `FAILED: ` and the error. |
| Worker.TraceCases | src/routes/jobs.js:183-386 | A run writes files exactly when it gets past the slides with a text script, and then does what `ScriptTrace` says. Every produced video got that far. |
| Worker.TraceOrder | src/routes/jobs.js:250-386 | The run writes `script.txt` with the script, then `tts.txt` with its cleaned text, then does the narration step's writes and commands, and writes `captions.vtt` with the script's caption track last. |
| Worker.SoloReadsCleanScript | src/routes/jobs.js:254-276 | Without `"duet"` and with espeak-ng installed, espeak-ng runs on `tts.txt` right after the run wrote there the script's cleaned text: no `\r`, `\n` or tab, no two spaces in a row, no whitespace at either end. |
| Jobs.JobStore.constructor | src/routes/jobs.js:10-14 | The store starts empty and valid. |
| Jobs.JobStore.Create | src/routes/jobs.js:73-116 | An unknown asset is a 400 and nothing is inserted. Otherwise one `pending` row, built from the request's defaults, the caller and the job's log path, is added last under the new id. The store stays valid. |
| Jobs.JobStore.Start | src/routes/jobs.js:178-180 | Only that row changes, to `running` with its start time. The store stays valid. |
| Jobs.JobStore.Conclude | src/routes/jobs.js:413-427 | A produced video becomes `done` with the output path, which now exists. Anything else becomes `failed` without a path. The log gets the run's lines and its last line. The store stays valid. |
| Jobs.JobStore.RunJob | src/routes/jobs.js:175-429 | `runJob` runs the worker on the job's asset and context. The row goes `pending` → `running` → `done` or `failed`, and the log file gets the run's log. |
| Jobs.JobStore.List | src/routes/jobs.js:119-125 | The caller's rows, newest first, at most fifty. Every row listed is stored and owned by the caller. |
| Jobs.JobStore.Get | src/routes/jobs.js:127-131 | Found exactly for a stored id, with its row. |
| Jobs.JobStore.Logs | src/routes/jobs.js:134-141 | 404 without a row or log path. An empty 200 before the log file exists. Otherwise the file's text. |
| Jobs.JobStore.EveryJobHasLog | src/routes/jobs.js:87-141 | No stored job's log is a 404, and it is empty exactly until the worker first writes to it. |
| Jobs.JobStore.Output | src/routes/jobs.js:144-170 | 404 exactly when there is no row, no output path or no video. Without a range the whole file is served. With a range, a 206 with the range arithmetic. |
| Jobs.JobStore.OnlyDoneServed | src/routes/jobs.js:144-170 | A done job's video is served whole. Any other job's video is not found. |
| Jobs.UpdateKeepsValid | src/routes/jobs.js:178-425 | Replacing a listed row by a valid one, while videos are only added, keeps the store valid. |
| Jobs.InsertKeepsValid | src/routes/jobs.js:93-102 | Adding a valid row under a new id, listed last, keeps the store valid. |
| Jobs.NewestFirst | src/routes/jobs.js:122 | `ORDER BY rowid DESC` reverses the insertion order. |
| Jobs.Take | src/routes/jobs.js:122 | `LIMIT n` is a prefix of at most `n` rows, and the whole list when it is short enough. |
| Jobs.NewestOwnedFilters | src/routes/jobs.js:122 | The caller's rows are all rows newest first, filtered by owner. |
| Jobs.ListedRows | src/routes/jobs.js:122 | A row is listed exactly when its owner matches and it is stored under a listed id. |
| Jobs.NewestSplit | src/routes/jobs.js:122 | The rows of newer ids come before those of older ones. |
| Jobs.LogTextAppend | src/routes/jobs.js:176 | Appending lines to a log appends their text to the file. |
| Jobs.RangeReply | src/routes/jobs.js:151-160 | A range is always answered with a 206 for the file's size. |
| Jobs.RangeHeader | src/routes/jobs.js:152 | The `bytes=` prefix is removed before splitting. |
| Jobs.RangeOfBounds | src/routes/jobs.js:152-160 | `bytes=s-e` gets a 206 whose `Content-Range` echoes both ends and whose length is `e - s + 1`. |
| Jobs.RangeOpenEnd | src/routes/jobs.js:154 | `bytes=s-` runs to the last byte. |
| Jobs.RangeSuffixUnread | src/routes/jobs.js:152-158 | A suffix range `bytes=-n` has a NaN start. `Content-Range` then reads `NaN` and the length is NaN. |
| Sorting.SortInPlace | src/routes/assets.js:98-104 | The in-place sort leaves the array holding the stable sort of its old contents. |
| Sorting.InsertAt | src/routes/assets.js:98-104 | One insertion step puts `a[i]` into the sorted prefix and leaves the rest alone. |
| Sorting.ToArray | src/routes/assets.js:98 | A fresh array holds the list. |
| Sorting.SortPermutes | src/routes/assets.js:98-104 | The sort is a permutation of its input. |
| Sorting.SortOrders | src/routes/assets.js:98-104 | No element of the result goes before an earlier one under the comparator. |
| Sorting.SortStable | src/routes/assets.js:98-104 | Elements with the same key keep their input order. |
| Sorting.SameKeyKeepsOrder | src/routes/assets.js:103 | When every key is the same the comparator always returns 0, and the order stays as it was. |
| Sorting.InsertMultiset | src/routes/assets.js:98-104 | An insertion adds exactly its element. |
| Sorting.InsertOrdered | src/routes/assets.js:98-104 | Inserting into an ordered list keeps it ordered. |
| Sorting.InsertWithKey | src/routes/assets.js:98-104 | An inserted element goes behind every element with its key. |
| Sorting.NotBeforeTransitive | src/routes/assets.js:101-102 | "Does not go before" is transitive. |
| Sorting.BeforeAsymmetric | src/routes/assets.js:101-102 | Of two elements at most one goes before the other. |
| Assets.ExtName | src/routes/assets.js:34 | `path.extname` is empty or a dot followed by no further dot. |
| Assets.ExtNameOfDotted | src/routes/assets.js:34 | The extension is the last segment from its last dot on, when that dot is not the segment's first character and the segment is not `..`. Directories before the segment and slashes after it do not matter. |
| Assets.ExtNameUndotted | src/routes/assets.js:34 | A last segment with no dot, with its only dot at the start, or `..` has the empty extension. |
| Assets.DropTrailingSlashes | src/routes/assets.js:34 | Trailing slashes are removed and nothing else changes. |
| Assets.LastSegment | src/routes/assets.js:34 | The last path segment is the longest slash-free suffix: the whole text, or the part after a slash. |
| Assets.LastDot | src/routes/assets.js:34 | The last dot, or none when the segment has no dot. |
| Assets.PdfByExtension | src/routes/assets.js:34-40 | The type that `Assets.AssetType` gives is `pdf` exactly when the lower-cased extension begins with `.pdf`. Otherwise it is `image`. |
| Assets.OnlyLeadingDot | src/routes/assets.js:34-40 | An extension, even lower-cased, has a dot only at its start. |
| Assets.UploadFacts | src/routes/assets.js:27-56 | `Assets.UploadAsset`, the `POST /` route: without a file the reply is `file required`. An upload is an asset item of the type rule's type, with the new id and time, stored under its extension. |
| Assets.ClampLimit | src/routes/assets.js:70 | The page size is between 1 and 100. |
| Assets.LimitDefaults | src/routes/assets.js:70 | A missing, non-numeric or zero limit is 20. A negative one is 1, and one over 100 is 100. |
| Assets.LimitGiven | src/routes/assets.js:70 | A limit written as a number from 1 to 100 is taken as it is. |
| Assets.ClampOffset | src/routes/assets.js:71 | The offset is never negative. |
| Assets.OffsetDefaults | src/routes/assets.js:71 | A missing or non-numeric offset is 0, and a written number is itself. |
| Assets.Active | src/routes/assets.js:74-76 | A missing parameter, or one that is blank once trimmed, switches its filter off. Otherwise the filter holds the trimmed, non-empty value. |
| Assets.FiltersIgnoreCase | src/routes/assets.js:73-87 | The type and search filters are on exactly for non-blank parameters and hold lower-cased, trimmed values. The date filters are on exactly for non-blank parameters and hold the trimmed values. |
| Assets.SelectedMembers | src/routes/assets.js:82-92 | An item is listed exactly when it is an asset passing every active filter. |
| Assets.NarrowMembers | src/routes/assets.js:83-92 | One filter stage keeps an item exactly when it passes that filter, or the filter is off. |
| Assets.SelectedSubsequence | src/routes/assets.js:82-92 | Filtering only drops items and keeps their order. |
| Assets.SortKeyChoice | src/routes/assets.js:95-96 | `rowid`, `type` and `id` pick their column. An `Object.prototype` member name compares everything equal. Everything else sorts by creation time. |
| Assets.DirectionChoice | src/routes/assets.js:97 | Only `asc`, in any case, sorts ascending. |
| Assets.NoKeyKeepsOrder | src/routes/assets.js:96-104 | A prototype member as the sort name leaves the order unchanged. |
| Assets.Slice | src/routes/assets.js:108 | `slice(start, end)` has `min(end, n) - min(start, n)` elements, or none when that is not positive, and its element `i` is `items[start + i]`. |
| Assets.ListAssets | src/routes/assets.js:68-118 | `GET /` returns the page of the stably sorted selection under the clamped limit and offset. |
| Assets.PageFacts | src/routes/assets.js:106-118 | `totalItems` counts every selected item before paging. The sorted list is a permutation of the selection. A page holds at most `pageSize` items, and `pageSize` is between 1 and 100. |
| Assets.PageBounds | src/routes/assets.js:106-118 | The page is the list from `offset` on, at most `limit` long. The page number is `offset / limit + 1`. `totalPages` is the least number of pages that hold the list. |
| Assets.CeilBounds | src/routes/assets.js:107 | `ceil(t / l)` pages of `l` hold `t` items, and one page fewer does not. |

## Left out

- **Tool output in the log.** The stdout and stderr of `pdftoppm`, `cp`, `ls`, `pdftotext` and the streamed ffmpeg output are not modelled. The model logs only the lines the core writes itself.
- **The language-model call.** The prompt text, the excerpt of the notes and the HTTP request of `callOllama` are left out. The model's reply is an input: a text, a reply without `response`, or a thrown error.
- **Shell and tool details.** `hasCmd`, `sh`, `spawn`, the `ffmpeg` filter and encoder command strings, the caption file burned in by `subtitles=`, and the float frame rate `1 / perSlideSec` are left out. The tools' effects are oracle parameters.
- **Timing.PlanTiming:** the requested duration is modelled as a whole number of seconds, or absent. In the code it is whatever JSON value the request carried (`src/routes/jobs.js:75-80`), and the arithmetic is in doubles (`src/routes/jobs.js:392-397`). So `45.5` is divided as it is, a numeric text such as `"60"` is coerced by `/`, and a non-numeric text gives NaN seconds per slide and NaN frames. None of this is modelled.
- **Timing.PlanBounds:** the bounds are proved for whole-number durations only. A fractional duration also gives whole seconds per slide in the code, since `Math.round` rounds it, but a non-numeric one gives NaN, of which no bound holds.
- **Timing.PlanRounds:** the rounding is proved for whole-number durations only. For a fractional duration the code rounds the double quotient, and the model does not compute it.
- **Assets.ClampOffset:** the offset is an unbounded integer, and so is the page number `Assets.PageOf` computes from it. In the code `parseInt` at `src/routes/assets.js:71` returns a double. Above 2^53 the offset rounds, so `Assets.OffsetDefaults`' `ClampOffset(String(n)) == n` fails there. From 309 digits on it is `Infinity`, and `page` is `Infinity`, which `res.json` writes as `null`. Neither is modelled.
- **Assets.OffsetDefaults:** a written offset is itself only for numbers up to 2^53 in the code. The model does not state that bound, for the reason given for `Assets.ClampOffset`.
- **Jobs.RangeReply:** the range ends are unbounded integers. In the code they are doubles (`src/routes/jobs.js:153-158`): above 2^53 they round, and from 10^21 up `Content-Range` prints them in exponent form (`1e+21`). Neither is modelled.
- **Worker.RunTrace:** the trace holds only the files the worker writes itself and the commands of the narration step. The slide images from `pdftoppm` or `cp`, the call to the language model and the ffmpeg command are not in it.
- **Clock and randomness.** `Date.now`, `datetime('now')`, `new Date().toISOString()` and `uuid()` are parameters.
- **Jobs.JobStore.Create:** requires that the new id is not yet used.
- **Concurrency.** `process.nextTick` and concurrent jobs are left out. `Jobs.JobStore.RunJob` runs the job straight after its creation, and requires the row to be `pending`.
- **Error paths.** The 500 replies of the catch blocks, and errors of the file system and the database, are not modelled.
- **Asset storage.** The DynamoDB layer (`putItem`, `queryByPrefix`, the partition key and `sks`) is left out. The listing takes the caller's items as an input, and the upload returns the item it would store. The `GET /:id` and `DELETE /:id` asset routes are not part of this model.
- **Captions.Stamp:** `stamp` is modelled for whole seconds, because every cue boundary is a multiple of three. The millisecond field is always `000`.
- **Narration.PathJoin:** `path.join` is modelled as joining with `/`, without normalising `.`, `..` or repeated separators.
- **Assets.UploadAsset:** the stored path is built by concatenation with `/`. `path.join` at `src/routes/assets.js:35-36` also normalises `.`, `..` and repeated separators, which is not modelled.
- **Assets.MetaText:** the item's `meta` is modelled as a text the search reads. The JSON escaping of `JSON.stringify` is not modelled.
- **Query arrays.** A query parameter given several times (an array, on which `trim` throws) is not modelled.
- **Text encoding.** JavaScript compares and indexes strings by UTF-16 code units. The model works on Dafny characters, which are Unicode scalar values.
- **JsText.Lower:** `toLowerCase` is modelled on ASCII letters only. Other letters are left unchanged.
- **Request parsing outside the core.** Streaming of log and video files, the upload middleware, and authentication (`req.user`) are outside the core. The caller's `sub` is an input.
