/**
 * The job routes of src/routes/jobs.js over an in-memory table standing in
 * for the SQLite `jobs` table of src/db.js: creating a job, the worker's
 * status updates, the owner's job list, one job's details, its log and its
 * video with `Range` support. The files the routes look at (the log files
 * and the finished videos) are maps from path to content and to size.
 */
module Jobs {
  import opened JsText
  import opened Timing
  import opened Narration
  import opened Worker

  datatype Status = Pending | Running | Done | Failed

  /** The `status` column's text. */
  function StatusText(s: Status): string {
    match s
    case Pending => "pending"
    case Running => "running"
    case Done => "done"
    case Failed => "failed"
  }

  /** A request body field: left out, given as JSON `null`, or given. */
  datatype Field<T> = Absent | Null | Given(value: T)

  /** A destructuring default: only a field left out takes it; `None` is `null`. */
  function WithDefault<T>(f: Field<T>, d: T): Option<T> {
    match f
    case Absent => Some(d)
    case Null => None
    case Given(v) => Some(v)
  }

  /** The body of `POST /process`. */
  datatype ProcessRequest = ProcessRequest(assetId: string, style: Field<string>, duration: Field<int>, dialogue: Field<string>)

  /** The `params` column: the JSON of `{ style, duration, dialogue }` after the defaults. */
  datatype Params = Params(style: Option<string>, duration: Option<int>, dialogue: Option<string>)

  const DefaultStyle := "kenburns"
  const DefaultDialogue := "solo"
  const RequestedDuration := 90
  const ListLimit := 50

  function ParamsOf(req: ProcessRequest): Params {
    Params(WithDefault(req.style, DefaultStyle), WithDefault(req.duration, RequestedDuration),
           WithDefault(req.dialogue, DefaultDialogue))
  }

  /** A row of the `jobs` table. */
  datatype JobRow = JobRow(
    id: string, assetId: string, owner: string, params: Params, status: Status,
    startedAt: Option<string>, finishedAt: Option<string>, cpuSeconds: int,
    outputPath: Option<string>, logsPath: Option<string>)

  /** `user?.sub || "unknown"`. */
  function OwnerOf(sub: Option<string>): string {
    if sub.None? || sub.value == "" then "unknown" else sub.value
  }

  // ---------- paths ----------

  function JobDir(root: string, id: string): string {
    PathJoin(PathJoin(root, "tmp"), id)
  }

  function OutDir(root: string, id: string): string {
    PathJoin(PathJoin(root, "outputs"), id)
  }

  function LogsPath(root: string, id: string): string {
    PathJoin(JobDir(root, id), "logs.txt")
  }

  function OutputPath(root: string, id: string): string {
    PathJoin(OutDir(root, id), "video.mp4")
  }

  /** The context the create route hands to the worker. */
  function CtxFor(root: string, id: string, p: Params): Ctx {
    Ctx(JobDir(root, id), OutDir(root, id), OutputPath(root, id), LogsPath(root, id), p.duration, p.dialogue)
  }

  /** The new row of `INSERT INTO jobs ... VALUES(?, ?, ?, ?, 'pending', ?)`. */
  function NewRow(root: string, id: string, sub: Option<string>, req: ProcessRequest): JobRow {
    JobRow(id, req.assetId, OwnerOf(sub), ParamsOf(req), Pending, None, None, 0, None, Some(LogsPath(root, id)))
  }

  /** The clock readings of one run: `datetime('now')` at the start and the end, and the rounded seconds. */
  datatype Clock = Clock(startedAt: string, finishedAt: string, cpuSeconds: int)

  /** `UPDATE jobs SET status='running', startedAt=... WHERE id=?`. */
  function Started(row: JobRow, c: Clock): JobRow {
    row.(status := Running, startedAt := Some(c.startedAt))
  }

  /** The last update of a run: `done` with the output path, or `failed` without it. */
  function Finished(row: JobRow, o: Outcome, outputPath: string, c: Clock): JobRow {
    if o.Produced? then
      row.(status := Done, finishedAt := Some(c.finishedAt), cpuSeconds := c.cpuSeconds, outputPath := Some(outputPath))
    else
      row.(status := Failed, finishedAt := Some(c.finishedAt), cpuSeconds := c.cpuSeconds)
  }

  /** A log file's text: each logged string followed by a newline. */
  function LogText(lines: seq<string>): string {
    if |lines| == 0 then "" else LogText(lines[..|lines| - 1]) + lines[|lines| - 1] + "\n"
  }

  // ---------- the list ----------

  /** The rows of `ids` owned by `owner`, the latest inserted first. */
  function NewestOwned(ids: seq<string>, jobs: map<string, JobRow>, owner: string): seq<JobRow>
    requires forall i :: 0 <= i < |ids| ==> ids[i] in jobs
  {
    if |ids| == 0 then []
    else
      var row := jobs[ids[0]];
      NewestOwned(ids[1..], jobs, owner) + (if row.owner == owner then [row] else [])
  }

  /** All the rows of `ids`, the latest inserted first. */
  function NewestFirst(ids: seq<string>, jobs: map<string, JobRow>): (r: seq<JobRow>)
    requires forall i :: 0 <= i < |ids| ==> ids[i] in jobs
    ensures |r| == |ids| && forall i :: 0 <= i < |ids| ==> r[i] == jobs[ids[|ids| - 1 - i]]
  {
    seq(|ids|, i requires 0 <= i < |ids| => jobs[ids[|ids| - 1 - i]])
  }

  /** `LIMIT n`. */
  function Take<T>(xs: seq<T>, n: nat): (r: seq<T>)
    ensures |r| <= n && |r| <= |xs| && r == xs[..|r|]
    ensures |xs| <= n ==> r == xs
  {
    if |xs| <= n then xs else xs[..n]
  }

  // ---------- replies ----------

  datatype CreateReply = InvalidAsset | Created(jobId: string)

  datatype GetReply = NotFound | Found(row: JobRow)

  /** `GET /:id/logs`: 404, an empty 200 before the log file exists, or its text as `text/plain`. */
  datatype LogsReply = LogsNotFound | LogsEmpty | LogsText(text: string)

  /** A number of a reply header; `None` is `NaN`. */
  function NumberText(n: Option<int>): string {
    if n.None? then "NaN" else IntToString(n.value)
  }

  /**
   * `GET /:id/output`: 404, the whole file with its size as `Content-Length`,
   * or a `206` for the range from `start` to `end` of a file of `size` bytes.
   */
  datatype OutputReply =
    | OutputNotFound
    | Whole(size: nat)
    | Partial(start: Option<int>, end: Option<int>, size: nat)

  function StatusCode(r: OutputReply): nat {
    match r
    case OutputNotFound => 404
    case Whole(_) => 200
    case Partial(_, _, _) => 206
  }

  /** `Content-Range` of a partial reply: `bytes start-end/size`. */
  function ContentRange(r: OutputReply): string
    requires r.Partial?
  {
    "bytes " + NumberText(r.start) + "-" + NumberText(r.end) + "/" + NatToString(r.size)
  }

  /** `Content-Length`: the size, or `end - start + 1` for a range (`NaN` when either end is). */
  function ContentLength(r: OutputReply): Option<int>
    requires !r.OutputNotFound?
  {
    match r
    case Whole(size) => Some(size)
    case Partial(s, e, _) => if s.Some? && e.Some? then Some(e.value - s.value + 1) else None
  }

  /** `s.replace(pat, rep)` for a string pattern: only the first occurrence is replaced. */
  function ReplaceFirst(s: string, pat: string, rep: string): string
    requires |pat| > 0
  {
    if |s| < |pat| then s
    else if s[..|pat|] == pat then rep + s[|pat|..]
    else [s[0]] + ReplaceFirst(s[1..], pat, rep)
  }

  /**
   * The range arithmetic: drop the first `bytes=`, split on `-`, read both
   * ends with `parseInt`; a missing or empty end means the last byte.
   */
  function RangeReply(range: string, size: nat): (r: OutputReply)
    ensures r.Partial? && r.size == size
  {
    RangeOfParts(SplitOn(ReplaceFirst(range, "bytes=", ""), '-'), size)
  }

  /** The reply for the pieces of the range around its dashes. */
  function RangeOfParts(parts: seq<string>, size: nat): (r: OutputReply)
    requires |parts| >= 1
    ensures r.Partial? && r.size == size
  {
    var endStr := if |parts| >= 2 then parts[1] else "";
    Partial(ParseInt(parts[0]), if endStr != "" then ParseInt(endStr) else Some(size - 1), size)
  }

  // ---------- the store invariant ----------

  /**
   * A row keyed by `id`: it carries that id, its log path is the job
   * directory's `logs.txt`, it names an asset, and it has an output path
   * exactly when it is done, the path of a video that exists.
   */
  predicate RowValid(root: string, assets: map<string, Asset>, outputs: map<string, nat>, id: string, row: JobRow) {
    && row.id == id
    && row.logsPath == Some(LogsPath(root, id))
    && row.assetId in assets
    && (row.outputPath.Some? <==> row.status == Done)
    && (row.status == Done ==> row.outputPath == Some(OutputPath(root, id)) && OutputPath(root, id) in outputs)
  }

  /** Every row is valid and listed exactly once in `order`, which lists nothing else. */
  predicate StoreValid(root: string, assets: map<string, Asset>, jobs: map<string, JobRow>, order: seq<string>, outputs: map<string, nat>) {
    && (forall i :: 0 <= i < |order| ==> order[i] in jobs)
    && (forall id :: id in jobs ==> id in order)
    && (forall i, j :: 0 <= i < j < |order| ==> order[i] != order[j])
    && (forall id :: id in jobs ==> RowValid(root, assets, outputs, id, jobs[id]))
  }

  /** Replacing a listed row by a valid one, while videos are only added, keeps the store valid. */
  lemma UpdateKeepsValid(root: string, assets: map<string, Asset>, jobs: map<string, JobRow>, order: seq<string>,
                         outputs: map<string, nat>, outputs': map<string, nat>, id: string, row: JobRow)
    requires StoreValid(root, assets, jobs, order, outputs)
    requires id in jobs && outputs.Keys <= outputs'.Keys
    requires RowValid(root, assets, outputs', id, row)
    ensures StoreValid(root, assets, jobs[id := row], order, outputs')
  {
    var jobs' := jobs[id := row];
    forall k | k in jobs'
      ensures RowValid(root, assets, outputs', k, jobs'[k])
    {
      if k != id {
        assert RowValid(root, assets, outputs, k, jobs[k]);
      }
    }
  }

  /** Adding a valid row under a new id, listed last, keeps the store valid. */
  lemma InsertKeepsValid(root: string, assets: map<string, Asset>, jobs: map<string, JobRow>, order: seq<string>,
                         outputs: map<string, nat>, id: string, row: JobRow)
    requires StoreValid(root, assets, jobs, order, outputs)
    requires id !in jobs
    requires RowValid(root, assets, outputs, id, row)
    ensures StoreValid(root, assets, jobs[id := row], order + [id], outputs)
  {
    var order' := order + [id];
    forall i, j | 0 <= i < j < |order'|
      ensures order'[i] != order'[j]
    {
      if j == |order| {
        assert order[i] in jobs;
      }
    }
  }

  /** The routes' state: the asset rows, the job rows in insertion order, and the files. */
  class JobStore {
    /** `DATA_ROOT`. */
    const root: string
    var assets: map<string, Asset>
    var jobs: map<string, JobRow>
    /** The job ids in `rowid` order. */
    var order: seq<string>
    /** The log files that exist, with the strings appended to them. */
    var logFiles: map<string, seq<string>>
    /** The video files that exist, with their sizes. */
    var outputs: map<string, nat>

    /** The store invariant, `StoreValid`, over the current fields. */
    predicate Valid()
      reads this
    {
      StoreValid(root, assets, jobs, order, outputs)
    }

    constructor(dataRoot: string, assetRows: map<string, Asset>)
      ensures Valid()
      ensures root == dataRoot && assets == assetRows
      ensures jobs == map[] && order == [] && logFiles == map[] && outputs == map[]
    {
      root := dataRoot;
      assets := assetRows;
      jobs := map[];
      order := [];
      logFiles := map[];
      outputs := map[];
    }

    /**
     * `POST /process`: an unknown asset is a 400 `invalid assetId` and
     * nothing is inserted; otherwise a `pending` row is added under the new
     * id. `newId` is the uuid the route draws, which no row has yet.
     */
    method Create(sub: Option<string>, req: ProcessRequest, newId: string) returns (reply: CreateReply)
      requires Valid() && newId !in jobs
      modifies this
      ensures Valid()
      ensures assets == old(assets) && logFiles == old(logFiles) && outputs == old(outputs)
      ensures req.assetId !in assets ==> reply == InvalidAsset && jobs == old(jobs) && order == old(order)
      ensures req.assetId in assets ==>
        && reply == Created(newId)
        && jobs == old(jobs)[newId := NewRow(root, newId, sub, req)]
        && order == old(order) + [newId]
    {
      if req.assetId !in assets {
        return InvalidAsset;
      }
      InsertKeepsValid(root, assets, jobs, order, outputs, newId, NewRow(root, newId, sub, req));
      jobs := jobs[newId := NewRow(root, newId, sub, req)];
      order := order + [newId];
      reply := Created(newId);
    }

    /** `UPDATE jobs SET status='running' ...`: the worker's first step. */
    method Start(id: string, clock: Clock)
      requires Valid() && id in jobs && jobs[id].status == Pending
      modifies this
      ensures Valid() && jobs == old(jobs)[id := Started(old(jobs)[id], clock)]
      ensures order == old(order) && assets == old(assets) && logFiles == old(logFiles) && outputs == old(outputs)
    {
      assert RowValid(root, assets, outputs, id, jobs[id]);
      UpdateKeepsValid(root, assets, jobs, order, outputs, outputs, id, Started(jobs[id], clock));
      jobs := jobs[id := Started(jobs[id], clock)];
    }

    /**
     * The worker's last steps once its run `w` is over: a produced video
     * exists at the output path and the row is `done` with that path;
     * otherwise the row is `failed`. The log gets the run's lines and its
     * last line.
     */
    method Conclude(id: string, w: WorkerRun, size: nat, clock: Clock)
      requires Valid() && id in jobs && jobs[id].status == Running
      modifies this
      ensures Valid()
      ensures jobs == old(jobs)[id := Finished(old(jobs)[id], w.outcome, OutputPath(root, id), clock)]
      ensures outputs == (if w.outcome.Produced? then old(outputs)[OutputPath(root, id) := size] else old(outputs))
      ensures logFiles == old(logFiles)[LogsPath(root, id) :=
        (if LogsPath(root, id) in old(logFiles) then old(logFiles)[LogsPath(root, id)] else [])
        + (w.lines + [LastLine(w.outcome)])]
      ensures order == old(order) && assets == old(assets)
    {
      var out := OutputPath(root, id);
      var outputs' := if w.outcome.Produced? then outputs[out := size] else outputs;
      var row := Finished(jobs[id], w.outcome, out, clock);
      assert RowValid(root, assets, outputs, id, jobs[id]);
      UpdateKeepsValid(root, assets, jobs, order, outputs, outputs', id, row);
      outputs := outputs';
      jobs := jobs[id := row];
      var lp := LogsPath(root, id);
      var before := if lp in logFiles then logFiles[lp] else [];
      logFiles := logFiles[lp := before + (w.lines + [LastLine(w.outcome)])];
    }

    /**
     * `runJob` for a job the create route has just inserted: the row becomes
     * `running`, the worker runs, and the run is concluded.
     */
    method RunJob(id: string, env: Env, clock: Clock) returns (w: WorkerRun)
      requires Valid() && id in jobs && jobs[id].status == Pending
      modifies this
      ensures w == RunWorker(old(assets)[old(jobs)[id].assetId], CtxFor(root, id, old(jobs)[id].params), env)
      ensures Valid()
      ensures jobs == old(jobs)[id := Finished(Started(old(jobs)[id], clock), w.outcome, OutputPath(root, id), clock)]
      ensures outputs == (if w.outcome.Produced? then old(outputs)[OutputPath(root, id) := env.outputSize] else old(outputs))
      ensures logFiles == old(logFiles)[LogsPath(root, id) :=
        (if LogsPath(root, id) in old(logFiles) then old(logFiles)[LogsPath(root, id)] else [])
        + (w.lines + [LastLine(w.outcome)])]
      ensures order == old(order) && assets == old(assets)
    {
      var row := jobs[id];
      ghost var before := jobs;
      Start(id, clock);
      w := RunWorker(assets[row.assetId], CtxFor(root, id, row.params), env);
      Conclude(id, w, env.outputSize, clock);
      UpdateTwice(before, id, Started(row, clock), Finished(Started(row, clock), w.outcome, OutputPath(root, id), clock));
    }

    /** `GET /`: the caller's rows, the latest inserted first, at most fifty. */
    method List(sub: Option<string>) returns (rows: seq<JobRow>)
      requires Valid()
      ensures rows == Take(NewestOwned(order, jobs, OwnerOf(sub)), ListLimit)
      ensures |rows| <= ListLimit
      ensures forall r :: r in rows ==> r.owner == OwnerOf(sub) && r.id in jobs && jobs[r.id] == r
    {
      var owner := OwnerOf(sub);
      rows := [];
      var k := |order|;
      while k > 0 && |rows| < ListLimit
        invariant 0 <= k <= |order|
        invariant rows == NewestOwned(order[k..], jobs, owner)
        invariant |rows| <= ListLimit
        decreases k
      {
        k := k - 1;
        var row := jobs[order[k]];
        assert order[k..][1..] == order[k + 1..];
        if row.owner == owner {
          rows := rows + [row];
        }
      }
      NewestSplit(order, jobs, owner, k);
      if k > 0 {
        var older := NewestOwned(order[..k], jobs, owner);
        assert (rows + older)[..ListLimit] == rows;
      } else {
        assert order[k..] == order;
      }
      forall r | r in rows
        ensures r.owner == owner && r.id in jobs && jobs[r.id] == r
      {
        ListedRows(order, jobs, owner, r);
        var i :| 0 <= i < |order| && jobs[order[i]] == r;
        assert RowValid(root, assets, outputs, order[i], jobs[order[i]]);
      }
    }

    /** `GET /:id`. */
    function Get(id: string): (r: GetReply)
      reads this
      ensures r.Found? <==> id in jobs
      ensures r.Found? ==> r.row == jobs[id]
    {
      if id in jobs then Found(jobs[id]) else NotFound
    }

    /** `GET /:id/logs`. */
    function Logs(id: string): (r: LogsReply)
      reads this
      ensures r == LogsNotFound <==> id !in jobs || jobs[id].logsPath.None?
      ensures r == LogsEmpty <==> id in jobs && jobs[id].logsPath.Some? && jobs[id].logsPath.value !in logFiles
      ensures r.LogsText? ==> r.text == LogText(logFiles[jobs[id].logsPath.value])
    {
      if id !in jobs || jobs[id].logsPath.None? then LogsNotFound
      else if jobs[id].logsPath.value !in logFiles then LogsEmpty
      else LogsText(LogText(logFiles[jobs[id].logsPath.value]))
    }

    /** Every job has a log path: its log is empty until the worker first writes to it. */
    lemma EveryJobHasLog(id: string)
      requires Valid() && id in jobs
      ensures Logs(id) != LogsNotFound
      ensures Logs(id) == LogsEmpty <==> LogsPath(root, id) !in logFiles
    {
      assert RowValid(root, assets, outputs, id, jobs[id]);
    }

    /** `GET /:id/output` with the request's `Range` header, if any. */
    function Output(id: string, range: Option<string>): (r: OutputReply)
      reads this
      ensures r.OutputNotFound? <==> id !in jobs || jobs[id].outputPath.None? || jobs[id].outputPath.value !in outputs
      ensures r.Whole? ==> r.size == outputs[jobs[id].outputPath.value] && (range.None? || range == Some(""))
      ensures r.Partial? ==>
        && range.Some? && range.value != ""
        && r == RangeReply(range.value, outputs[jobs[id].outputPath.value])
    {
      if id !in jobs || jobs[id].outputPath.None? || jobs[id].outputPath.value !in outputs then OutputNotFound
      else
        var size := outputs[jobs[id].outputPath.value];
        if range.Some? && range.value != "" then RangeReply(range.value, size) else Whole(size)
    }

    /** A done job's video is served, whole without a range; any other job's is not found. */
    lemma OnlyDoneServed(id: string, range: Option<string>)
      requires Valid() && id in jobs
      ensures jobs[id].status == Done ==> Output(id, None) == Whole(outputs[OutputPath(root, id)])
      ensures jobs[id].status != Done ==> Output(id, range) == OutputNotFound
    {
      assert RowValid(root, assets, outputs, id, jobs[id]);
    }
  }

  // ---------- properties ----------

  /** Appending lines to a log appends their text to the file. */
  lemma {:induction false} LogTextAppend(a: seq<string>, b: seq<string>)
    ensures LogText(a + b) == LogText(a) + LogText(b)
    decreases |b|
  {
    if |b| == 0 {
      assert a + b == a;
    } else {
      var init := b[..|b| - 1];
      LogTextAppend(a, init);
      assert (a + b)[..|a + b| - 1] == a + init;
      assert (a + b)[|a + b| - 1] == b[|b| - 1];
    }
  }

  /** A second update of the same key overrides the first. */
  lemma UpdateTwice<K, V>(m: map<K, V>, k: K, a: V, b: V)
    ensures m[k := a][k := b] == m[k := b]
  {
  }

  /** A range header with the prefix `bytes=` is read from what follows the prefix. */
  lemma RangeHeader(rest: string, size: nat)
    ensures RangeReply("bytes=" + rest, size) == RangeOfParts(SplitOn(rest, '-'), size)
  {
    DropBytesPrefix(rest);
  }

  lemma DropBytesPrefix(rest: string)
    ensures ReplaceFirst("bytes=" + rest, "bytes=", "") == rest
  {
    var h := "bytes=" + rest;
    assert h[..6] == "bytes=";
    assert h[6..] == rest;
  }

  /** A range of both ends holds `e - s + 1` bytes. */
  lemma PartialLength(s: int, e: int, size: nat)
    ensures ContentLength(Partial(Some(s), Some(e), size)) == Some(e - s + 1)
  {
  }

  /**
   * `bytes=s-e` is answered with a 206 for exactly the bytes `s` to `e`: the
   * range header echoes both ends and the length is `e - s + 1`.
   */
  lemma RangeOfBounds(s: nat, e: nat, size: nat)
    ensures RangeReply("bytes=" + (NatToString(s) + "-" + NatToString(e)), size) == Partial(Some(s), Some(e), size)
    ensures var r := Partial(Some(s), Some(e), size);
      && StatusCode(r) == 206
      && ContentRange(r) == "bytes " + NatToString(s) + "-" + NatToString(e) + "/" + NatToString(size)
      && ContentLength(r) == Some(e - s + 1)
  {
    var a, b := NatToString(s), NatToString(e);
    NatToStringFacts(s);
    NatToStringFacts(e);
    RangeHeader(a + "-" + b, size);
    SplitAfterPiece(a, '-', b);
    SplitWithout(b, '-');
    ParseIntOfNat(s);
    ParseIntOfNat(e);
    PartialLength(s, e, size);
  }

  /** `bytes=s-` runs to the last byte of the file. */
  lemma RangeOpenEnd(s: nat, size: nat)
    ensures RangeReply("bytes=" + (NatToString(s) + "-"), size) == Partial(Some(s), Some(size - 1), size)
  {
    var a := NatToString(s);
    NatToStringFacts(s);
    RangeHeader(a + "-", size);
    assert a + "-" == a + "-" + "";
    SplitAfterPiece(a, '-', "");
    ParseIntOfNat(s);
  }

  /**
   * A suffix range `bytes=-n` is not understood: its start is `NaN`, and so
   * are the first number of `Content-Range` and the length.
   */
  lemma RangeSuffixUnread(n: nat, size: nat)
    ensures RangeReply("bytes=" + ("-" + NatToString(n)), size) == Partial(None, Some(n), size)
    ensures var r := Partial(None, Some(n), size);
      && ContentRange(r) == "bytes " + "NaN" + "-" + NatToString(n) + "/" + NatToString(size)
      && ContentLength(r) == None
  {
    var b := NatToString(n);
    NatToStringFacts(n);
    RangeHeader("-" + b, size);
    assert ("-" + b)[0] == '-' && ("-" + b)[1..] == b;
    SplitWithout(b, '-');
    ParseIntOfNat(n);
    assert ParseInt("") == None;
  }

  /** The caller's rows are all rows, newest first, filtered by owner. */
  lemma {:induction false} NewestOwnedFilters(ids: seq<string>, jobs: map<string, JobRow>, owner: string)
    requires forall i :: 0 <= i < |ids| ==> ids[i] in jobs
    ensures NewestOwned(ids, jobs, owner) == Filter(NewestFirst(ids, jobs), (r: JobRow) => r.owner == owner)
    decreases |ids|
  {
    if |ids| > 0 {
      var n := |ids|;
      var init, row := ids[..n - 1], jobs[ids[n - 1]];
      NewestOwnedFilters(init, jobs, owner);
      NewestSplit(ids, jobs, owner, n - 1);
      assert ids[n - 1..] == [ids[n - 1]];
      assert NewestOwned([ids[n - 1]], jobs, owner) == NewestOwned([], jobs, owner) + (if row.owner == owner then [row] else []) by {
        assert [ids[n - 1]][1..] == [];
      }
      assert NewestFirst(ids, jobs) == [row] + NewestFirst(init, jobs);
      FilterCons(row, NewestFirst(init, jobs), (r: JobRow) => r.owner == owner);
    }
  }

  /** A row is listed exactly when the owner matches and its id is among `ids`. */
  lemma ListedRows(ids: seq<string>, jobs: map<string, JobRow>, owner: string, row: JobRow)
    requires forall i :: 0 <= i < |ids| ==> ids[i] in jobs
    ensures row in NewestOwned(ids, jobs, owner) <==> row.owner == owner && exists i :: 0 <= i < |ids| && jobs[ids[i]] == row
  {
    NewestOwnedFilters(ids, jobs, owner);
    FilterMembers(NewestFirst(ids, jobs), (r: JobRow) => r.owner == owner, row);
    var all := NewestFirst(ids, jobs);
    if row in all {
      var k :| 0 <= k < |all| && all[k] == row;
      assert jobs[ids[|ids| - 1 - k]] == row;
    }
    if exists i :: 0 <= i < |ids| && jobs[ids[i]] == row {
      var i :| 0 <= i < |ids| && jobs[ids[i]] == row;
      assert all[|ids| - 1 - i] == row;
    }
  }

  /** The rows of a suffix of the ids come first: the list of all ids is the newer part's, then the older part's. */
  lemma {:induction false} NewestSplit(ids: seq<string>, jobs: map<string, JobRow>, owner: string, k: nat)
    requires forall i :: 0 <= i < |ids| ==> ids[i] in jobs
    requires k <= |ids|
    ensures NewestOwned(ids, jobs, owner) == NewestOwned(ids[k..], jobs, owner) + NewestOwned(ids[..k], jobs, owner)
    decreases k
  {
    if k == 0 {
      assert ids[0..] == ids;
    } else {
      NewestSplit(ids[1..], jobs, owner, k - 1);
      assert ids[1..][k - 1..] == ids[k..];
      assert ids[1..][..k - 1] == ids[..k][1..];
    }
  }
}
