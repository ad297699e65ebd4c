/** The website backfill: a keyset scan over a fixed hotel snapshot that enqueues durable jobs first and moves its
    cursor second, with pause and resume, a bounded admission lane, and a crash possible between any two steps. */
module Backfill {
  import opened Options
  import opened Sums

  /** What the scan reads of a hotel. A blank website is None; `fillable` says some other scanned field is blank;
      `traceable` says the Maps identity link can be built. */
  datatype Hotel = Hotel(id: nat, key: string, website: Option<string>, fillable: bool, traceable: bool, lastSeen: int)

  /** `discovery` also queues hotels without a website; `cap` and `batch` are the effective limits. */
  datatype Settings = Settings(discovery: bool, maxPending: int, batchSize: int) {
    function Cap(): nat {
      if maxPending < 0 then 0 else if maxPending < 1000 then maxPending else 1000
    }

    function Batch(): nat {
      var b := if batchSize < 1 then 1 else batchSize;
      if b < 1000 then b else 1000
    }
  }

  /** The deterministic job identity; a job of a backfill carries its run. */
  datatype JobKey = JobKey(key: string, website: Option<string>, lastSeen: int, discover: bool, run: Option<nat>)

  datatype JobState = Pending | Retry | Fetched | Applied | Skipped | Review

  datatype Job = Job(state: JobState, attempts: nat)

  type Jobs = map<JobKey, Job>

  datatype RunState = Running | Paused | Draining | PausedDraining

  datatype Run = Run(id: nat, state: RunState, cursor: nat, ceiling: nat, scanned: nat, missing: nat)

  predicate Active(j: Job) {
    j.state == Pending || j.state == Retry || j.state == Fetched
  }

  function ActiveJobs(jobs: Jobs, run: nat): set<JobKey> {
    set k | k in jobs && k.run == Some(run) && Active(jobs[k])
  }

  // ---- eligibility and the scanned rows --------------------------------------------------

  /** The row filter of the query. */
  predicate Passes(h: Hotel, settings: Settings) {
    h.fillable || (settings.discovery && h.website.None?)
  }

  /** The rows that really get a job. */
  predicate Eligible(h: Hotel, settings: Settings) {
    Passes(h, settings) && (h.website.Some? || (settings.discovery && h.traceable))
  }

  function KeyOf(h: Hotel, run: nat): JobKey {
    JobKey(h.key, h.website, h.lastSeen, h.website.None?, Some(run))
  }

  /** Ids ascend from one and dedup keys are unique. */
  ghost predicate IsSnapshot(hotels: seq<Hotel>) {
    && (forall i :: 0 <= i < |hotels| ==> hotels[i].id >= 1)
    && (forall i, j :: 0 <= i < j < |hotels| ==> hotels[i].id < hotels[j].id)
    && (forall i, j :: 0 <= i < j < |hotels| ==> hotels[i].key != hotels[j].key)
  }

  /** Hotels beyond the cursor, up to the ceiling, that pass the filter, in id order. */
  function Remaining(hotels: seq<Hotel>, settings: Settings, cursor: nat, ceiling: nat): seq<Hotel> {
    if hotels == [] then []
    else
      var rest := Remaining(hotels[1..], settings, cursor, ceiling);
      if cursor < hotels[0].id <= ceiling && Passes(hotels[0], settings) then [hotels[0]] + rest else rest
  }

  function Rows(hotels: seq<Hotel>, settings: Settings, cursor: nat, ceiling: nat): seq<Hotel> {
    var all := Remaining(hotels, settings, cursor, ceiling);
    if |all| <= settings.Batch() then all else all[..settings.Batch()]
  }

  // ---- queue operations as functions ---------------------------------------------------

  function Enqueued(jobs: Jobs, k: JobKey): Jobs {
    if k in jobs then jobs else jobs[k := Job(Pending, 0)]
  }

  datatype Status = NotStarted | At(run: Run) | Completed

  function StatusOf(jobs: Jobs, run: Option<Run>): Status {
    if run.None? then NotStarted
    else if run.value.state == Draining && ActiveJobs(jobs, run.value.id) == {} then Completed
    else At(run.value)
  }

  function Started(jobs: Jobs, run: Option<Run>, next: nat, ceiling: nat): Option<Run> {
    match StatusOf(jobs, run)
    case At(r) =>
      if r.state == Paused then Some(r.(state := Running))
      else if r.state == PausedDraining then Some(r.(state := Draining))
      else run
    case _ => Some(Run(next, Running, 0, ceiling, 0, 0))
  }

  function PausedRun(run: Option<Run>): Option<Run> {
    if run.None? then None
    else if run.value.state == Running then Some(run.value.(state := Paused))
    else if run.value.state == Draining then Some(run.value.(state := PausedDraining))
    else run
  }

  /** Only the run that was scanned is updated, and a pause that came in between is kept. */
  function Checkpointed(run: Option<Run>, id: nat, cursor: nat, scanned: nat, missing: nat, exhausted: bool): Option<Run> {
    if run.None? || run.value.id != id then run
    else
      var r := run.value;
      var state := if exhausted && r.state == Running then Draining else if exhausted && r.state == Paused then PausedDraining else r.state;
      Some(r.(cursor := cursor, scanned := r.scanned + scanned, missing := r.missing + missing, state := state))
  }

  // ---- the interleaved protocol -----------------------------------------------------------

  /** A scan in flight: the rows still to visit, the admission slots left, and how far it got. */
  datatype Scan = Scan(run: nat, ceiling: nat, cursor: nat, rows: seq<Hotel>, slots: nat, scanned: nat, missing: nat, exhausted: bool)

  datatype World = World(jobs: Jobs, run: Option<Run>, nextRun: nat, scan: Option<Scan>)

  datatype Step =
    | BeginScan
    | ScanRow
    | Checkpoint
    | CrashScan
    | Start(ceiling: nat)
    | Pause
    | EnqueueMaps(k: JobKey)
    | ChangeJob(k: JobKey, job: Job)

  function Slots(w: World, settings: Settings): nat
    requires w.run.Some?
  {
    var active := |ActiveJobs(w.jobs, w.run.value.id)|;
    if active < settings.Cap() then settings.Cap() - active else 0
  }

  predicate Enabled(w: World, step: Step, settings: Settings) {
    match step
    case BeginScan => w.scan.None? && w.run.Some? && w.run.value.state == Running && Slots(w, settings) > 0
    case ScanRow => w.scan.Some? && w.scan.value.rows != [] && w.scan.value.slots > 0
    case Checkpoint => w.scan.Some? && (w.scan.value.rows == [] || w.scan.value.slots == 0)
    case CrashScan => w.scan.Some?
    case Start(_) => true
    case Pause => true
    case EnqueueMaps(k) => k.run.None?
    case ChangeJob(k, job) => k in w.jobs
  }

  function Visit(w: World, settings: Settings): World
    requires Enabled(w, ScanRow, settings)
  {
    var s := w.scan.value;
    var h := s.rows[0];
    var queued := Eligible(h, settings);
    w.(jobs := if queued then Enqueued(w.jobs, KeyOf(h, s.run)) else w.jobs,
       scan := Some(s.(cursor := h.id, rows := s.rows[1..], slots := if queued then s.slots - 1 else s.slots,
                       scanned := s.scanned + 1, missing := if h.website.None? then s.missing + 1 else s.missing)))
  }

  function Apply(w: World, step: Step, hotels: seq<Hotel>, settings: Settings): World
    requires Enabled(w, step, settings)
  {
    match step
    case BeginScan =>
      var r := w.run.value;
      var rows := Rows(hotels, settings, r.cursor, r.ceiling);
      w.(scan := Some(Scan(r.id, r.ceiling, r.cursor, rows, Slots(w, settings), 0, 0, rows == [])))
    case ScanRow => Visit(w, settings)
    case Checkpoint =>
      var s := w.scan.value;
      w.(run := Checkpointed(w.run, s.run, if s.exhausted then s.ceiling else s.cursor, s.scanned, s.missing, s.exhausted), scan := None)
    case CrashScan => w.(scan := None)
    case Start(ceiling) => w.(run := Started(w.jobs, w.run, w.nextRun, ceiling), nextRun := w.nextRun + 1)
    case Pause => w.(run := PausedRun(w.run))
    case EnqueueMaps(k) => w.(jobs := Enqueued(w.jobs, k))
    case ChangeJob(k, job) => w.(jobs := w.jobs[k := job])
  }

  // ---- invariants ---------------------------------------------------------------------------

  /** Every eligible hotel up to `upTo` has its job. */
  ghost predicate Covered(jobs: Jobs, run: nat, hotels: seq<Hotel>, settings: Settings, upTo: nat) {
    forall h :: h in hotels && Eligible(h, settings) && h.id <= upTo ==> KeyOf(h, run) in jobs
  }

  /** Jobs of a run belong to eligible hotels, and only issued runs have jobs. */
  ghost predicate JobsBelong(w: World, hotels: seq<Hotel>, settings: Settings) {
    forall k :: k in w.jobs && k.run.Some? ==>
      k.run.value < w.nextRun && (exists h :: h in hotels && Eligible(h, settings) && k == KeyOf(h, k.run.value))
  }

  /** How many rows are still to be scanned. */
  function Left(hotels: seq<Hotel>, settings: Settings, cursor: nat, ceiling: nat): nat {
    |Remaining(hotels, settings, cursor, ceiling)|
  }

  /** The `scanned` counter of the run counts exactly the rows behind the cursor. */
  ghost predicate RunSound(w: World, hotels: seq<Hotel>, settings: Settings) {
    w.run.Some? ==>
      var r := w.run.value;
      && r.id < w.nextRun && r.cursor <= r.ceiling
      && (r.state == Draining || r.state == PausedDraining ==> r.cursor == r.ceiling)
      && Covered(w.jobs, r.id, hotels, settings, r.cursor)
      && r.scanned + Left(hotels, settings, r.cursor, r.ceiling) == Left(hotels, settings, 0, r.ceiling)
  }

  /** The active jobs of the run and the slots of the scan in flight exceed the lane by at most `extra`. */
  ghost predicate Admitted(w: World, settings: Settings, extra: nat) {
    w.run.Some? ==> |ActiveJobs(w.jobs, w.run.value.id)| + (if w.scan.Some? then w.scan.value.slots else 0) <= settings.Cap() + extra
  }

  /** The step saves a result for a job of the run that was no longer active. */
  predicate Revives(w: World, step: Step, run: nat) {
    step.ChangeJob? && step.k.run == Some(run) && step.k in w.jobs && !Active(w.jobs[step.k]) && Active(step.job)
  }

  /** A scan in flight belongs to the current, unfinished run; what it passed is covered; and the rows it still has
      are the next ones beyond its position. */
  ghost predicate ScanSound(w: World, hotels: seq<Hotel>, settings: Settings) {
    w.scan.Some? ==>
      var s := w.scan.value;
      && w.run.Some? && s.run == w.run.value.id && s.ceiling == w.run.value.ceiling
      && (w.run.value.state == Running || w.run.value.state == Paused)
      && w.run.value.cursor <= s.cursor <= s.ceiling
      && Covered(w.jobs, s.run, hotels, settings, s.cursor)
      && s.rows <= Remaining(hotels, settings, s.cursor, s.ceiling)
      && (s.exhausted ==> Remaining(hotels, settings, s.cursor, s.ceiling) == [])
      && (!s.exhausted && s.scanned == 0 ==> s.rows != [])
      && (if s.scanned == 0 then s.slots > 0 else w.run.value.cursor < s.cursor)
      && s.scanned + Left(hotels, settings, s.cursor, s.ceiling) == Left(hotels, settings, w.run.value.cursor, s.ceiling)
  }

  ghost predicate Sound(w: World, hotels: seq<Hotel>, settings: Settings) {
    JobsBelong(w, hotels, settings) && RunSound(w, hotels, settings) && ScanSound(w, hotels, settings)
  }

  // ---- facts about the remaining rows --------------------------------------------------------

  lemma {:induction false} RemainingMembers(hotels: seq<Hotel>, settings: Settings, cursor: nat, ceiling: nat, h: Hotel)
    ensures h in Remaining(hotels, settings, cursor, ceiling) <==> h in hotels && cursor < h.id <= ceiling && Passes(h, settings)
  {
    if hotels != [] {
      RemainingMembers(hotels[1..], settings, cursor, ceiling, h);
      assert hotels == [hotels[0]] + hotels[1..];
    }
  }

  ghost predicate Ascending(hotels: seq<Hotel>) {
    forall i, j :: 0 <= i < j < |hotels| ==> hotels[i].id < hotels[j].id
  }

  /** The first remaining row is the one with the least id. */
  lemma {:induction false} FirstIsLeast(hotels: seq<Hotel>, settings: Settings, cursor: nat, ceiling: nat, h: Hotel)
    requires Ascending(hotels) && h in Remaining(hotels, settings, cursor, ceiling)
    ensures Remaining(hotels, settings, cursor, ceiling)[0].id <= h.id
  {
    var all := Remaining(hotels, settings, cursor, ceiling);
    var first, tail := hotels[0], hotels[1..];
    if cursor < first.id <= ceiling && Passes(first, settings) {
      if h != first {
        assert h in all[1..];
        RemainingMembers(tail, settings, cursor, ceiling, h);
      }
    } else {
      FirstIsLeast(tail, settings, cursor, ceiling, h);
    }
  }

  /** Visiting the first remaining row leaves exactly the others. */
  lemma {:induction false} RemainingTail(hotels: seq<Hotel>, settings: Settings, cursor: nat, ceiling: nat)
    requires Ascending(hotels) && Remaining(hotels, settings, cursor, ceiling) != []
    ensures var all := Remaining(hotels, settings, cursor, ceiling);
            cursor < all[0].id <= ceiling && Remaining(hotels, settings, all[0].id, ceiling) == all[1..]
  {
    var all := Remaining(hotels, settings, cursor, ceiling);
    var first, tail := hotels[0], hotels[1..];
    if cursor < first.id <= ceiling && Passes(first, settings) {
      RemainingSame(tail, settings, cursor, first.id, ceiling);
    } else {
      RemainingTail(tail, settings, cursor, ceiling);
    }
    assert all[0] in all;
    RemainingMembers(hotels, settings, cursor, ceiling, all[0]);
    if !(cursor < first.id <= ceiling && Passes(first, settings)) {
      BeforeFirst(hotels, settings, cursor, ceiling);
    }
  }

  /** A skipped hotel stays skipped when the cursor moves to the first remaining row. */
  lemma BeforeFirst(hotels: seq<Hotel>, settings: Settings, cursor: nat, ceiling: nat)
    requires Ascending(hotels) && hotels != [] && Remaining(hotels[1..], settings, cursor, ceiling) != []
    ensures hotels[0].id < Remaining(hotels[1..], settings, cursor, ceiling)[0].id
  {
    var h := Remaining(hotels[1..], settings, cursor, ceiling)[0];
    assert h in Remaining(hotels[1..], settings, cursor, ceiling);
    RemainingMembers(hotels[1..], settings, cursor, ceiling, h);
    var i :| 0 <= i < |hotels[1..]| && hotels[1..][i] == h;
    assert hotels[i + 1] == h;
  }

  lemma {:induction false} RemainingSame(hotels: seq<Hotel>, settings: Settings, cursor: nat, further: nat, ceiling: nat)
    requires cursor <= further && forall h :: h in hotels ==> h.id > further
    ensures Remaining(hotels, settings, cursor, ceiling) == Remaining(hotels, settings, further, ceiling)
  {
    if hotels != [] {
      RemainingSame(hotels[1..], settings, cursor, further, ceiling);
    }
  }

  // ---- every step keeps the invariants -------------------------------------------------------

  lemma EnqueueOneActive(jobs: Jobs, k: JobKey, run: nat)
    ensures |ActiveJobs(Enqueued(jobs, k), run)| <= |ActiveJobs(jobs, run)| + (if k.run == Some(run) then 1 else 0)
  {
    var before, after := ActiveJobs(jobs, run), ActiveJobs(Enqueued(jobs, k), run);
    if k.run == Some(run) {
      SubsetSize(after, before + {k});
    } else {
      SubsetSize(after, before);
    }
  }

  lemma BeginKeeps(w: World, hotels: seq<Hotel>, settings: Settings)
    requires IsSnapshot(hotels) && Sound(w, hotels, settings) && Enabled(w, BeginScan, settings)
    ensures Sound(Apply(w, BeginScan, hotels, settings), hotels, settings)
  {
    hide Covered, Remaining, IsSnapshot;
    var all := Remaining(hotels, settings, w.run.value.cursor, w.run.value.ceiling);
    assert all[..|all|] == all;
  }

  lemma CoverOne(jobs: Jobs, run: nat, hotels: seq<Hotel>, settings: Settings, cursor: nat, ceiling: nat)
    requires Ascending(hotels) && Remaining(hotels, settings, cursor, ceiling) != []
    requires Covered(jobs, run, hotels, settings, cursor)
    ensures var h := Remaining(hotels, settings, cursor, ceiling)[0];
            && h in hotels && cursor < h.id <= ceiling
            && Covered(if Eligible(h, settings) then Enqueued(jobs, KeyOf(h, run)) else jobs, run, hotels, settings, h.id)
  {
    var all := Remaining(hotels, settings, cursor, ceiling);
    var h := all[0];
    RemainingTail(hotels, settings, cursor, ceiling);
    RemainingMembers(hotels, settings, cursor, ceiling, h);
    hide Remaining;
    forall g | g in hotels && Eligible(g, settings) && g.id <= h.id
      ensures KeyOf(g, run) in (if Eligible(h, settings) then Enqueued(jobs, KeyOf(h, run)) else jobs)
    {
      if g.id > cursor {
        RemainingMembers(hotels, settings, cursor, ceiling, g);
        FirstIsLeast(hotels, settings, cursor, ceiling, g);
        SameId(hotels, g, h);
      }
    }
  }

  lemma SameId(hotels: seq<Hotel>, g: Hotel, h: Hotel)
    requires Ascending(hotels) && g in hotels && h in hotels
    ensures g.id == h.id <==> g == h
  {
    var i :| 0 <= i < |hotels| && hotels[i] == g;
    var j :| 0 <= j < |hotels| && hotels[j] == h;
  }

  lemma VisitKeeps(w: World, hotels: seq<Hotel>, settings: Settings)
    requires IsSnapshot(hotels) && Sound(w, hotels, settings) && Enabled(w, ScanRow, settings)
    ensures Sound(Visit(w, settings), hotels, settings)
  {
    hide Remaining;
    var s, v := w.scan.value, Visit(w, settings);
    var all := Remaining(hotels, settings, s.cursor, s.ceiling);
    var h := s.rows[0];
    assert Ascending(hotels);
    assert h == all[0];
    RemainingTail(hotels, settings, s.cursor, s.ceiling);
    CoverOne(w.jobs, s.run, hotels, settings, s.cursor, s.ceiling);
    assert Covered(v.jobs, s.run, hotels, settings, w.run.value.cursor);
    assert JobsBelong(v, hotels, settings);
    hide Covered, JobsBelong, ActiveJobs, Eligible;
  }

  lemma CheckpointKeeps(w: World, hotels: seq<Hotel>, settings: Settings)
    requires Sound(w, hotels, settings) && Enabled(w, Checkpoint, settings)
    ensures Sound(Apply(w, Checkpoint, hotels, settings), hotels, settings)
  {
    var s := w.scan.value;
    if s.exhausted {
      NothingLeft(w.jobs, s.run, hotels, settings, s.cursor, s.ceiling);
      NothingBeyond(hotels, settings, s.ceiling);
    }
    hide Remaining, Covered, ActiveJobs;
    assert JobsBelong(Apply(w, Checkpoint, hotels, settings), hotels, settings);
  }

  lemma {:induction false} NothingBeyond(hotels: seq<Hotel>, settings: Settings, ceiling: nat)
    ensures Left(hotels, settings, ceiling, ceiling) == 0
  {
    if hotels != [] {
      NothingBeyond(hotels[1..], settings, ceiling);
    }
  }

  lemma NothingLeft(jobs: Jobs, run: nat, hotels: seq<Hotel>, settings: Settings, cursor: nat, ceiling: nat)
    requires Covered(jobs, run, hotels, settings, cursor) && Remaining(hotels, settings, cursor, ceiling) == []
    ensures Covered(jobs, run, hotels, settings, ceiling)
  {
    forall h | h in hotels && Eligible(h, settings) && h.id <= ceiling ensures KeyOf(h, run) in jobs {
      RemainingMembers(hotels, settings, cursor, ceiling, h);
    }
  }

  lemma StartKeeps(w: World, ceiling: nat, hotels: seq<Hotel>, settings: Settings)
    requires IsSnapshot(hotels) && Sound(w, hotels, settings)
    ensures Sound(Apply(w, Start(ceiling), hotels, settings), hotels, settings)
  {
    var v := Apply(w, Start(ceiling), hotels, settings);
    hide Remaining;
    assert Covered(w.jobs, w.nextRun, hotels, settings, 0);
    assert JobsBelong(v, hotels, settings);
    hide Covered, JobsBelong;
  }

  /** All invariants hold over every step, in whatever order the scanner, the operator and the job workers act. */
  lemma StepKeepsSound(w: World, step: Step, hotels: seq<Hotel>, settings: Settings)
    requires IsSnapshot(hotels) && Sound(w, hotels, settings) && Enabled(w, step, settings)
    ensures Sound(Apply(w, step, hotels, settings), hotels, settings)
  {
    match step
    case BeginScan => BeginKeeps(w, hotels, settings);
    case ScanRow => VisitKeeps(w, hotels, settings);
    case Checkpoint => CheckpointKeeps(w, hotels, settings);
    case CrashScan => hide Remaining;
    case Start(ceiling) => StartKeeps(w, ceiling, hotels, settings);
    case Pause => hide Remaining, Covered, ActiveJobs;
    case EnqueueMaps(k) => hide Remaining;
    case ChangeJob(k, job) => hide Remaining;
  }

  lemma ChangeOneActive(jobs: Jobs, k: JobKey, job: Job, run: nat)
    ensures |ActiveJobs(jobs[k := job], run)| <= |ActiveJobs(jobs, run)| + 1
    ensures k.run != Some(run) || !Active(job) || (k in jobs && Active(jobs[k])) ==> |ActiveJobs(jobs[k := job], run)| <= |ActiveJobs(jobs, run)|
  {
    var before, after := ActiveJobs(jobs, run), ActiveJobs(jobs[k := job], run);
    SubsetSize(after, before + {k});
    if k.run != Some(run) || !Active(job) || (k in jobs && Active(jobs[k])) {
      SubsetSize(after, before);
    }
  }

  lemma NewRunIsEmpty(w: World, hotels: seq<Hotel>, settings: Settings)
    requires JobsBelong(w, hotels, settings)
    ensures ActiveJobs(w.jobs, w.nextRun) == {}
  {}

  /** Only a result saved for an inactive job of the run can take the run further beyond its lane, and by one job. */
  lemma StepKeepsAdmitted(w: World, step: Step, hotels: seq<Hotel>, settings: Settings, extra: nat)
    requires Sound(w, hotels, settings) && Admitted(w, settings, extra) && Enabled(w, step, settings)
    ensures var v := Apply(w, step, hotels, settings);
            && v.run.Some? ==> Admitted(v, settings, if Revives(w, step, v.run.value.id) then extra + 1 else extra)
  {
    hide Remaining, Covered, ActiveJobs, JobsBelong, Left;
    match step
    case ScanRow => EnqueueOneActive(w.jobs, KeyOf(w.scan.value.rows[0], w.scan.value.run), w.scan.value.run);
    case Start(ceiling) => NewRunIsEmpty(w, hotels, settings);
    case EnqueueMaps(k) =>
      if w.run.Some? {
        EnqueueOneActive(w.jobs, k, w.run.value.id);
      }
    case ChangeJob(k, job) =>
      if w.run.Some? {
        ChangeOneActive(w.jobs, k, job, w.run.value.id);
      }
    case _ =>
  }

  // ---- whole runs -----------------------------------------------------------------------------

  ghost predicate Trace(worlds: seq<World>, steps: seq<Step>, hotels: seq<Hotel>, settings: Settings) {
    && |worlds| == |steps| + 1 && IsSnapshot(hotels)
    && worlds[0].run.None? && worlds[0].scan.None? && (forall k :: k in worlds[0].jobs ==> k.run.None?)
    && forall i :: 0 <= i < |steps| ==> Enabled(worlds[i], steps[i], settings) && worlds[i + 1] == Apply(worlds[i], steps[i], hotels, settings)
  }

  lemma {:induction false} TraceSound(worlds: seq<World>, steps: seq<Step>, hotels: seq<Hotel>, settings: Settings, i: nat)
    requires Trace(worlds, steps, hotels, settings) && i < |worlds|
    ensures Sound(worlds[i], hotels, settings)
  {
    hide Enabled, Apply;
    if i > 0 {
      hide Sound;
      TraceSound(worlds, steps, hotels, settings, i - 1);
      StepKeepsSound(worlds[i - 1], steps[i - 1], hotels, settings);
    }
  }

  /** Completeness: at every moment each eligible hotel up to the cursor has exactly one job of the run, and once the
      run is draining, paused or not, every eligible hotel up to the ceiling has. */
  lemma BackfillComplete(worlds: seq<World>, steps: seq<Step>, hotels: seq<Hotel>, settings: Settings, i: nat, h: Hotel)
    requires Trace(worlds, steps, hotels, settings) && i < |worlds| && worlds[i].run.Some?
    requires h in hotels && (h.fillable || (settings.discovery && h.website.None?))
    requires h.website.Some? || (settings.discovery && h.traceable)
    requires h.id <= worlds[i].run.value.cursor ||
             (h.id <= worlds[i].run.value.ceiling && (worlds[i].run.value.state == Draining || worlds[i].run.value.state == PausedDraining))
    ensures KeyOf(h, worlds[i].run.value.id) in worlds[i].jobs
    ensures KeyOf(h, worlds[i].run.value.id) == JobKey(h.key, h.website, h.lastSeen, h.website == None, Some(worlds[i].run.value.id))
    ensures forall k :: k in worlds[i].jobs && k.run == Some(worlds[i].run.value.id) && k.key == h.key ==> k == KeyOf(h, worlds[i].run.value.id)
  {
    assert Eligible(h, settings);
    hide Enabled, Apply, Remaining, Eligible, ActiveJobs;
    TraceSound(worlds, steps, hotels, settings, i);
    var w := worlds[i];
    forall k | k in w.jobs && k.run == Some(w.run.value.id) && k.key == h.key ensures k == KeyOf(h, w.run.value.id) {
      var g :| g in hotels && Eligible(g, settings) && k == KeyOf(g, k.run.value);
      SameKey(hotels, g, h);
    }
  }

  /** And nobody else does: a job of a run belongs to a hotel that lacks something and can be looked for. */
  lemma OnlyEligibleHaveJobs(worlds: seq<World>, steps: seq<Step>, hotels: seq<Hotel>, settings: Settings, i: nat, k: JobKey)
    requires Trace(worlds, steps, hotels, settings) && i < |worlds| && k in worlds[i].jobs && k.run.Some?
    ensures exists h :: h in hotels && k == JobKey(h.key, h.website, h.lastSeen, h.website == None, k.run)
                        && (h.fillable || (settings.discovery && h.website.None?)) && (h.website.Some? || (settings.discovery && h.traceable))
  {
    hide Enabled, Apply, RunSound, ScanSound;
    TraceSound(worlds, steps, hotels, settings, i);
    var h :| h in hotels && Eligible(h, settings) && k == KeyOf(h, k.run.value);
  }

  lemma SameKey(hotels: seq<Hotel>, g: Hotel, h: Hotel)
    requires IsSnapshot(hotels) && g in hotels && h in hotels && g.key == h.key
    ensures g == h
  {
    var i :| 0 <= i < |hotels| && hotels[i] == g;
    var j :| 0 <= j < |hotels| && hotels[j] == h;
  }

  /** How many of the first `n` steps saved a result for a job of the run that was no longer active. */
  function Revivals(worlds: seq<World>, steps: seq<Step>, n: nat, run: nat): (count: nat)
    requires n <= |steps| < |worlds|
    ensures count <= n
  {
    if n == 0 then 0 else Revivals(worlds, steps, n - 1, run) + (if Revives(worlds[n - 1], steps[n - 1], run) then 1 else 0)
  }

  /** Admission: the active jobs of a run exceed the configured lane by at most the number of results saved so far for
      jobs of the run that were no longer active. */
  lemma AdmissionBounded(worlds: seq<World>, steps: seq<Step>, hotels: seq<Hotel>, settings: Settings, i: nat)
    requires Trace(worlds, steps, hotels, settings) && i < |worlds| && worlds[i].run.Some?
    ensures var run := worlds[i].run.value;
            var lane := if settings.maxPending < 0 then 0 else if settings.maxPending > 1000 then 1000 else settings.maxPending;
            && |set k | k in worlds[i].jobs && k.run == Some(run.id) && worlds[i].jobs[k].state in {Pending, Retry, Fetched}|
               <= lane + Revivals(worlds, steps, i, run.id)
            && run.cursor <= run.ceiling
  {
    hide Enabled, Apply, Remaining;
    TraceSound(worlds, steps, hotels, settings, i);
    TraceAdmitted(worlds, steps, hotels, settings, i);
    ActiveAre(worlds[i].jobs, worlds[i].run.value.id);
  }

  lemma ActiveAre(jobs: Jobs, run: nat)
    ensures ActiveJobs(jobs, run) == set k | k in jobs && k.run == Some(run) && jobs[k].state in {Pending, Retry, Fetched}
  {}

  lemma {:induction false} TraceAdmitted(worlds: seq<World>, steps: seq<Step>, hotels: seq<Hotel>, settings: Settings, i: nat)
    requires Trace(worlds, steps, hotels, settings) && i < |worlds|
    ensures worlds[i].run.Some? ==> Admitted(worlds[i], settings, Revivals(worlds, steps, i, worlds[i].run.value.id))
  {
    if i > 0 && worlds[i].run.Some? {
      var w, run := worlds[i - 1], worlds[i].run.value.id;
      TraceSound(worlds, steps, hotels, settings, i - 1);
      TraceAdmitted(worlds, steps, hotels, settings, i - 1);
      if w.run.Some? && w.run.value.id == run {
        StepKeepsAdmitted(w, steps[i - 1], hotels, settings, Revivals(worlds, steps, i - 1, run));
      } else {
        FreshRunAdmitted(w, steps[i - 1], hotels, settings);
      }
    }
  }

  lemma FreshRunAdmitted(w: World, step: Step, hotels: seq<Hotel>, settings: Settings)
    requires Sound(w, hotels, settings) && Enabled(w, step, settings)
    requires var v := Apply(w, step, hotels, settings); v.run.Some? && (w.run.Some? ==> w.run.value.id != v.run.value.id)
    ensures Admitted(Apply(w, step, hotels, settings), settings, 0)
  {
    hide Remaining, Covered, ActiveJobs, JobsBelong, Left;
    NewRunIsEmpty(w, hotels, settings);
  }

  /** The cursor of a run never moves back, and its ceiling never moves at all. */
  lemma CursorMonotone(w: World, step: Step, hotels: seq<Hotel>, settings: Settings)
    requires Sound(w, hotels, settings) && Enabled(w, step, settings) && w.run.Some?
    ensures var v := Apply(w, step, hotels, settings);
            v.run.Some? && (v.run.value.id == w.run.value.id ==> w.run.value.cursor <= v.run.value.cursor && v.run.value.ceiling == w.run.value.ceiling)
  {
    hide Remaining, Covered, ActiveJobs;
  }

  /** Progress: a checkpoint moves the cursor forward or ends the scanning of the run; and unless it ends it, fewer
      rows are left, so a run that keeps being scanned is exhausted after finitely many checkpoints. */
  lemma CheckpointProgress(w: World, hotels: seq<Hotel>, settings: Settings)
    requires Sound(w, hotels, settings) && Enabled(w, Checkpoint, settings)
    ensures var v := Apply(w, Checkpoint, hotels, settings);
            && (v.run.value.cursor > w.run.value.cursor || v.run.value.state == Draining || v.run.value.state == PausedDraining)
            && (v.run.value.state == w.run.value.state ==>
                  Left(hotels, settings, v.run.value.cursor, v.run.value.ceiling) < Left(hotels, settings, w.run.value.cursor, w.run.value.ceiling))
  {
    hide Remaining, Covered, ActiveJobs;
  }

  /** What a start does: it opens a run at cursor zero when there is none or the last one is finished, that is draining
      without an active job; it leaves a run alone that is running or still draining. */
  lemma StartOutcome(w: World, ceiling: nat, hotels: seq<Hotel>, settings: Settings)
    ensures var v := Apply(w, Start(ceiling), hotels, settings);
            && v == w.(run := v.run, nextRun := w.nextRun + 1)
            && (w.run.None? || (w.run.value.state == Draining && forall k :: k in w.jobs && k.run == Some(w.run.value.id) ==>
                                  w.jobs[k].state !in {Pending, Retry, Fetched}) ==>
                  v.run == Some(Run(w.nextRun, Running, 0, ceiling, 0, 0)))
            && (w.run.Some? && (w.run.value.state == Running || (w.run.value.state == Draining &&
                                  exists k :: k in w.jobs && k.run == Some(w.run.value.id) && w.jobs[k].state in {Pending, Retry, Fetched})) ==>
                  v.run == w.run)
  {
    if w.run.Some? {
      ActiveAre(w.jobs, w.run.value.id);
      if k :| k in w.jobs && k.run == Some(w.run.value.id) && w.jobs[k].state in {Pending, Retry, Fetched} {
        assert k in ActiveJobs(w.jobs, w.run.value.id);
      }
    }
  }

  // ---- pausing ------------------------------------------------------------------------------------

  predicate IsPaused(r: Run) {
    r.state == RunState.Paused || r.state == PausedDraining
  }

  /** How the world rests after the pause of `before`: the same run is paused, no scan begins, and unless a scan in flight
      ended, the run is as it was but for being paused. */
  ghost predicate Resting(before: World, w: World, settings: Settings) {
    && before.run.Some? && w.run.Some? && IsPaused(w.run.value) && !Enabled(w, BeginScan, settings)
    && w.run.value.id == before.run.value.id && w.run.value.ceiling == before.run.value.ceiling
    && (w.scan.Some? ==> before.scan.Some?)
    && (before.scan.None? || w.scan.Some? ==>
          && w.run == Some(before.run.value.(state := w.run.value.state))
          && (w.run.value.state == PausedDraining <==> before.run.value.state == Draining || before.run.value.state == PausedDraining))
  }

  lemma PauseRests(w: World, hotels: seq<Hotel>, settings: Settings)
    requires w.run.Some?
    ensures Resting(w, Apply(w, Pause, hotels, settings), settings)
  {
    hide ActiveJobs;
  }

  lemma RestStays(before: World, w: World, step: Step, hotels: seq<Hotel>, settings: Settings)
    requires Sound(w, hotels, settings) && Resting(before, w, settings) && Enabled(w, step, settings) && !step.Start?
    ensures Resting(before, Apply(w, step, hotels, settings), settings)
  {
    hide ActiveJobs, Remaining, Covered, JobsBelong, Left;
  }

  /** A pause stops a run: until the next start it stays paused, no scan begins, and nothing of it moves but by a scan
      that was already in flight. */
  lemma {:induction false} PauseStops(worlds: seq<World>, steps: seq<Step>, hotels: seq<Hotel>, settings: Settings, i: nat, j: nat)
    requires Trace(worlds, steps, hotels, settings) && i < j < |worlds| && steps[i].Pause? && worlds[i].run.Some?
    requires forall k :: i < k < j ==> !steps[k].Start?
    ensures Resting(worlds[i], worlds[j], settings)
    decreases j
  {
    hide Enabled, Apply, Resting, Sound;
    assert Enabled(worlds[j - 1], steps[j - 1], settings) && worlds[j] == Apply(worlds[j - 1], steps[j - 1], hotels, settings);
    if i + 1 == j {
      PauseRests(worlds[i], hotels, settings);
    } else {
      PauseStops(worlds, steps, hotels, settings, i, j - 1);
      TraceSound(worlds, steps, hotels, settings, j - 1);
      RestStays(worlds[i], worlds[j - 1], steps[j - 1], hotels, settings);
    }
  }

  /** The scan in flight may still end, once: its checkpoint moves the cursor, and the run stays paused, draining if
      nothing was left. */
  lemma CheckpointWhilePaused(worlds: seq<World>, steps: seq<Step>, hotels: seq<Hotel>, settings: Settings, i: nat, j: nat)
    requires Trace(worlds, steps, hotels, settings) && i < j < |steps| && steps[i].Pause? && worlds[i].run.Some?
    requires (forall k :: i < k < j ==> !steps[k].Start?) && steps[j].Checkpoint?
    ensures worlds[i].scan.Some? && worlds[j].scan.Some? && worlds[j + 1].scan.None?
    ensures var s, r, after := worlds[j].scan.value, worlds[i].run.value, worlds[j + 1].run;
            && after.Some? && after.value.id == r.id
            && after.value.cursor == (if s.exhausted then r.ceiling else s.cursor)
            && after.value.state == if s.exhausted then PausedDraining else RunState.Paused
  {
    PauseStops(worlds, steps, hotels, settings, i, j);
    TraceSound(worlds, steps, hotels, settings, j);
    assert Enabled(worlds[j], steps[j], settings) && worlds[j + 1] == Apply(worlds[j], steps[j], hotels, settings);
    hide ActiveJobs, Remaining, Covered, JobsBelong, Left;
  }

  /** A start after a pause resumes the run where it is: the same run at the same cursor, running again, or draining if
      it was draining. Unless a scan in flight ended meanwhile, it is the very run that was paused. */
  lemma StartResumes(worlds: seq<World>, steps: seq<Step>, hotels: seq<Hotel>, settings: Settings, i: nat, j: nat)
    requires Trace(worlds, steps, hotels, settings) && i < j < |steps| && steps[i].Pause? && worlds[i].run.Some?
    requires (forall k :: i < k < j ==> !steps[k].Start?) && steps[j].Start?
    ensures worlds[j].run.Some?
    ensures worlds[j + 1].run == Some(worlds[j].run.value.(state := if worlds[j].run.value.state == RunState.Paused then Running else Draining))
    ensures (worlds[i].scan.None? || worlds[j].scan.Some?) && !IsPaused(worlds[i].run.value) ==> worlds[j + 1].run == worlds[i].run
  {
    PauseStops(worlds, steps, hotels, settings, i, j);
    assert Enabled(worlds[j], steps[j], settings) && worlds[j + 1] == Apply(worlds[j], steps[j], hotels, settings);
    hide ActiveJobs;
  }

  // ---- the queue object and one uninterrupted scan -----------------------------------------------

  /** The highest id of the snapshot. */
  function Ceiling(hotels: seq<Hotel>): nat {
    if hotels == [] then 0 else hotels[|hotels| - 1].id
  }

  /** What an autonomous worker starts the scan with. */
  function Opened(w: World, hotels: seq<Hotel>, settings: Settings, autonomous: bool, refreshDue: bool): World {
    var status := StatusOf(w.jobs, w.run);
    if autonomous && (status.NotStarted? || (status.Completed? && refreshDue)) then Apply(w, Start(Ceiling(hotels)), hotels, settings)
    else w
  }

  /** The same run got further: its cursor moved, or it has nothing left to scan; and unless it is draining, fewer rows
      are left. */
  ghost predicate Advanced(w: World, v: World, hotels: seq<Hotel>, settings: Settings) {
    && w.run.Some? && v.run.Some? && v.run.value.id == w.run.value.id && v.run.value.ceiling == w.run.value.ceiling
    && (v.run.value.cursor > w.run.value.cursor || v.run.value.state == Draining)
    && (v.run.value.state == Draining ||
        Left(hotels, settings, v.run.value.cursor, v.run.value.ceiling) < Left(hotels, settings, w.run.value.cursor, v.run.value.ceiling))
  }

  lemma OpenedStays(w: World, hotels: seq<Hotel>, settings: Settings)
    requires IsSnapshot(hotels) && Sound(w, hotels, settings)
    ensures Sound(Apply(w, Start(Ceiling(hotels)), hotels, settings), hotels, settings)
  {
    StartKeeps(w, Ceiling(hotels), hotels, settings);
  }

  /** A change of one job keeps the number of active jobs of its run from growing exactly when it activates no
      inactive job. */
  lemma ChangeKeepsAdmissionIff(jobs: Jobs, k: JobKey, job: Job, run: nat)
    requires k in jobs && k.run == Some(run)
    ensures |ActiveJobs(jobs[k := job], run)| <= |ActiveJobs(jobs, run)| <==> Active(jobs[k]) || !Active(job)
  {
    if Active(jobs[k]) || !Active(job) {
      ChangeOneActive(jobs, k, job, run);
    } else {
      assert ActiveJobs(jobs[k := job], run) == ActiveJobs(jobs, run) + {k};
    }
  }

  function Queued(rows: seq<Hotel>, settings: Settings): nat {
    if rows == [] then 0
    else Queued(rows[..|rows| - 1], settings) + (if Eligible(rows[|rows| - 1], settings) then 1 else 0)
  }

  function Without(rows: seq<Hotel>): nat {
    if rows == [] then 0 else Without(rows[..|rows| - 1]) + (if rows[|rows| - 1].website.None? then 1 else 0)
  }

  lemma VisitedMore(rows: seq<Hotel>, n: nat, settings: Settings)
    requires n < |rows|
    ensures Queued(rows[..n + 1], settings) == Queued(rows[..n], settings) + (if Eligible(rows[n], settings) then 1 else 0)
    ensures Without(rows[..n + 1]) == Without(rows[..n]) + (if rows[n].website.None? then 1 else 0)
  {
    assert rows[..n + 1][..n] == rows[..n];
  }

  /** The jobs after the first `n` rows: those before, as they were, and a fresh one for each eligible row that had none. */
  ghost predicate JobsAfter(before: Jobs, after: Jobs, rows: seq<Hotel>, n: nat, run: nat, settings: Settings)
    requires n <= |rows|
  {
    && (forall k :: k in before ==> k in after && after[k] == before[k])
    && (forall k :: k in after && k !in before ==> after[k] == Job(Pending, 0))
    && (forall k :: k in after && k !in before ==> exists i :: 0 <= i < n && Eligible(rows[i], settings) && k == KeyOf(rows[i], run))
    && (forall i :: 0 <= i < n && Eligible(rows[i], settings) ==> KeyOf(rows[i], run) in after)
  }

  lemma JobsMore(before: Jobs, after: Jobs, rows: seq<Hotel>, n: nat, run: nat, settings: Settings)
    requires n < |rows| && JobsAfter(before, after, rows, n, run, settings)
    ensures Eligible(rows[n], settings) ==> JobsAfter(before, Enqueued(after, KeyOf(rows[n], run)), rows, n + 1, run, settings)
    ensures !Eligible(rows[n], settings) ==> JobsAfter(before, after, rows, n + 1, run, settings)
  {}

  lemma NothingVisited(jobs: Jobs, rows: seq<Hotel>, run: nat, settings: Settings)
    ensures JobsAfter(jobs, jobs, rows, 0, run, settings) && Queued([], settings) == 0 && Without([]) == 0
  {}

  /** A whole scan of the run: the first remaining rows are visited, as many as the batch and the free slots of the lane
      allow; each eligible one has its job, the cursor stands at the last one, and without any row the run drains. */
  ghost predicate FullScan(w: World, v: World, hotels: seq<Hotel>, settings: Settings) {
    && w.run.Some? && v.run.Some?
    && var (r, t) := (w.run.value, v.run.value);
       var rows := Remaining(hotels, settings, r.cursor, r.ceiling);
       var lane := if settings.maxPending < 0 then 0 else if settings.maxPending > 1000 then 1000 else settings.maxPending;
       var batch := if settings.batchSize < 1 then 1 else if settings.batchSize > 1000 then 1000 else settings.batchSize;
       var free, n := lane - |ActiveJobs(w.jobs, r.id)|, t.scanned - r.scanned;
       && 0 <= n <= |rows| && n <= batch && Queued(rows[..n], settings) <= free
       && (n == |rows| || n == batch || Queued(rows[..n], settings) == free)
       && JobsAfter(w.jobs, v.jobs, rows, n, r.id, settings)
       && t == r.(cursor := if rows == [] then r.ceiling else if n == 0 then r.cursor else rows[n - 1].id,
                  scanned := r.scanned + n, missing := r.missing + Without(rows[..n]),
                  state := if rows == [] then Draining else Running)
       && (rows != [] ==> n > 0)
  }

  lemma IsFullScan(w: World, v: World, hotels: seq<Hotel>, settings: Settings, visited: seq<Hotel>, n: nat)
    requires w.run.Some? && w.run.value.state == Running && |ActiveJobs(w.jobs, w.run.value.id)| < settings.Cap()
    requires visited == Rows(hotels, settings, w.run.value.cursor, w.run.value.ceiling) && n <= |visited| && (visited != [] ==> n > 0)
    requires var free := settings.Cap() - |ActiveJobs(w.jobs, w.run.value.id)|;
             Queued(visited[..n], settings) <= free && (n == |visited| || Queued(visited[..n], settings) == free)
    requires JobsAfter(w.jobs, v.jobs, visited, n, w.run.value.id, settings)
    requires v.run == Some(w.run.value.(cursor := if visited == [] then w.run.value.ceiling else visited[n - 1].id,
                                        scanned := w.run.value.scanned + n, missing := w.run.value.missing + Without(visited[..n]),
                                        state := if visited == [] then Draining else Running))
    ensures FullScan(w, v, hotels, settings)
  {
    LimitsAre(settings);
    hide Remaining, Queued, Without, ActiveJobs, JobsAfter, Settings.Cap, Settings.Batch;
    var rows := Remaining(hotels, settings, w.run.value.cursor, w.run.value.ceiling);
    assert visited <= rows && rows[..n] == visited[..n];
    JobsOfPrefix(w.jobs, v.jobs, visited, rows, n, w.run.value.id, settings);
  }

  lemma LimitsAre(settings: Settings)
    ensures settings.Cap() == if settings.maxPending < 0 then 0 else if settings.maxPending > 1000 then 1000 else settings.maxPending
    ensures settings.Batch() == if settings.batchSize < 1 then 1 else if settings.batchSize > 1000 then 1000 else settings.batchSize
  {}

  lemma JobsOfPrefix(before: Jobs, after: Jobs, a: seq<Hotel>, b: seq<Hotel>, n: nat, run: nat, settings: Settings)
    requires n <= |a| && a <= b && JobsAfter(before, after, a, n, run, settings)
    ensures JobsAfter(before, after, b, n, run, settings)
  {
    hide Eligible, KeyOf;
    assert forall i :: 0 <= i < n ==> b[i] == a[i];
  }

  class WebsiteQueue {
    var jobs: Jobs
    var run: Option<Run>
    var nextRun: nat

    ghost function View(): World
      reads this
    {
      World(jobs, run, nextRun, None)
    }

    /** Insert or ignore. */
    method Enqueue(k: JobKey)
      modifies this`jobs
      ensures jobs == if k in old(jobs) then old(jobs) else old(jobs)[k := Job(Pending, 0)]
    {
      if k !in jobs {
        jobs := jobs[k := Job(Pending, 0)];
      }
    }

    method BackfillStatus() returns (status: Status, active: nat)
      ensures status == StatusOf(jobs, run)
      ensures active == if run.Some? then |ActiveJobs(jobs, run.value.id)| else 0
    {
      if run.None? {
        return NotStarted, 0;
      }
      active := |ActiveJobs(jobs, run.value.id)|;
      status := if run.value.state == Draining && active == 0 then Completed else At(run.value);
    }

    method StartBackfill(ceiling: nat)
      modifies this
      ensures jobs == old(jobs) && run == Started(old(jobs), old(run), old(nextRun), ceiling) && nextRun == old(nextRun) + 1
    {
      var status, active := BackfillStatus();
      match status {
        case At(r) =>
          if r.state == Paused {
            run := Some(r.(state := Running));
          } else if r.state == PausedDraining {
            run := Some(r.(state := Draining));
          }
        case _ => run := Some(Run(nextRun, Running, 0, ceiling, 0, 0));
      }
      nextRun := nextRun + 1;
    }

    method PauseBackfill()
      modifies this`run
      ensures run == PausedRun(old(run))
    {
      if run.Some? {
        if run.value.state == Running {
          run := Some(run.value.(state := Paused));
        } else if run.value.state == Draining {
          run := Some(run.value.(state := PausedDraining));
        }
      }
    }

    method CheckpointBackfill(id: nat, cursor: nat, scanned: nat, missing: nat, exhausted: bool)
      modifies this`run
      ensures run == Checkpointed(old(run), id, cursor, scanned, missing, exhausted)
    {
      if run.Some? && run.value.id == id {
        var r := run.value;
        var state := r.state;
        if exhausted && state == Running {
          state := Draining;
        } else if exhausted && state == Paused {
          state := PausedDraining;
        }
        run := Some(r.(cursor := cursor, scanned := r.scanned + scanned, missing := r.missing + missing, state := state));
      }
    }

    /** A fetch result for a job that was read with `attempts`: retried while attempts are left, otherwise kept as
        fetched evidence. A job that is gone stays gone; one in a final state is taken out of it. */
    method SaveResult(k: JobKey, attempts: nat, retryable: bool, maxAttempts: int) returns (settled: bool)
      modifies this`jobs
      ensures settled <==> !(retryable && attempts + 1 < (if maxAttempts < 1 then 1 else maxAttempts))
      ensures jobs == if k in old(jobs) then old(jobs)[k := Job(if settled then Fetched else Retry, attempts + 1)] else old(jobs)
    {
      var limit := if maxAttempts < 1 then 1 else maxAttempts;
      settled := !(retryable && attempts + 1 < limit);
      if k in jobs {
        jobs := jobs[k := Job(if settled then Fetched else Retry, attempts + 1)];
      }
    }

    /** Any other state than the two final ones is an error. */
    method Finish(k: JobKey, state: JobState) returns (ok: bool)
      modifies this`jobs
      ensures ok <==> state == Applied || state == Skipped
      ensures jobs == if ok && k in old(jobs) then old(jobs)[k := old(jobs)[k].(state := state)] else old(jobs)
    {
      ok := state == Applied || state == Skipped;
      if ok && k in jobs {
        jobs := jobs[k := jobs[k].(state := state)];
      }
    }

    /** One scan without interference. An autonomous worker first opens a run when there is none yet, or when the last
        one is completed and a refresh is due. Then nothing happens unless the run is running and has a free slot;
        otherwise the cursor advances or the run starts draining, and every invariant holds again. */
    method ScanWebsiteBackfill(hotels: seq<Hotel>, settings: Settings, fill: bool, autonomous: bool, refreshDue: bool)
      returns (scanned: bool)
      requires IsSnapshot(hotels) && Sound(View(), hotels, settings)
      modifies this
      ensures Sound(View(), hotels, settings)
      ensures !fill ==> !scanned && View() == old(View())
      ensures fill ==>
                var w := Opened(old(View()), hotels, settings, autonomous, refreshDue);
                && (scanned <==> w.run.Some? && w.run.value.state == Running && Slots(w, settings) > 0)
                && (!scanned ==> View() == w)
                && (scanned ==> Advanced(w, View(), hotels, settings) && Admitted(View(), settings, 0))
                && (scanned ==> FullScan(w, View(), hotels, settings))
    {
      hide FullScan, Advanced, Admitted, JobsBelong, RunSound, ScanSound, IsSnapshot, ActiveJobs;
      if !fill {
        return false;
      }
      var status, active := BackfillStatus();
      if autonomous && (status.NotStarted? || (status.Completed? && refreshDue)) {
        OpenedStays(View(), hotels, settings);
        StartBackfill(Ceiling(hotels));
      }
      scanned := ScanRun(hotels, settings);
    }

    /** The scan of the run as it is. */
    method ScanRun(hotels: seq<Hotel>, settings: Settings) returns (scanned: bool)
      requires IsSnapshot(hotels) && Sound(View(), hotels, settings)
      modifies this
      ensures Sound(View(), hotels, settings)
      ensures scanned <==> old(run.Some? && run.value.state == Running && Slots(View(), settings) > 0)
      ensures scanned ==> FullScan(old(View()), View(), hotels, settings)
      ensures !scanned ==> View() == old(View())
      ensures scanned ==> Advanced(old(View()), View(), hotels, settings) && Admitted(View(), settings, 0)
    {
      hide Remaining, Covered, ActiveJobs, JobsBelong, RunSound, ScanSound, IsSnapshot, Left, FullScan, JobsAfter, Queued, Without;
      var status, active := BackfillStatus();
      if !status.At? || status.run.state != Running {
        assert run.Some? && run.value.state == Running ==> StatusOf(jobs, run).At?;
        return false;
      }
      var slots: nat := if active < settings.Cap() then settings.Cap() - active else 0;
      if slots == 0 {
        return false;
      }
      ghost var start := View();
      var r := run.value;
      var rows := Rows(hotels, settings, r.cursor, r.ceiling);
      hide Rows;
      ghost var w := Apply(View(), BeginScan, hotels, settings);
      BeginKeeps(View(), hotels, settings);
      var exhausted := rows == [];
      ghost var all, free, n := rows, slots, 0;
      assert rows[n..] == rows && rows[..n] == [];
      NothingVisited(jobs, rows, r.id, settings);
      var cursor: nat, count: nat, missing: nat := r.cursor, 0, 0;
      while rows != [] && slots > 0
        invariant run == Some(r) && nextRun == old(nextRun)
        invariant w == World(jobs, run, nextRun, Some(Scan(r.id, r.ceiling, cursor, rows, slots, count, missing, exhausted)))
        invariant Sound(w, hotels, settings) && Admitted(w, settings, 0)
        invariant n == count <= |all| && rows == all[n..] && slots + Queued(all[..n], settings) == free
        invariant missing == Without(all[..n]) && cursor == (if n == 0 then r.cursor else all[n - 1].id)
        invariant JobsAfter(old(jobs), jobs, all, n, r.id, settings)
      {
        var h := rows[0];
        VisitedMore(all, n, settings);
        JobsMore(old(jobs), jobs, all, n, r.id, settings);
        n := n + 1;
        VisitKeeps(w, hotels, settings);
        StepKeepsAdmitted(w, ScanRow, hotels, settings, 0);
        w := Visit(w, settings);
        cursor, count, rows := h.id, count + 1, rows[1..];
        if h.website.None? {
          missing := missing + 1;
        }
        if Eligible(h, settings) {
          Enqueue(KeyOf(h, r.id));
          slots := slots - 1;
        }
      }
      CheckpointKeeps(w, hotels, settings);
      StepKeepsAdmitted(w, Checkpoint, hotels, settings, 0);
      CheckpointProgress(w, hotels, settings);
      CheckpointBackfill(r.id, if exhausted then r.ceiling else cursor, count, missing, exhausted);
      IsFullScan(start, View(), hotels, settings, all, n);
      scanned := true;
    }
  }
}
