/** The delivery protocol of one worker over whole runs: enqueue locally, commit remotely, acknowledge locally,
    with a crash possible between any two steps. */
module Delivery {
  import opened Collapse
  import opened Options
  import opened HotelSave
  import opened HotelWriters
  import opened Outbox
  import opened Sorting

  /** What the main loop holds in memory. */
  datatype Phase =
    | Idle                    // nothing held; the loop looks into the outbox first
    | Clear                   // the outbox had nothing pending when the loop looked
    | Holding(zip: string)    // a claimed ZIP with its scrape result, not yet enqueued
    | Flushing(id: string)    // a durable batch on its way to the database
    | Unacked(id: string)     // committed remotely, not yet acknowledged

  /** The commit that produced the current hotel table: which batch, on what, and when. */
  datatype Commit = Commit(id: string, before: Store, at: int)

  /** `rows` is the durable outbox and `store` the remote hotel table; `enqueued` and `log` are history. */
  datatype World = World(rows: Rows, store: Store, phase: Phase, enqueued: map<string, Payload>, log: seq<string>, last: Option<Commit>)

  datatype Step =
    | FindNothing
    | Enrich(r: Record, fills: map<Field, string>, notes: map<string, string>)
    | ClaimZip(zip: string)
    | DropScrape
    | Enqueue(id: string, payload: Payload, image: Payload)
    | PickOldest(id: string)
    | CommitRemote
    | Acknowledge(metadata: string)
    | Quarantine(reason: string, evidence: string)
    | Retry
    | GiveUp
    | Prune(cutoff: int)
    | Crash

  ghost predicate NothingPending(rows: Rows) {
    forall id :: id in rows ==> !rows[id].status.Pending?
  }

  function BatchRecords(w: World): seq<Record>
    requires w.phase.Flushing? && w.phase.id in w.rows
  {
    w.rows[w.phase.id].payload.records
  }

  /** The commit is taken only when the batch is unambiguous and within the cap. */
  ghost predicate MayCommit(w: World, cap: int)
    requires w.phase.Flushing? && w.phase.id in w.rows
  {
    Accepted(w.store.hotels, FlushedRecords(BatchRecords(w)), cap)
  }

  /** The acknowledgement of the batch in flight, as the outbox stores it. */
  function Settled(w: World, ack: Status): (Result, Rows)
    requires (w.phase.Flushing? || w.phase.Unacked?) && !ack.Pending?
  {
    Transitioned(w.rows, w.phase.id, ack, ack)
  }

  ghost predicate Enabled(w: World, step: Step, cap: int, now: int) {
    match step
    case FindNothing => w.phase.Idle? && NothingPending(w.rows)
    case Enrich(r, fills, notes) => w.phase.Clear?
    case ClaimZip(zip) => w.phase.Clear?
    case DropScrape => w.phase.Holding?
    case Enqueue(id, payload, image) =>
      && w.phase.Holding? && payload.zip == image.zip == w.phase.zip && id !in w.enqueued
      && Enqueued(w.rows, id, payload, Some(image), now).0.Ok?
    case PickOldest(id) => w.phase.Idle? && IsOldestPending(w.rows, id)
    case CommitRemote => w.phase.Flushing? && w.phase.id in w.rows && MayCommit(w, cap)
    case Acknowledge(metadata) => w.phase.Unacked? && Settled(w, Delivered(now, metadata)).0.Ok?
    case Quarantine(reason, evidence) => w.phase.Flushing? && Settled(w, Status.Quarantined(now, reason, evidence)).0.Ok?
    case Retry => w.phase.Unacked?
    case GiveUp => w.phase.Clear? || w.phase.Flushing? || w.phase.Unacked?
    case Prune(cutoff) => w.phase.Idle?
    case Crash => true
  }

  ghost function AfterCommit(w: World, now: int): World
    requires w.phase.Flushing? && w.phase.id in w.rows
  {
    var b := w.rows[w.phase.id];
    w.(store := Committed(w.store, FlushedRecords(b.payload.records), b.payload.zip, now),
       phase := Unacked(w.phase.id),
       log := w.log + [w.phase.id],
       last := if w.phase.id in w.log then w.last else Some(Commit(w.phase.id, w.store, now)))
  }

  ghost function Apply(w: World, step: Step, cap: int, now: int): World
    requires Enabled(w, step, cap, now)
  {
    match step
    case FindNothing => w.(phase := Clear)
    case Enrich(r, fills, notes) => w.(store := Enriched(w.store, r, fills, notes))
    case ClaimZip(zip) => w.(phase := Holding(zip))
    case DropScrape => w.(phase := Idle)
    case Enqueue(id, payload, image) =>
      w.(rows := Enqueued(w.rows, id, payload, Some(image), now).1, phase := Flushing(id), enqueued := w.enqueued[id := image])
    case PickOldest(id) => w.(phase := Flushing(id))
    case CommitRemote => AfterCommit(w, now)
    case Acknowledge(metadata) => w.(rows := Settled(w, Delivered(now, metadata)).1, phase := Idle)
    case Quarantine(reason, evidence) => w.(rows := Settled(w, Status.Quarantined(now, reason, evidence)).1, phase := Idle)
    case Retry => w.(phase := Flushing(w.phase.id))
    case GiveUp => w.(phase := Idle)
    case Prune(cutoff) => w.(rows := Pruned(w.rows, cutoff))
    case Crash => w.(phase := Idle)
  }

  // ---- the invariant ---------------------------------------------------------------------

  /** Fresh scraping never outruns durable work: nothing is pending from the look into the outbox until the scrape is
      enqueued, at most one batch is pending, and it is the one in flight if any is. */
  ghost predicate OneInFlight(w: World) {
    && (forall a, b :: a in w.rows && b in w.rows && w.rows[a].status.Pending? && w.rows[b].status.Pending? ==> a == b)
    && (w.phase.Clear? || w.phase.Holding? ==> NothingPending(w.rows))
    && ((w.phase.Flushing? || w.phase.Unacked?) ==> w.phase.id in w.rows && w.rows[w.phase.id].status.Pending?)
  }

  /** Payloads are those first enqueued; a batch is delivered only after its commit returned. */
  ghost predicate Faithful(w: World) {
    && (forall id :: id in w.rows ==> id in w.enqueued && w.rows[id].payload == w.enqueued[id])
    && (forall id :: id in w.rows && w.rows[id].status.Delivered? ==> id in w.log)
    && (forall id :: id in w.log ==> id in w.enqueued)
    && (w.phase.Unacked? ==> w.phase.id in w.log)
  }

  /** If the pending batch was committed before, the hotel table is exactly what that commit left. */
  ghost predicate TableFromLastCommit(w: World, cap: int) {
    forall id :: id in w.rows && w.rows[id].status.Pending? && id in w.log ==>
      w.last.Some? && w.last.value.id == id && CommitOf(w, w.last.value, w.rows[id].payload, cap)
  }

  ghost predicate CommitOf(w: World, c: Commit, p: Payload, cap: int) {
    var records := FlushedRecords(p.records);
    && ValidStore(c.before) && Accepted(c.before.hotels, records, cap) && CommittedLater(records, c.at)
    && NoneDisplaced(c.before, records)
    && w.store == Committed(c.before, records, p.zip, c.at)
  }

  ghost predicate NoneDisplaced(s: Store, records: seq<Record>) {
    forall i :: 0 <= i < |records| ==> !Displaced(s.hotels, records, i)
  }

  /** The first commit of a batch is later than its observations and displaces no record. */
  ghost predicate SoundStep(w: World, step: Step, now: int) {
    step.CommitRemote? && w.phase.Flushing? && w.phase.id in w.rows && w.phase.id !in w.log ==>
      var records := FlushedRecords(w.rows[w.phase.id].payload.records);
      NoneDisplaced(w.store, records) && CommittedLater(records, now)
  }

  lemma StepKeepsOneInFlight(w: World, step: Step, cap: int, now: int)
    requires OneInFlight(w) && Faithful(w) && Enabled(w, step, cap, now)
    ensures OneInFlight(Apply(w, step, cap, now))
  {
    hide MayCommit, FlushedRecords, Committed, Enriched, IsIdentifier, IsValidPayload;
  }

  lemma StepKeepsFaithful(w: World, step: Step, cap: int, now: int)
    requires OneInFlight(w) && Faithful(w) && Enabled(w, step, cap, now)
    ensures Faithful(Apply(w, step, cap, now))
  {
    hide MayCommit, FlushedRecords, Committed, Enriched, IsIdentifier, IsValidPayload;
  }

  lemma CommitKeepsTable(w: World, cap: int, now: int)
    requires OneInFlight(w) && ValidStore(w.store) && TableFromLastCommit(w, cap)
    requires w.phase.Flushing? && w.phase.id in w.rows && MayCommit(w, cap) && SoundStep(w, CommitRemote, now)
    ensures TableFromLastCommit(AfterCommit(w, now), cap)
    ensures w.phase.id in w.log ==> AfterCommit(w, now).store == w.store
  {
    hide Accepted, CommittedLater, FlushedRecords, Committed, NoneDisplaced, ValidStore;
    var id := w.phase.id;
    var p := w.rows[id].payload;
    if id in w.log {
      var c := w.last.value;
      assert CommitOf(w, c, p, cap);
      RepeatIsHarmless(c, p, cap, now);
    }
  }

  lemma RepeatIsHarmless(c: Commit, p: Payload, cap: int, now: int)
    requires var records := FlushedRecords(p.records);
             ValidStore(c.before) && Accepted(c.before.hotels, records, cap) && CommittedLater(records, c.at) && NoneDisplaced(c.before, records)
    ensures var records := FlushedRecords(p.records);
            var s := Committed(c.before, records, p.zip, c.at);
            Committed(s, records, p.zip, now) == s
  {
    hide Accepted, CommittedLater, FlushedRecords, Committed, ValidStore, Displaced;
    FlushReplayIff(c.before, p.records, p.zip, c.at, cap, now);
  }

  lemma FirstCommitValid(s: Store, p: Payload, cap: int, now: int)
    requires ValidStore(s) && Accepted(s.hotels, FlushedRecords(p.records), cap)
    ensures ValidStore(Committed(s, FlushedRecords(p.records), p.zip, now))
  {
    hide FlushedRecords, Committed, ValidStore, Unambiguous, DistinctKeys, DistinctPlaces;
    FlushedAreDistinct(p.records);
    AcceptedUnambiguous(s.hotels, FlushedRecords(p.records), cap);
    SaveKeepsUnique(s, FlushedRecords(p.records), p.zip, now);
  }

  lemma StepKeepsTable(w: World, step: Step, cap: int, now: int)
    requires OneInFlight(w) && Faithful(w) && ValidStore(w.store) && TableFromLastCommit(w, cap)
    requires Enabled(w, step, cap, now) && SoundStep(w, step, now)
    ensures TableFromLastCommit(Apply(w, step, cap, now), cap)
  {
    hide MayCommit, FlushedRecords, Committed, Enriched, IsIdentifier, IsValidPayload, ValidStore, NoneDisplaced, Accepted, CommittedLater;
    if step.CommitRemote? {
      CommitKeepsTable(w, cap, now);
    }
  }

  /** No step breaks the unique columns of the hotel table. */
  lemma StepKeepsStoreValid(w: World, step: Step, cap: int, now: int)
    requires Enabled(w, step, cap, now) && ValidStore(w.store)
    ensures ValidStore(Apply(w, step, cap, now).store)
  {
    hide FlushedRecords, Committed, Enriched, IsIdentifier, IsValidPayload, ValidStore, Accepted, Enqueued, Transitioned, Pruned;
    match step
    case CommitRemote => FirstCommitValid(w.store, w.rows[w.phase.id].payload, cap, now);
    case Enrich(r, fills, notes) =>
      EvidenceOnlyFills(w.store, r, fills, notes);
      FilledKeeps(w.store, Enriched(w.store, r, fills, notes));
    case _ =>
  }

  // ---- whole runs ------------------------------------------------------------------------

  ghost predicate Initial(w: World) {
    w.rows == map[] && w.phase.Idle? && w.enqueued == map[] && w.log == [] && w.last.None? && ValidStore(w.store)
  }

  ghost predicate Run(worlds: seq<World>, steps: seq<Step>, times: seq<int>, cap: int) {
    && |worlds| == |steps| + 1 && |times| == |steps| && Initial(worlds[0])
    && (forall i :: 0 <= i < |steps| ==> Enabled(worlds[i], steps[i], cap, times[i]) && worlds[i + 1] == Apply(worlds[i], steps[i], cap, times[i]))
  }

  /** A run whose first commits are all sound. */
  ghost predicate SoundRun(worlds: seq<World>, steps: seq<Step>, times: seq<int>, cap: int) {
    Run(worlds, steps, times, cap) && forall i :: 0 <= i < |steps| ==> SoundStep(worlds[i], steps[i], times[i])
  }

  lemma {:induction false} RunInvariant(worlds: seq<World>, steps: seq<Step>, times: seq<int>, cap: int, i: nat)
    requires Run(worlds, steps, times, cap) && i < |worlds|
    ensures OneInFlight(worlds[i]) && Faithful(worlds[i]) && ValidStore(worlds[i].store)
  {
    hide OneInFlight, Faithful, ValidStore, Enabled, Apply;
    if i == 0 {
      InitialInvariant(worlds[0], cap);
    } else {
      RunInvariant(worlds, steps, times, cap, i - 1);
      StepKeepsOneInFlight(worlds[i - 1], steps[i - 1], cap, times[i - 1]);
      StepKeepsFaithful(worlds[i - 1], steps[i - 1], cap, times[i - 1]);
      StepKeepsStoreValid(worlds[i - 1], steps[i - 1], cap, times[i - 1]);
    }
  }

  lemma {:induction false} SoundRunInvariant(worlds: seq<World>, steps: seq<Step>, times: seq<int>, cap: int, i: nat)
    requires SoundRun(worlds, steps, times, cap) && i < |worlds|
    ensures TableFromLastCommit(worlds[i], cap)
  {
    hide OneInFlight, Faithful, ValidStore, TableFromLastCommit, Enabled, Apply, SoundStep;
    if i == 0 {
      InitialInvariant(worlds[0], cap);
    } else {
      SoundRunInvariant(worlds, steps, times, cap, i - 1);
      RunInvariant(worlds, steps, times, cap, i - 1);
      StepKeepsTable(worlds[i - 1], steps[i - 1], cap, times[i - 1]);
    }
  }

  lemma InitialInvariant(w: World, cap: int)
    requires Initial(w)
    ensures OneInFlight(w) && Faithful(w) && ValidStore(w.store) && TableFromLastCommit(w, cap)
  {}

  /** At step `k` the enqueued payload of batch `id` was committed to the hotel table. */
  ghost predicate CommittedAt(worlds: seq<World>, steps: seq<Step>, times: seq<int>, k: nat, id: string, p: Payload)
    requires |worlds| == |steps| + 1 && |times| == |steps| && k < |steps|
  {
    && steps[k].CommitRemote? && worlds[k].phase == Flushing(id)
    && id in worlds[k].rows && worlds[k].rows[id].payload == p
    && worlds[k + 1].store == Committed(worlds[k].store, FlushedRecords(p.records), p.zip, times[k])
  }

  /** Delivered means saved: in every run a delivered batch was committed first, with the payload that was enqueued. */
  lemma DeliveredWasCommitted(worlds: seq<World>, steps: seq<Step>, times: seq<int>, cap: int, i: nat, id: string)
    requires Run(worlds, steps, times, cap) && i < |worlds|
    requires id in worlds[i].rows && worlds[i].rows[id].status.Delivered?
    ensures id in worlds[i].enqueued && worlds[i].rows[id].payload == worlds[i].enqueued[id]
    ensures exists k :: 0 <= k < i && CommittedAt(worlds, steps, times, k, id, worlds[i].enqueued[id])
  {
    RunInvariant(worlds, steps, times, cap, i);
    CommittedSomewhere(worlds, steps, times, cap, i, id);
  }

  lemma {:induction false} CommittedSomewhere(worlds: seq<World>, steps: seq<Step>, times: seq<int>, cap: int, i: nat, id: string)
    requires Run(worlds, steps, times, cap) && i < |worlds| && id in worlds[i].log
    ensures id in worlds[i].enqueued
    ensures exists k :: 0 <= k < i && CommittedAt(worlds, steps, times, k, id, worlds[i].enqueued[id])
  {
    hide CommittedAt, Enabled, Apply, OneInFlight, Faithful;
    RunInvariant(worlds, steps, times, cap, i);
    RunInvariant(worlds, steps, times, cap, i - 1);
    var w, step := worlds[i - 1], steps[i - 1];
    assert worlds[i] == Apply(w, step, cap, times[i - 1]);
    LogGrows(w, step, cap, times[i - 1], id);
    if id in w.log {
      CommittedSomewhere(worlds, steps, times, cap, i - 1, id);
    } else {
      CommitShown(worlds, steps, times, cap, i - 1, id);
    }
  }

  lemma LogGrows(w: World, step: Step, cap: int, now: int, id: string)
    requires Enabled(w, step, cap, now) && Faithful(w) && id in Apply(w, step, cap, now).log
    ensures id in w.log || (step.CommitRemote? && w.phase == Flushing(id))
    ensures id in w.enqueued ==> id in Apply(w, step, cap, now).enqueued && Apply(w, step, cap, now).enqueued[id] == w.enqueued[id]
    ensures id in w.log ==> id in w.enqueued
  {
    hide MayCommit, FlushedRecords, Committed, Enriched, IsIdentifier, IsValidPayload, Transitioned;
  }

  lemma CommitShown(worlds: seq<World>, steps: seq<Step>, times: seq<int>, cap: int, k: nat, id: string)
    requires Run(worlds, steps, times, cap) && k < |steps| && steps[k].CommitRemote? && worlds[k].phase == Flushing(id) && Faithful(worlds[k])
    ensures id in worlds[k + 1].enqueued && CommittedAt(worlds, steps, times, k, id, worlds[k + 1].enqueued[id])
  {
    hide MayCommit, FlushedRecords, Committed;
    assert Enabled(worlds[k], steps[k], cap, times[k]) && worlds[k + 1] == AfterCommit(worlds[k], times[k]);
  }

  /** Every step of a run moves the outbox as allowed: payloads fixed, pending to terminal only, pending never lost. */
  lemma StepEvolves(w: World, step: Step, cap: int, now: int)
    requires Enabled(w, step, cap, now)
    ensures Evolves(w.rows, Apply(w, step, cap, now).rows)
  {
    hide MayCommit, FlushedRecords, Committed, Enriched, IsIdentifier, IsValidPayload;
  }

  /** Over a run, a batch keeps the payload it was enqueued with, and a pending batch stays until it is terminal. */
  lemma {:induction false} PendingSurvives(worlds: seq<World>, steps: seq<Step>, times: seq<int>, cap: int, i: nat, j: nat, id: string)
    requires Run(worlds, steps, times, cap) && i <= j < |worlds|
    requires id in worlds[i].rows && worlds[i].rows[id].status.Pending?
    ensures (id in worlds[j].rows && worlds[j].rows[id] == worlds[i].rows[id]) ||
            exists k :: i < k <= j && id in worlds[k].rows && !worlds[k].rows[id].status.Pending? &&
                        worlds[k].rows[id].payload == worlds[i].rows[id].payload
    decreases j - i
  {
    hide Enabled, Apply;
    if i < j {
      StepEvolves(worlds[i], steps[i], cap, times[i]);
      assert id in worlds[i + 1].rows;
      if worlds[i + 1].rows[id].status.Pending? {
        PendingSurvives(worlds, steps, times, cap, i + 1, j, id);
      }
    }
  }

  /** Between the look into the outbox and the enqueueing of the scrape nothing is pending: a ZIP is claimed only when
      every batch ever enqueued is terminal or gone, although the claim itself does not look. */
  lemma ClaimsWaitForOutbox(worlds: seq<World>, steps: seq<Step>, times: seq<int>, cap: int, i: nat)
    requires Run(worlds, steps, times, cap) && i < |steps| && (steps[i].ClaimZip? || steps[i].DropScrape? || steps[i].Enqueue?)
    ensures NothingPending(worlds[i].rows)
  {
    hide Apply;
    RunInvariant(worlds, steps, times, cap, i);
    assert Enabled(worlds[i], steps[i], cap, times[i]);
  }

  /** Whatever is saved, crashed or repeated, the hotel table's unique columns stay unique. */
  lemma TableStaysUnique(worlds: seq<World>, steps: seq<Step>, times: seq<int>, cap: int, i: nat)
    requires Run(worlds, steps, times, cap) && i < |worlds|
    ensures UniqueTable(worlds[i].store.hotels)
  {
    hide UniqueTable;
    RunInvariant(worlds, steps, times, cap, i);
  }

  /** Exactly-once effect: however often crashes and retries make the worker commit one batch, only the first commit
      changes the hotel table. */
  lemma RepeatedCommitsChangeNothing(worlds: seq<World>, steps: seq<Step>, times: seq<int>, cap: int, i: nat)
    requires SoundRun(worlds, steps, times, cap) && i < |steps| && steps[i].CommitRemote?
    ensures worlds[i].phase.Flushing? && (worlds[i].phase.id in worlds[i].log ==> worlds[i + 1].store == worlds[i].store)
  {
    RunInvariant(worlds, steps, times, cap, i);
    SoundRunInvariant(worlds, steps, times, cap, i);
    hide FlushedRecords, Committed, MayCommit, Accepted, NoneDisplaced, ValidStore, CommittedLater;
    assert Enabled(worlds[i], steps[i], cap, times[i]) && SoundStep(worlds[i], steps[i], times[i]);
    CommitKeepsTable(worlds[i], cap, times[i]);
  }

  // ---- a round without interruption ----------------------------------------------------------

  /** A pending batch that the save accepts is delivered in three steps, with its records in the hotel table; nothing is
      pending then. */
  lemma FlushRound(w: World, id: string, cap: int, now: int, metadata: string)
    requires OneInFlight(w) && w.phase.Idle? && id in w.rows && w.rows[id].status.Pending?
    requires Accepted(w.store.hotels, FlushedRecords(w.rows[id].payload.records), cap)
    ensures Enabled(w, PickOldest(id), cap, now)
    ensures var picked := Apply(w, PickOldest(id), cap, now);
            && Enabled(picked, CommitRemote, cap, now)
            && var saved := Apply(picked, CommitRemote, cap, now);
               && Enabled(saved, Acknowledge(metadata), cap, now)
               && var done := Apply(saved, Acknowledge(metadata), cap, now);
                  && done.rows == w.rows[id := w.rows[id].(status := Delivered(now, metadata))]
                  && done.store == Committed(w.store, FlushedRecords(w.rows[id].payload.records), w.rows[id].payload.zip, now)
                  && done.phase == Idle && done.enqueued == w.enqueued && NothingPending(done.rows)
  {
    OldestOfOne(w, id);
    hide FlushedRecords, Committed, Accepted, IsOldestPending, OneInFlight;
  }

  lemma OldestOfOne(w: World, id: string)
    requires OneInFlight(w) && id in w.rows && w.rows[id].status.Pending?
    ensures IsOldestPending(w.rows, id)
    ensures forall b :: b in w.rows && b != id ==> !w.rows[b].status.Pending?
  {
    TextLeTotal(id, id);
  }

  /** One that the save refuses is quarantined in two steps, and the hotel table stays as it was. */
  lemma RefusalRound(w: World, id: string, cap: int, now: int, reason: string, evidence: string)
    requires OneInFlight(w) && w.phase.Idle? && id in w.rows && w.rows[id].status.Pending?
    ensures Enabled(w, PickOldest(id), cap, now)
    ensures var picked := Apply(w, PickOldest(id), cap, now);
            && Enabled(picked, Quarantine(reason, evidence), cap, now)
            && var done := Apply(picked, Quarantine(reason, evidence), cap, now);
               && done.rows == w.rows[id := w.rows[id].(status := Status.Quarantined(now, reason, evidence))]
               && done.store == w.store && done.phase == Idle && done.enqueued == w.enqueued && NothingPending(done.rows)
  {
    OldestOfOne(w, id);
    hide FlushedRecords, Committed, Accepted, IsOldestPending, OneInFlight, Enqueued, MayCommit;
  }

  /** A picked batch may be committed exactly when the save accepts it. */
  lemma CommitsIff(w: World, id: string, cap: int, now: int)
    requires w.phase == Flushing(id) && id in w.rows
    ensures Enabled(w, CommitRemote, cap, now) <==> Accepted(w.store.hotels, FlushedRecords(w.rows[id].payload.records), cap)
  {
    hide FlushedRecords, Accepted;
  }

  /** When nothing is pending, a scrape of a ZIP becomes the one pending batch, as its JSON image, in three steps. */
  lemma ScrapeRound(w: World, id: string, payload: Payload, image: Payload, cap: int, now: int)
    requires w.phase.Idle? && NothingPending(w.rows) && id !in w.enqueued && id !in w.rows && IsIdentifier(id) && IsValidPayload(payload)
    requires image.zip == payload.zip
    ensures Enabled(w, FindNothing, cap, now)
    ensures var clear := Apply(w, FindNothing, cap, now);
            && Enabled(clear, ClaimZip(payload.zip), cap, now)
            && var holding := Apply(clear, ClaimZip(payload.zip), cap, now);
               && Enabled(holding, Enqueue(id, payload, image), cap, now)
               && var done := Apply(holding, Enqueue(id, payload, image), cap, now);
                  && done.rows == w.rows[id := Batch(image, now, Status.Pending)]
                  && done.phase == Flushing(id) && done.enqueued == w.enqueued[id := image] && done.store == w.store
  {
    hide IsIdentifier, IsValidPayload;
  }

  /** A crash forgets what the worker held and nothing that is stored, and a pending batch is picked again. */
  lemma CrashForgets(w: World, id: string, cap: int, now: int)
    requires OneInFlight(w) && id in w.rows && w.rows[id].status.Pending?
    ensures var again := Apply(w, Crash, cap, now);
            && again == w.(phase := Idle) && Enabled(again, PickOldest(id), cap, now)
  {
    OldestOfOne(w, id);
    hide IsOldestPending, OneInFlight;
  }
}
