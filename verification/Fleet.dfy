/** Many workers, each with its own outbox, against one table of ZIP leases and one hotel table. A result commit writes
    the hotels and settles the ZIP row in one transaction; website evidence and the machines' sightings write hotels
    without a lease. */
module Fleet {
  import opened Collapse
  import opened Options
  import opened Outbox
  import D = Delivery
  import H = HotelSave
  import HW = HotelWriters
  import Z = ZipLease

  /** The shared tables, and what every worker keeps for itself. */
  datatype System = System(zips: Z.State, store: H.Store, desks: map<Z.Worker, D.World>)

  datatype Step =
    | Lease(lease: Z.Step)
    | Local(w: Z.Worker, desk: D.Step)
    | Claim(w: Z.Worker, z: Z.Code, refresh: Option<int>)
    | Enqueue(w: Z.Worker, id: string, payload: Payload, image: Payload)
    | Reclaim(w: Z.Worker, token: Option<Z.Token>)
    | Commit(w: Z.Worker)
    | Sight(m: HW.Sighting)
    | Crash(w: Z.Worker)

  /** What a worker sees: its own outbox and the shared hotel table. */
  function View(sys: System, w: Z.Worker): D.World {
    (if w in sys.desks then sys.desks[w] else D.World(map[], sys.store, D.Idle, map[], [], None)).(store := sys.store)
  }

  /** The ZIP of the batch in flight. */
  function ZipInFlight(sys: System, w: Z.Worker): Z.Code {
    var v := View(sys, w);
    if v.phase.Flushing? && v.phase.id in v.rows then v.rows[v.phase.id].payload.zip else ""
  }

  /** What the step does to the leases. */
  function LeaseStep(sys: System, step: Step, now: int): Z.Step {
    match step
    case Lease(x) => x
    case Local(w, d) => Z.Elsewhere
    case Claim(w, z, refresh) => Z.Claim(w, z, refresh)
    case Enqueue(w, id, payload, image) => if payload.zip in Z.ClaimsOf(sys.zips, w) then Z.Store(w, payload.zip) else Z.Elsewhere
    case Reclaim(w, token) => Z.OutboxClaim(w, ZipInFlight(sys, w), token)
    case Commit(w) => Z.Write(w, ZipInFlight(sys, w), Z.Done, Z.Empty, Some(now))
    case Sight(m) => Z.Elsewhere
    case Crash(w) => Z.Crash(w)
  }

  /** What the step does at the desk of the worker that takes it. */
  function DeskStep(step: Step): Option<(Z.Worker, D.Step)> {
    match step
    case Lease(x) => None
    case Local(w, d) => Some((w, d))
    case Claim(w, z, refresh) => Some((w, D.ClaimZip(z)))
    case Enqueue(w, id, payload, image) => Some((w, D.Enqueue(id, payload, image)))
    case Reclaim(w, token) => None
    case Commit(w) => Some((w, D.CommitRemote))
    case Sight(m) => None
    case Crash(w) => Some((w, D.Crash))
  }

  /** Steps that concern both tables are taken only together. */
  predicate WellPaired(sys: System, step: Step) {
    match step
    case Lease(x) => !x.Claim? && !x.Store? && !x.OutboxClaim? && !x.Crash?
    case Local(w, d) => !d.ClaimZip? && !d.Enqueue? && !d.CommitRemote? && !d.Crash?
    case Reclaim(w, token) => View(sys, w).phase.Flushing?
    case _ => true
  }

  ghost predicate Enabled(sys: System, step: Step, cap: int, now: int) {
    && WellPaired(sys, step)
    && Z.Enabled(sys.zips, LeaseStep(sys, step, now), now)
    && match DeskStep(step) case None => true case Some((w, d)) => D.Enabled(View(sys, w), d, cap, now)
  }

  ghost function Apply(sys: System, step: Step, cap: int, now: int): System
    requires Enabled(sys, step, cap, now)
  {
    var zips := Z.Apply(sys.zips, LeaseStep(sys, step, now), now);
    match DeskStep(step)
    case None => sys.(zips := zips, store := if step.Sight? then HW.Upserted(sys.store, step.m, now) else sys.store)
    case Some((w, d)) =>
      var v := D.Apply(View(sys, w), d, cap, now);
      System(zips, v.store, sys.desks[w := v])
  }

  // ---- invariants -----------------------------------------------------------------------

  ghost predicate DesksSound(sys: System) {
    forall w :: D.OneInFlight(View(sys, w)) && D.Faithful(View(sys, w))
  }

  ghost predicate Sound(sys: System) {
    Z.TokensOwned(sys.zips) && H.ValidStore(sys.store) && DesksSound(sys)
  }

  lemma ViewAfter(sys: System, step: Step, cap: int, now: int, w: Z.Worker)
    requires Enabled(sys, step, cap, now)
    ensures var v := View(Apply(sys, step, cap, now), w);
            match DeskStep(step)
            case None => v == View(sys, w).(store := Apply(sys, step, cap, now).store)
            case Some((x, d)) =>
              if w == x then v == D.Apply(View(sys, w), d, cap, now)
              else v == View(sys, w).(store := Apply(sys, step, cap, now).store)
  {
    hide D.Apply, D.Enabled, Z.Apply, Z.Enabled, LeaseStep, DeskStep, HW.Upserted;
  }

  lemma DeskOfOthers(v: D.World, store: H.Store)
    requires D.OneInFlight(v) && D.Faithful(v)
    ensures D.OneInFlight(v.(store := store)) && D.Faithful(v.(store := store))
  {}

  /** No step of any worker, operator or machine breaks a lease table, an outbox or the hotel table. */
  lemma StepKeepsSound(sys: System, step: Step, cap: int, now: int)
    requires Sound(sys) && Enabled(sys, step, cap, now)
    ensures Sound(Apply(sys, step, cap, now))
  {
    hide D.Apply, D.Enabled, D.OneInFlight, D.Faithful, Z.Apply, Z.Enabled, Z.TokensOwned, H.ValidStore, LeaseStep, DeskStep, View, HW.Upserted;
    var s' := Apply(sys, step, cap, now);
    Z.StepKeepsTokensOwned(sys.zips, LeaseStep(sys, step, now), now);
    ViewStore(sys);
    match DeskStep(step) {
      case None =>
        if step.Sight? {
          HW.UpsertKeeps(sys.store, step.m, now);
        }
      case Some((x, d)) => D.StepKeepsStoreValid(View(sys, x), d, cap, now);
    }
    forall w ensures D.OneInFlight(View(s', w)) && D.Faithful(View(s', w)) {
      ViewAfter(sys, step, cap, now, w);
      match DeskStep(step) {
        case None => DeskOfOthers(View(sys, w), s'.store);
        case Some((x, d)) =>
          if w == x {
            D.StepKeepsOneInFlight(View(sys, w), d, cap, now);
            D.StepKeepsFaithful(View(sys, w), d, cap, now);
          } else {
            DeskOfOthers(View(sys, w), s'.store);
          }
      }
    }
  }

  lemma ViewStore(sys: System)
    ensures forall w :: View(sys, w).store == sys.store
  {}

  // ---- whole runs -------------------------------------------------------------------------

  ghost predicate Initial(sys: System) {
    Z.Initial(sys.zips) && H.ValidStore(sys.store) && sys.desks == map[]
  }

  /** Any interleaving of all workers, operators and machines. */
  ghost predicate Run(states: seq<System>, steps: seq<Step>, times: seq<int>, cap: int) {
    && |states| == |steps| + 1 && |times| == |steps| && Initial(states[0])
    && forall i :: 0 <= i < |steps| ==>
         Enabled(states[i], steps[i], cap, times[i]) && states[i + 1] == Apply(states[i], steps[i], cap, times[i])
  }

  lemma InitialSound(sys: System)
    requires Initial(sys)
    ensures Sound(sys)
  {
    Z.InitialOwned(sys.zips);
    hide Z.TokensOwned, H.ValidStore;
  }

  lemma {:induction false} RunSound(states: seq<System>, steps: seq<Step>, times: seq<int>, cap: int, i: nat)
    requires Run(states, steps, times, cap) && i < |states|
    ensures Sound(states[i])
  {
    hide Sound, Enabled, Apply;
    if i == 0 {
      InitialSound(states[0]);
    } else {
      RunSound(states, steps, times, cap, i - 1);
      StepKeepsSound(states[i - 1], steps[i - 1], cap, times[i - 1]);
    }
  }

  /** The leases of a run, as the leases see it. */
  function Leases(states: seq<System>): (zips: seq<Z.State>)
    ensures |zips| == |states| && forall i :: 0 <= i < |states| ==> zips[i] == states[i].zips
  {
    seq(|states|, i requires 0 <= i < |states| => states[i].zips)
  }

  function LeaseSteps(states: seq<System>, steps: seq<Step>, times: seq<int>): (r: seq<Z.Step>)
    requires |states| == |steps| + 1 && |times| == |steps|
    ensures |r| == |steps| && forall i :: 0 <= i < |steps| ==> r[i] == LeaseStep(states[i], steps[i], times[i])
  {
    seq(|steps|, i requires 0 <= i < |steps| => LeaseStep(states[i], steps[i], times[i]))
  }

  /** A run of the whole system is a run of the lease table. */
  lemma RunOfLeases(states: seq<System>, steps: seq<Step>, times: seq<int>, cap: int)
    requires Run(states, steps, times, cap)
    ensures Z.Run(Leases(states), LeaseSteps(states, steps, times), times)
  {
    hide LeaseStep, Z.Enabled, Z.Apply, D.Enabled, D.Apply, View, DeskStep, WellPaired;
    var zips, r := Leases(states), LeaseSteps(states, steps, times);
    forall i | 0 <= i < |r| ensures Z.Enabled(zips[i], r[i], times[i]) && zips[i + 1] == Z.Apply(zips[i], r[i], times[i]) {
      assert Enabled(states[i], steps[i], cap, times[i]) && states[i + 1] == Apply(states[i], steps[i], cap, times[i]);
    }
  }

  /** Website evidence, written by a worker whose outbox has nothing pending. */
  predicate EnrichStep(step: Step) {
    step.Local? && step.desk.Enrich?
  }

  /** The hotel table has three writers, and what two of them may do is limited: evidence only fills blank columns. */
  lemma ThreeWriters(sys: System, step: Step, cap: int, now: int)
    requires Enabled(sys, step, cap, now) && Apply(sys, step, cap, now).store != sys.store
    ensures step.Commit? || step.Sight? || EnrichStep(step)
    ensures EnrichStep(step) ==> HW.OnlyFilled(sys.store.hotels, Apply(sys, step, cap, now).store.hotels)
                                 && Apply(sys, step, cap, now).store.nextId == sys.store.nextId
  {
    hide Z.Apply, Z.Enabled, LeaseStep, H.Committed, H.FlushedRecords, D.MayCommit, HW.Enriched, HW.Upserted, HW.OnlyFilled;
    if EnrichStep(step) {
      HW.EvidenceOnlyFills(sys.store, step.desk.r, step.desk.fills, step.desk.notes);
    }
  }

  /** No writer of the hotel table removes a row or changes an identity that is set. */
  lemma StepKeepsIdentities(sys: System, step: Step, cap: int, now: int)
    requires H.ValidStore(sys.store) && Enabled(sys, step, cap, now)
    ensures HW.IdentitiesKept(sys.store.hotels, Apply(sys, step, cap, now).store.hotels)
  {
    if Apply(sys, step, cap, now).store == sys.store {
      HW.KeepsItself(sys.store);
    } else {
      ThreeWriters(sys, step, cap, now);
      hide HW.IdentitiesKept, HW.OnlyFilled, H.ValidStore, H.FlushedRecords, H.Committed, H.Accepted, HW.Upserted, Z.Apply, Z.Enabled, LeaseStep;
      match step {
        case Sight(m) => HW.UpsertKeeps(sys.store, m, now);
        case Commit(w) =>
          var p := View(sys, w).rows[View(sys, w).phase.id].payload;
          PayloadKeeps(sys.store, p, cap, now);
        case _ => HW.FilledKeeps(sys.store, Apply(sys, step, cap, now).store);
      }
    }
  }

  lemma PayloadKeeps(s: H.Store, p: Payload, cap: int, now: int)
    requires H.ValidStore(s) && H.Accepted(s.hotels, H.FlushedRecords(p.records), cap)
    ensures HW.IdentitiesKept(s.hotels, H.Committed(s, H.FlushedRecords(p.records), p.zip, now).hotels)
  {
    hide *;
    H.FlushedAreDistinct(p.records);
    H.AcceptedUnambiguous(s.hotels, H.FlushedRecords(p.records), cap);
    HW.CommitKeeps(s, H.FlushedRecords(p.records), p.zip, now);
  }

  /** Over any stretch of any run hotels stay, their keys never change, and a place id once set never changes. */
  lemma {:induction false} IdentitiesLast(states: seq<System>, steps: seq<Step>, times: seq<int>, cap: int, i: nat, k: nat)
    requires Run(states, steps, times, cap) && i <= k < |states|
    ensures HW.IdentitiesKept(states[i].store.hotels, states[k].store.hotels)
    decreases k
  {
    hide Enabled, Apply, Sound;
    if i < k {
      IdentitiesLast(states, steps, times, cap, i, k - 1);
      RunSound(states, steps, times, cap, k - 1);
      SoundStore(states[k - 1]);
      assert Enabled(states[k - 1], steps[k - 1], cap, times[k - 1]);
      StepKeepsIdentities(states[k - 1], steps[k - 1], cap, times[k - 1]);
    }
  }

  lemma SoundStore(sys: System)
    requires Sound(sys)
    ensures H.ValidStore(sys.store)
  {}

  /** Who changes the hotel table, in every run of every worker: website evidence, which only fills blank columns; a
      machine's sighting, which keeps every identity; or a result commit, made by the one holder of the lease on the
      batch's ZIP. If that worker was not the holder at some earlier point, then in between it claimed the ZIP again, or
      a virtual machine claimed a row that still carried its token. The commit settles the row, so afterwards nobody
      holds the ZIP. */
  lemma HotelWritesAreFenced(states: seq<System>, steps: seq<Step>, times: seq<int>, cap: int, i: nat, k: nat)
    requires Run(states, steps, times, cap) && i <= k < |steps| && states[k + 1].store != states[k].store
    ensures steps[k].Commit? || steps[k].Sight? || (EnrichStep(steps[k]) && HW.OnlyFilled(states[k].store.hotels, states[k + 1].store.hotels))
    ensures HW.IdentitiesKept(states[k].store.hotels, states[k + 1].store.hotels)
    ensures steps[k].Commit? ==>
              var w, z, after := steps[k].w, ZipInFlight(states[k], steps[k].w), states[k + 1].zips;
              && (forall x :: Z.HoldsZip(states[k].zips, x, z) <==> x == w)
              && (forall x :: !Z.HoldsZip(after, x, z))
              && (!Z.HoldsZip(states[i].zips, w, z) ==>
                    exists m :: i <= m < k && (Z.IsClaimOf(LeaseStep(states[m], steps[m], times[m]), w, z) ||
                                               Z.Rearms(states[m].zips, LeaseStep(states[m], steps[m], times[m]), w, z)))
  {
    hide Z.HoldsZip, Z.IsClaimOf, Z.Rearms, Z.Apply, Z.Enabled, D.Enabled, D.Apply, View, Enabled, Apply, ZipInFlight, HW.OnlyFilled, HW.IdentitiesKept;
    assert Enabled(states[k], steps[k], cap, times[k]) && states[k + 1] == Apply(states[k], steps[k], cap, times[k]);
    ThreeWriters(states[k], steps[k], cap, times[k]);
    IdentitiesLast(states, steps, times, cap, k, k + 1);
    if steps[k].Commit? {
      RunOfLeases(states, steps, times, cap);
      Z.WritesAreFenced(Leases(states), LeaseSteps(states, steps, times), times, i, k);
      CommitSettles(states[k], steps[k], cap, times[k]);
    }
  }

  lemma CommitSettles(sys: System, step: Step, cap: int, now: int)
    requires Enabled(sys, step, cap, now) && step.Commit?
    ensures var z := ZipInFlight(sys, step.w);
            && (forall x :: !Z.HoldsZip(Apply(sys, step, cap, now).zips, x, z))
            && !Z.CarriesToken(Apply(sys, step, cap, now).zips, z)
            && Z.HoldsZip(sys.zips, step.w, z)
  {
    hide D.Enabled, D.Apply, View, ZipInFlight;
  }

  /** Between two commits for one ZIP, by whichever workers, some worker claims it: no claim pays for two commits. */
  lemma OneCommitPerClaim(states: seq<System>, steps: seq<Step>, times: seq<int>, cap: int, i: nat, j: nat)
    requires Run(states, steps, times, cap) && i < j < |steps| && steps[i].Commit? && steps[j].Commit?
    requires ZipInFlight(states[i], steps[i].w) == ZipInFlight(states[j], steps[j].w)
    ensures exists k :: i < k < j && Z.ClaimsZip(LeaseStep(states[k], steps[k], times[k]), ZipInFlight(states[i], steps[i].w))
  {
    hide Z.HoldsZip, Z.CarriesToken, Z.ClaimsZip, Enabled, Apply, ZipInFlight, LeaseStep;
    var z := ZipInFlight(states[i], steps[i].w);
    CommitSettles(states[i], steps[i], cap, times[i]);
    CommitSettles(states[j], steps[j], cap, times[j]);
    HolderCarries(states[j].zips, steps[j].w, z);
    RunOfLeases(states, steps, times, cap);
    Z.TokenFromClaimBetween(Leases(states), LeaseSteps(states, steps, times), times, i + 1, j, z);
  }

  lemma HolderCarries(s: Z.State, w: Z.Worker, z: Z.Code)
    requires Z.HoldsZip(s, w, z)
    ensures Z.CarriesToken(s, z)
  {}

  /** At step `k` worker `w` committed the enqueued payload of batch `id` to the hotel table, as the only holder of its ZIP. */
  ghost predicate CommittedAt(states: seq<System>, steps: seq<Step>, times: seq<int>, k: nat, w: Z.Worker, id: string, p: Payload)
    requires |states| == |steps| + 1 && |times| == |steps| && k < |steps|
  {
    && steps[k] == Commit(w) && View(states[k], w).phase == D.Flushing(id)
    && id in View(states[k], w).rows && View(states[k], w).rows[id].payload == p
    && states[k + 1].store == H.Committed(states[k].store, H.FlushedRecords(p.records), p.zip, times[k])
    && forall x :: Z.HoldsZip(states[k].zips, x, p.zip) <==> x == w
  }

  /** Delivered means saved under the lease: in every run, a batch that some worker's outbox calls delivered was first
      committed by that worker, with the payload it was enqueued with, while it alone held the batch's ZIP. */
  lemma DeliveredUnderLease(states: seq<System>, steps: seq<Step>, times: seq<int>, cap: int, i: nat, w: Z.Worker, id: string)
    requires Run(states, steps, times, cap) && i < |states|
    requires id in View(states[i], w).rows && View(states[i], w).rows[id].status.Delivered?
    ensures var v := View(states[i], w);
            && id in v.enqueued && v.rows[id].payload == v.enqueued[id]
            && exists k :: 0 <= k < i && CommittedAt(states, steps, times, k, w, id, v.enqueued[id])
  {
    RunSound(states, steps, times, cap, i);
    assert D.Faithful(View(states[i], w));
    hide CommittedAt, View, Enabled, Apply;
    CommittedSomewhere(states, steps, times, cap, i, w, id);
  }

  lemma {:induction false} CommittedSomewhere(states: seq<System>, steps: seq<Step>, times: seq<int>, cap: int, i: nat, w: Z.Worker, id: string)
    requires Run(states, steps, times, cap) && i < |states| && id in View(states[i], w).log
    ensures id in View(states[i], w).enqueued
    ensures exists k :: 0 <= k < i && CommittedAt(states, steps, times, k, w, id, View(states[i], w).enqueued[id])
  {
    hide CommittedAt, Enabled, Apply, D.OneInFlight, D.Faithful, D.Enabled, D.Apply, Z.Enabled, Z.Apply, LeaseStep;
    NothingLogged(states[0]);
    if i > 0 {
      var k := i - 1;
      assert Enabled(states[k], steps[k], cap, times[k]) && states[i] == Apply(states[k], steps[k], cap, times[k]);
      RunSound(states, steps, times, cap, k);
      DeskLogGrows(states[k], steps[k], cap, times[k], w, id);
      if id in View(states[k], w).log {
        CommittedSomewhere(states, steps, times, cap, k, w, id);
      } else {
        CommitShown(states, steps, times, cap, k, w, id);
      }
    }
  }

  lemma NothingLogged(sys: System)
    requires Initial(sys)
    ensures forall w :: View(sys, w).log == []
  {}

  lemma DeskLogGrows(sys: System, step: Step, cap: int, now: int, w: Z.Worker, id: string)
    requires Sound(sys) && Enabled(sys, step, cap, now) && id in View(Apply(sys, step, cap, now), w).log
    ensures var v, v' := View(sys, w), View(Apply(sys, step, cap, now), w);
            && (id in v.log || (step == Commit(w) && v.phase == D.Flushing(id)))
            && (id in v.log ==> id in v.enqueued && id in v'.enqueued && v'.enqueued[id] == v.enqueued[id])
  {
    ViewAfter(sys, step, cap, now, w);
    assert D.Faithful(View(sys, w));
    hide View, D.Enabled, D.Apply, D.Faithful, Z.Enabled, Z.Apply, LeaseStep, Apply;
    match DeskStep(step) {
      case None => LoggedIsEnqueued(View(sys, w), id);
      case Some((x, d)) =>
        if w == x {
          D.LogGrows(View(sys, w), d, cap, now, id);
        } else {
          LoggedIsEnqueued(View(sys, w), id);
        }
    }
  }

  lemma LoggedIsEnqueued(v: D.World, id: string)
    requires D.Faithful(v)
    ensures id in v.log ==> id in v.enqueued
  {}

  lemma CommitShown(states: seq<System>, steps: seq<Step>, times: seq<int>, cap: int, k: nat, w: Z.Worker, id: string)
    requires Run(states, steps, times, cap) && k < |steps| && steps[k] == Commit(w) && View(states[k], w).phase == D.Flushing(id)
    ensures id in View(states[k + 1], w).enqueued
    ensures CommittedAt(states, steps, times, k, w, id, View(states[k + 1], w).enqueued[id])
  {
    assert Enabled(states[k], steps[k], cap, times[k]) && states[k + 1] == Apply(states[k], steps[k], cap, times[k]);
    RunSound(states, steps, times, cap, k);
    CommitHasPayload(states[k], steps[k], cap, times[k], id);
    CommitSettles(states[k], steps[k], cap, times[k]);
    Z.OneHolder(states[k].zips, ZipInFlight(states[k], w));
    hide Sound, Enabled, Apply, View, ZipInFlight, H.Committed, H.FlushedRecords, Z.HoldsZip;
  }

  lemma CommitHasPayload(sys: System, step: Step, cap: int, now: int, id: string)
    requires Sound(sys) && Enabled(sys, step, cap, now) && step.Commit? && View(sys, step.w).phase == D.Flushing(id)
    ensures var v, s' := View(sys, step.w), Apply(sys, step, cap, now);
            && id in v.rows && id in v.enqueued && v.rows[id].payload == v.enqueued[id]
            && View(s', step.w).enqueued == v.enqueued && ZipInFlight(sys, step.w) == v.enqueued[id].zip
            && s'.store == H.Committed(sys.store, H.FlushedRecords(v.enqueued[id].records), v.enqueued[id].zip, now)
  {
    assert D.Faithful(View(sys, step.w));
    hide Z.Enabled, Z.Apply, H.Committed, H.FlushedRecords, H.ValidStore, Z.TokensOwned;
  }

  /** Replay adds nothing in the whole fleet: once a batch is committed, and no record of it was known by CID alone, a
      later commit of the same payload adds no hotel, whatever all workers and machines wrote in between. */
  lemma RecommitAddsNothing(states: seq<System>, steps: seq<Step>, times: seq<int>, cap: int, k: nat, j: nat,
                            w: Z.Worker, id: string, x: Z.Worker, again: string, p: Payload)
    requires Run(states, steps, times, cap) && k < j < |steps|
    requires CommittedAt(states, steps, times, k, w, id, p) && CommittedAt(states, steps, times, j, x, again, p)
    requires var records := H.FlushedRecords(p.records);
             forall i :: 0 <= i < |records| ==> !HW.KnownByCidAlone(states[k].store.hotels, records[i])
    ensures states[j + 1].store.hotels.Keys == states[j].store.hotels.Keys && states[j + 1].store.nextId == states[j].store.nextId
  {
    RunLength(states, steps, times, cap);
    hide *;
    var records := H.FlushedRecords(p.records);
    CommitWasAccepted(states, steps, times, cap, k, w, id, p);
    CommitWasAccepted(states, steps, times, cap, j, x, again, p);
    H.FlushedAreDistinct(p.records);
    H.AcceptedUnambiguous(states[k].store.hotels, records, cap);
    IdentitiesLast(states, steps, times, cap, k + 1, j);
    forall i | 0 <= i < |records| ensures H.Target(states[j].store.hotels, records[i]).Some? {
      HW.StillFound(states[k].store, records, p.zip, times[k], states[j].store, i);
    }
    HW.AddsNothing(states[j].store, records, p.zip, times[j]);
  }

  lemma RunLength(states: seq<System>, steps: seq<Step>, times: seq<int>, cap: int)
    requires Run(states, steps, times, cap)
    ensures |states| == |steps| + 1 && |times| == |steps|
  {}

  lemma CommitWasAccepted(states: seq<System>, steps: seq<Step>, times: seq<int>, cap: int, k: nat, w: Z.Worker, id: string, p: Payload)
    requires Run(states, steps, times, cap) && k < |steps| && CommittedAt(states, steps, times, k, w, id, p)
    ensures H.ValidStore(states[k].store) && H.Accepted(states[k].store.hotels, H.FlushedRecords(p.records), cap)
    ensures states[k + 1].store == H.Committed(states[k].store, H.FlushedRecords(p.records), p.zip, times[k])
  {
    RunSound(states, steps, times, cap, k);
    SoundStore(states[k]);
    assert Enabled(states[k], steps[k], cap, times[k]);
    hide H.ValidStore, Sound, Apply, H.Committed, H.FlushedRecords, H.Accepted, Z.Enabled, LeaseStep;
  }

  // ---- what a step does to the whole -----------------------------------------------------------

  /** Whoever holds the ZIP of an acceptable batch may commit it: the records are in the hotel table, the ZIP is done, and
      the batch waits for its acknowledgement; other desks keep their outboxes. */
  lemma CommitEffect(sys: System, w: Z.Worker, id: string, cap: int, now: int)
    requires View(sys, w).phase == D.Flushing(id) && id in View(sys, w).rows
    requires var p := View(sys, w).rows[id].payload;
             Z.HoldsZip(sys.zips, w, p.zip) && H.Accepted(sys.store.hotels, H.FlushedRecords(p.records), cap)
    ensures Enabled(sys, Commit(w), cap, now)
    ensures var p, after := View(sys, w).rows[id].payload, Apply(sys, Commit(w), cap, now);
            && after.store == H.Committed(sys.store, H.FlushedRecords(p.records), p.zip, now)
            && after.zips.rows == sys.zips.rows[p.zip := Z.Row(Z.Done, Z.Empty, now, Some(now))]
            && View(after, w).phase == D.Unacked(id) && View(after, w).rows == View(sys, w).rows
            && forall x :: x != w ==> View(after, x) == View(sys, x).(store := after.store)
  {
    hide H.Accepted, H.FlushedRecords, H.Committed;
  }

  /** A scrape becomes a pending batch at its worker's desk, and the claim of its ZIP is stored with it. */
  lemma EnqueueEffect(sys: System, w: Z.Worker, id: string, payload: Payload, image: Payload, cap: int, now: int)
    requires View(sys, w).phase == D.Holding(payload.zip) && image.zip == payload.zip
    requires id !in View(sys, w).enqueued && id !in View(sys, w).rows && IsIdentifier(id) && IsValidPayload(payload)
    ensures Enabled(sys, Enqueue(w, id, payload, image), cap, now)
    ensures var after := Apply(sys, Enqueue(w, id, payload, image), cap, now);
            && View(after, w).rows == View(sys, w).rows[id := Batch(image, now, Status.Pending)]
            && View(after, w).phase == D.Flushing(id) && after.store == sys.store && after.zips.rows == sys.zips.rows
            && forall t :: (payload.zip, t) in Z.StoredOf(after.zips, w) <==>
                 (payload.zip, t) in Z.StoredOf(sys.zips, w) || (payload.zip in Z.ClaimsOf(sys.zips, w) && Z.ClaimsOf(sys.zips, w)[payload.zip] == t)
  {
    hide IsIdentifier, IsValidPayload;
  }

  /** The ZIP of a batch in flight is taken again unless somebody else holds it. */
  lemma ReclaimEffect(sys: System, w: Z.Worker, id: string, cap: int, now: int)
    requires View(sys, w).phase == D.Flushing(id) && id in View(sys, w).rows
    ensures var z := View(sys, w).rows[id].payload.zip;
            && (Enabled(sys, Reclaim(w, None), cap, now) <==>
                  z in sys.zips.rows && (sys.zips.rows[z].status == Z.InProgress ==> sys.zips.rows[z].mark == Z.Lease(sys.zips.nextToken)))
            && (Enabled(sys, Reclaim(w, None), cap, now) ==>
                  var after := Apply(sys, Reclaim(w, None), cap, now);
                  Z.HoldsZip(after.zips, w, z) && after.store == sys.store && after.desks == sys.desks)
  {}

  /** A crash costs a worker its claims and what it held, and nobody anything that is stored. */
  lemma CrashEffect(sys: System, w: Z.Worker, cap: int, now: int)
    ensures Enabled(sys, Crash(w), cap, now)
    ensures var after := Apply(sys, Crash(w), cap, now);
            && after.store == sys.store && after.zips == sys.zips.(claims := sys.zips.claims[w := map[]])
            && View(after, w) == View(sys, w).(phase := D.Idle) && forall x :: x != w ==> View(after, x) == View(sys, x)
  {}

  /** Evidence is written by a worker whose outbox has nothing pending, and changes the hotel table and nothing else. */
  lemma EvidenceEffect(sys: System, w: Z.Worker, r: Record, fills: map<Field, string>, notes: map<string, string>, cap: int, now: int)
    ensures Enabled(sys, Local(w, D.Enrich(r, fills, notes)), cap, now) <==> View(sys, w).phase.Clear?
    ensures View(sys, w).phase.Clear? ==>
              var after := Apply(sys, Local(w, D.Enrich(r, fills, notes)), cap, now);
              && after.store == HW.Enriched(sys.store, r, fills, notes) && after.zips == sys.zips
              && forall x :: View(after, x) == View(sys, x).(store := after.store)
  {
    hide HW.Enriched;
  }

  /** A sighting changes the hotel table and nothing else. */
  lemma SightEffect(sys: System, m: HW.Sighting, cap: int, now: int)
    ensures Enabled(sys, Sight(m), cap, now)
    ensures Apply(sys, Sight(m), cap, now) == System(sys.zips, HW.Upserted(sys.store, m, now), sys.desks)
  {
    hide HW.Upserted;
  }

  // ---- one uninterrupted flush --------------------------------------------------------------

  lemma AcknowledgePending(rows: Rows, id: string, target: Status, image: Status)
    requires IsOldestPending(rows, id) && SameKind(target, image)
    ensures Transitioned(rows, id, target, image).1 == rows[id := rows[id].(status := image)]
  {}

  lemma FlushedAre(stored: seq<Record>)
    ensures H.FlushedRecords(stored) == Collapsed(Collapsed(stored))
  {}

  lemma OldestIsIn(rows: Rows, id: string)
    requires IsOldestPending(rows, id)
    ensures id in rows && !D.NothingPending(rows)
  {}

  lemma PendingIs(rows: Rows)
    ensures D.NothingPending(rows) <==> forall id :: id in rows ==> !rows[id].status.Pending?
  {}

  lemma TakenIsHeld(rows: Z.Rows, claims: Z.Claims, z: Z.Code, token: Z.Token, now: int)
    requires z in rows
    ensures z in Z.Take(rows, z, token, now) && Z.Holds(Z.Take(rows, z, token, now), claims[z := token], z)
  {}

  lemma AckImages(json: Json, now: int, metadata: string, reason: string, evidence: string)
    requires json.text(metadata).Some? && json.text(evidence).Some?
    ensures json.AckImage(Delivered(now, metadata)) == Some(Delivered(now, json.text(metadata).value))
    ensures json.AckImage(Quarantined(now, reason, evidence)) == Some(Quarantined(now, reason, json.text(evidence).value))
    ensures SameKind(Delivered(now, metadata), Delivered(now, json.text(metadata).value))
    ensures SameKind(Quarantined(now, reason, evidence), Quarantined(now, reason, json.text(evidence).value))
  {}

  const ROW_REASON_LIMIT := 500

  /** What a parked ZIP row says; the outbox keeps the whole reason. */
  function RowReason(reason: string): string {
    if |reason| > ROW_REASON_LIMIT then reason[..ROW_REASON_LIMIT] else reason
  }

  /** How a flush ended: no pending batch, a ZIP without a row, a ZIP that somebody else holds, or one of the two
      acknowledgements. */
  datatype Flush = NothingToDo | NoRow | Waiting | Saved | Refused

  /** Flush the oldest pending batch: take its ZIP, save it, and acknowledge it as delivered; or, when the save refuses it,
      park the ZIP and acknowledge the batch as quarantined. While somebody else holds the ZIP nothing happens. */
  method FlushOneOutboxBatch(outbox: LocalOutbox, db: H.Database, worker: Z.ZipWorker, stored: Option<Z.Token>, cap: int, now: int,
                             metadata: string, reason: string, evidence: string)
    returns (flush: Flush, ghost id: string)
    requires db.Valid() && IsReason(reason) && forall b :: b in outbox.rows ==> IsIdentifier(b)
    requires outbox.json.text(metadata).Some? && outbox.json.text(evidence).Some?
    modifies outbox, db, worker, worker.table
    ensures db.Valid()
    ensures flush == NothingToDo <==> D.NothingPending(old(outbox.rows))
    ensures flush != NothingToDo ==> IsOldestPending(old(outbox.rows), id) && id in old(outbox.rows)
    ensures flush == NothingToDo || flush == NoRow || flush == Waiting ==>
              && outbox.rows == old(outbox.rows) && db.hotels == old(db.hotels) && db.nextId == old(db.nextId)
              && worker.table.rows == old(worker.table.rows) && worker.claims == old(worker.claims)
    ensures flush != NothingToDo ==>
              var b := old(outbox.rows)[id];
              var z, records := b.payload.zip, H.FlushedRecords(b.payload.records);
              var token := if stored.Some? then stored.value else old(worker.table.nextToken);
              && (flush == NoRow <==> z !in old(worker.table.rows))
              && (z in old(worker.table.rows) ==>
                    var row, taken := old(worker.table.rows)[z], Z.Take(old(worker.table.rows), z, token, now);
                    && (flush == Waiting <==> row.status == Z.InProgress && row.mark != Z.Lease(token))
                    && (flush == Saved || flush == Refused ==>
                          (flush == Saved <==> H.Accepted(old(db.hotels), records, cap)) && worker.claims == old(worker.claims) - {z})
                    && (flush == Saved ==>
                          && outbox.rows == old(outbox.rows)[id := b.(status := Delivered(now, outbox.json.text(metadata).value))]
                          && H.Store(db.hotels, db.nextId) == H.Committed(old(H.Store(db.hotels, db.nextId)), records, z, now)
                          && z in taken && worker.table.rows == Z.Settle(taken, z, Z.Done, Z.Empty, Some(now), now))
                    && (flush == Refused ==>
                          && outbox.rows == old(outbox.rows)[id := b.(status := Quarantined(now, reason, outbox.json.text(evidence).value))]
                          && db.hotels == old(db.hotels) && db.nextId == old(db.nextId)
                          && z in taken && worker.table.rows == Z.Settle(taken, z, Z.Status.Quarantined,
                                                     Z.Mark.Text(if |reason| > 500 then reason[..500] else reason), None, now)))
  {
    hide *;
    PendingIs(outbox.rows);
    AckImages(outbox.json, now, metadata, reason, evidence);
    id := "";
    var head := outbox.OldestPending();
    if head.None? {
      return NothingToDo, id;
    }
    id := head.value;
    OldestIsIn(outbox.rows, head.value);
    var entry := outbox.rows[head.value];
    var z := entry.payload.zip;
    if z !in worker.table.rows {
      return NoRow, id;
    }
    TakenIsHeld(worker.table.rows, worker.claims, z, if stored.Some? then stored.value else worker.table.nextToken, now);
    var claimed := worker.ClaimOutboxZip(z, stored, now);
    if !claimed {
      return Waiting, id;
    }
    FlushedAre(entry.payload.records);
    AcknowledgePending(outbox.rows, id, Delivered(now, metadata), Delivered(now, outbox.json.text(metadata).value));
    AcknowledgePending(outbox.rows, id, Quarantined(now, reason, evidence), Quarantined(now, reason, outbox.json.text(evidence).value));
    IsOutcome(RowReason(reason));
    ReasonIs(reason);
    RowReasonIs(reason);
    var prepared := CollapseRecords(entry.payload.records);
    var outcome := db.SaveResults(prepared, z, now, cap);
    if outcome.Saved? {
      var settled := worker.SetZipState(z, Z.Done, Z.Empty, Some(now), now);
      var r := outbox.MarkDelivered(head.value, metadata, now);
      flush := Saved;
    } else {
      var parked := worker.SetZipState(z, Z.Status.Quarantined, Z.Mark.Text(RowReason(reason)), None, now);
      var r := outbox.MarkQuarantined(head.value, reason, evidence, now);
      flush := Refused;
    }
  }

  lemma RowReasonIs(reason: string)
    ensures RowReason(reason) == if |reason| > 500 then reason[..500] else reason
  {}

  lemma ReasonIs(reason: string)
    requires IsReason(reason)
    ensures 0 < |reason| < 2001 && '\0' !in reason
  {}

  lemma IsOutcome(reason: string)
    ensures Z.Outcome(Z.Done, Z.Empty) && Z.Outcome(Z.Status.Quarantined, Z.Mark.Text(reason))
  {}
}
