/** Result transactions that overlap: each looks its records up first and inserts later, with only the rows it found
    locked, and others commit in between. */
module OverlappingSaves {
  import opened Collapse
  import opened HotelSave
  import opened HotelWriters
  import opened Options

  // ---- one save with commits of others in between ----------------------------------------------------

  /** Rows found by the look-up are locked; every other row may change until the inserts, and rows may be added. */
  ghost predicate Locked(t: Table, records: seq<Record>, id: nat) {
    id in t && exists i :: 0 <= i < |records| && Target(t, records[i]) == Some(id)
  }

  ghost predicate Interference(s0: Store, s1: Store, records: seq<Record>) {
    && ValidStore(s1) && IdentitiesKept(s0.hotels, s1.hotels)
    && forall id :: Locked(s0.hotels, records, id) ==> s1.hotels[id] == s0.hotels[id]
  }

  /** The table when the inserts begin: the locked rows as touched, the others as they are by then. */
  ghost function Overlaid(t0: Table, t1: Table, records: seq<Record>, now: int): Table {
    map id | id in t1 :: if Locked(t0, records, id) then TouchAll(t0, records, |records|, now)[id] else t1[id]
  }

  /** A save that looked up `s0` and inserts into `s1`. A touch that the unique place ids reject rolls everything back. */
  ghost function LateSave(s0: Store, s1: Store, records: seq<Record>, zip: string, now: int, cap: int): Store {
    var u := Overlaid(s0.hotels, s1.hotels, records, now);
    if !Accepted(s0.hotels, records, cap) || !UniqueTable(u) then s1
    else InsertAll(s0.hotels, Store(u, s1.nextId), records, |records|, zip, now)
  }

  lemma InsertRowKeeps(s: Store, h: Hotel)
    requires ValidStore(s)
    ensures ValidStore(InsertRow(s, h)) && s.nextId <= InsertRow(s, h).nextId
    ensures forall id :: id in s.hotels ==> id in InsertRow(s, h).hotels && InsertRow(s, h).hotels[id] == s.hotels[id]
  {}

  lemma {:induction false} InsertAllKeeps(t: Table, s: Store, records: seq<Record>, n: nat, zip: string, now: int)
    requires n <= |records| && ValidStore(s)
    ensures ValidStore(InsertAll(t, s, records, n, zip, now))
    ensures forall id :: id in s.hotels ==> id in InsertAll(t, s, records, n, zip, now).hotels
                                            && InsertAll(t, s, records, n, zip, now).hotels[id] == s.hotels[id]
  {
    hide ValidStore, InsertRow, NewRow, Target;
    if n > 0 {
      InsertAllKeeps(t, s, records, n - 1, zip, now);
      InsertRowKeeps(InsertAll(t, s, records, n - 1, zip, now), NewRow(records[n - 1], zip, now));
    }
  }

  /** Whatever commits in between, the saved table keeps its unique columns. */
  lemma LateSaveKeepsUnique(s0: Store, s1: Store, records: seq<Record>, zip: string, now: int, cap: int)
    requires Interference(s0, s1, records)
    ensures ValidStore(LateSave(s0, s1, records, zip, now, cap))
  {
    var u := Overlaid(s0.hotels, s1.hotels, records, now);
    assert forall id :: id in u ==> id < s1.nextId;
    if UniqueTable(u) {
      InsertAllKeeps(s0.hotels, Store(u, s1.nextId), records, |records|, zip, now);
    }
    hide InsertAll, UniqueTable, Overlaid;
  }

  /** The rows after the first `n` inserts are those of the overlay and new rows of earlier records. */
  lemma {:induction false} InsertedRows(t: Table, s: Store, records: seq<Record>, n: nat, zip: string, now: int, id: nat)
    requires n <= |records| && id in InsertAll(t, s, records, n, zip, now).hotels
    ensures (id in s.hotels && InsertAll(t, s, records, n, zip, now).hotels[id] == s.hotels[id]) ||
            exists j :: 0 <= j < n && Target(t, records[j]).None? && InsertAll(t, s, records, n, zip, now).hotels[id] == NewRow(records[j], zip, now)
  {
    hide NewRow, Target, Conflict;
    if n > 0 {
      var before := InsertAll(t, s, records, n - 1, zip, now);
      if id in before.hotels && InsertAll(t, s, records, n, zip, now).hotels[id] == before.hotels[id] {
        InsertedRows(t, s, records, n - 1, zip, now, id);
      }
    }
  }

  /** Exactly the records whose key or place id was taken in between are skipped. */
  lemma SkippedIff(s0: Store, s1: Store, records: seq<Record>, n: nat, zip: string, now: int)
    requires Interference(s0, s1, records) && Unambiguous(s0.hotels, records) && DistinctKeys(records) && DistinctPlaces(records)
    requires n < |records| && Target(s0.hotels, records[n]).None?
    requires UniqueTable(Overlaid(s0.hotels, s1.hotels, records, now))
    ensures var u := Store(Overlaid(s0.hotels, s1.hotels, records, now), s1.nextId);
            Conflict(InsertAll(s0.hotels, u, records, n, zip, now).hotels, NewRow(records[n], zip, now)) <==>
            Conflict(s1.hotels, NewRow(records[n], zip, now))
  {
    var u := Store(Overlaid(s0.hotels, s1.hotels, records, now), s1.nextId);
    var s := InsertAll(s0.hotels, u, records, n, zip, now);
    var h := NewRow(records[n], zip, now);
    InsertAllKeeps(s0.hotels, u, records, n, zip, now);
    forall id ensures Clashes(s.hotels, id, h) <==> Clashes(s1.hotels, id, h) {
      ClashSame(s0, s1, records, n, zip, now, id);
    }
    ConflictIsClash(s.hotels, h);
    ConflictIsClash(s1.hotels, h);
  }

  ghost predicate Clashes(t: Table, id: nat, h: Hotel) {
    id in t && (t[id].key == h.key || (h.place.Some? && t[id].place == h.place))
  }

  lemma ConflictIsClash(t: Table, h: Hotel)
    ensures Conflict(t, h) <==> exists id :: Clashes(t, id, h)
  {
    if Conflict(t, h) {
      var id :| id in t && (t[id].key == h.key || (h.place.Some? && t[id].place == h.place));
      assert Clashes(t, id, h);
    }
  }

  lemma ClashSame(s0: Store, s1: Store, records: seq<Record>, n: nat, zip: string, now: int, id: nat)
    requires Interference(s0, s1, records) && Unambiguous(s0.hotels, records) && DistinctKeys(records) && DistinctPlaces(records)
    requires n < |records| && Target(s0.hotels, records[n]).None?
    requires ValidStore(Store(Overlaid(s0.hotels, s1.hotels, records, now), s1.nextId))
    ensures var u := Store(Overlaid(s0.hotels, s1.hotels, records, now), s1.nextId);
            Clashes(InsertAll(s0.hotels, u, records, n, zip, now).hotels, id, NewRow(records[n], zip, now)) <==>
            Clashes(s1.hotels, id, NewRow(records[n], zip, now))
  {
    var u := Store(Overlaid(s0.hotels, s1.hotels, records, now), s1.nextId);
    var s := InsertAll(s0.hotels, u, records, n, zip, now);
    var h := NewRow(records[n], zip, now);
    InsertAllKeeps(s0.hotels, u, records, n, zip, now);
    hide InsertAll;
    if id in s1.hotels {
      if Locked(s0.hotels, records, id) {
        OldRowsDiffer(s0.hotels, records, now, n, id);
        assert records[n] in records;
        TargetMatches(s0.hotels, records[n], id);
      }
    } else if id in s.hotels {
      InsertedRows(s0.hotels, u, records, n, zip, now, id);
    }
  }

  /** What was taken in between was not there at the look-up: it is a new row, or a row that got its place id since. */
  lemma TakenSince(s0: Store, s1: Store, records: seq<Record>, n: nat, zip: string, now: int, id: nat)
    requires Interference(s0, s1, records) && Unambiguous(s0.hotels, records)
    requires n < |records| && Target(s0.hotels, records[n]).None? && Clashes(s1.hotels, id, NewRow(records[n], zip, now))
    ensures id !in s0.hotels || (s0.hotels[id].place.None? && s1.hotels[id].place == records[n].place && records[n].place.Some?)
  {
    assert records[n] in records;
    TargetMatches(s0.hotels, records[n], id);
  }

  lemma {:induction false} UntouchedRow(t: Table, records: seq<Record>, n: nat, now: int, id: nat)
    requires n <= |records| && id in t && !Locked(t, records, id)
    ensures TouchAll(t, records, n, now)[id] == t[id]
  {
    hide Touch, Target;
    if n > 0 {
      UntouchedRow(t, records, n - 1, now, id);
    }
  }

  /** When nobody commits in between, this is the save in one step. */
  lemma LateSaveIsCommit(s: Store, records: seq<Record>, zip: string, now: int, cap: int)
    requires ValidStore(s) && Accepted(s.hotels, records, cap) && DistinctKeys(records) && DistinctPlaces(records)
    ensures LateSave(s, s, records, zip, now, cap) == Committed(s, records, zip, now)
  {
    AcceptedUnambiguous(s.hotels, records, cap);
    TouchedTableUnique(s.hotels, records, now);
    forall id | id in s.hotels && !Locked(s.hotels, records, id)
      ensures TouchAll(s.hotels, records, |records|, now)[id] == s.hotels[id]
    {
      UntouchedRow(s.hotels, records, |records|, now, id);
    }
    hide Locked, UniqueTable, InsertAll, Accepted;
    assert Overlaid(s.hotels, s.hotels, records, now) == TouchAll(s.hotels, records, |records|, now);
  }

  // ---- many saves at once ------------------------------------------------------------------------------

  /** A save between its look-up and its inserts: the table it looked up, and its collapsed records. */
  datatype Pending = Pending(base: Store, records: seq<Record>, zip: string)

  datatype Shared = Shared(store: Store, open: map<nat, Pending>)

  datatype Step =
    | LookUp(t: nat, records: seq<Record>, zip: string)
    | Finish(t: nat, now: int)
    | Abort(t: nat)
    | Other(w: Write)

  ghost predicate Holds(p: Pending, id: nat) {
    Locked(p.base.hotels, p.records, id)
  }

  /** Nobody writes a row that a save in flight has locked, and no other look-up locks it. */
  ghost predicate Enabled(s: Shared, step: Step, cap: int) {
    match step
    case LookUp(t, records, zip) =>
      && t !in s.open && DistinctKeys(records) && DistinctPlaces(records)
      && forall u, id :: u in s.open && Holds(s.open[u], id) ==> !Locked(s.store.hotels, records, id)
    case Finish(t, now) => t in s.open
    case Abort(t) => t in s.open
    case Other(w) => forall u, id :: u in s.open && Holds(s.open[u], id) ==> Untouched(s.store, AfterWrite(s.store, w), id)
  }

  ghost predicate Untouched(s: Store, s': Store, id: nat) {
    id in s.hotels ==> id in s'.hotels && s'.hotels[id] == s.hotels[id]
  }

  ghost function Apply(s: Shared, step: Step, cap: int): Shared
    requires Enabled(s, step, cap)
  {
    match step
    case LookUp(t, records, zip) => s.(open := s.open[t := Pending(s.store, records, zip)])
    case Finish(t, now) => Shared(Finished(s.store, s.open[t], now, cap), s.open - {t})
    case Abort(t) => s.(open := s.open - {t})
    case Other(w) => s.(store := AfterWrite(s.store, w))
  }

  ghost function Finished(s: Store, p: Pending, now: int, cap: int): Store {
    LateSave(p.base, s, p.records, p.zip, now, cap)
  }

  /** Each save in flight has seen only allowed changes since its look-up, and no two hold one row. */
  ghost predicate Sound(s: Shared) {
    && ValidStore(s.store)
    && (forall t :: t in s.open ==> InFlight(s.store, s.open[t]))
    && (forall t, u, id :: t in s.open && u in s.open && Holds(s.open[t], id) && Holds(s.open[u], id) ==> t == u)
  }

  ghost predicate InFlight(s: Store, p: Pending) {
    Interference(p.base, s, p.records) && DistinctKeys(p.records) && DistinctPlaces(p.records)
  }

  /** A save in flight allows every change that keeps identities and its locked rows. */
  lemma StaysInFlight(s: Store, s': Store, p: Pending)
    requires InFlight(s, p) && ValidStore(s') && IdentitiesKept(s.hotels, s'.hotels)
    requires forall id :: Holds(p, id) ==> Untouched(s, s', id)
    ensures InFlight(s', p)
  {
    hide ValidStore, DistinctKeys, DistinctPlaces;
    forall id | Locked(p.base.hotels, p.records, id) ensures s'.hotels[id] == p.base.hotels[id] {
      assert Holds(p, id);
    }
    hide Locked;
  }

  /** A save that finishes keeps every identity, and every row that it had not locked. */
  lemma FinishKeeps(s: Store, p: Pending, now: int, cap: int)
    requires ValidStore(s) && InFlight(s, p)
    ensures ValidStore(Finished(s, p, now, cap)) && IdentitiesKept(s.hotels, Finished(s, p, now, cap).hotels)
    ensures forall id :: !Holds(p, id) ==> Untouched(s, Finished(s, p, now, cap), id)
  {
    LateSaveKeepsUnique(p.base, s, p.records, p.zip, now, cap);
    var u := Overlaid(p.base.hotels, s.hotels, p.records, now);
    OverlayKeeps(s, p, now);
    if Accepted(p.base.hotels, p.records, cap) && UniqueTable(u) {
      InsertAllKeeps(p.base.hotels, Store(u, s.nextId), p.records, |p.records|, p.zip, now);
    }
    hide Overlaid, InsertAll, UniqueTable, Accepted, Locked;
  }

  lemma OverlayKeeps(s: Store, p: Pending, now: int)
    requires InFlight(s, p)
    ensures var u := Overlaid(p.base.hotels, s.hotels, p.records, now);
            && IdentitiesKept(s.hotels, u)
            && (forall id :: id in s.hotels && !Holds(p, id) ==> u[id] == s.hotels[id])
            && (forall id :: id in u ==> id < s.nextId)
  {
    forall id | Locked(p.base.hotels, p.records, id)
      ensures var h := TouchAll(p.base.hotels, p.records, |p.records|, now)[id];
              h.key == s.hotels[id].key && (s.hotels[id].place.Some? ==> h.place == s.hotels[id].place)
    {
      TouchAllShape(p.base.hotels, p.records, |p.records|, now, id);
    }
    hide TouchAll, UniqueTable;
  }

  /** Whatever the order of look-ups, inserts, roll-backs and other writers, no step breaks the table or a save in flight. */
  lemma StepKeepsSound(s: Shared, step: Step, cap: int)
    requires Sound(s) && Enabled(s, step, cap)
    ensures Sound(Apply(s, step, cap)) && IdentitiesKept(s.store.hotels, Apply(s, step, cap).store.hotels)
  {
    hide ValidStore, InFlight, Holds, IdentitiesKept, AfterWrite, Finished, Untouched, Locked, DistinctKeys, DistinctPlaces;
    KeepsItself(s.store);
    match step
    case LookUp(t, records, zip) => LookUpSound(s.store, records, zip);
    case Finish(t, now) =>
      FinishKeeps(s.store, s.open[t], now, cap);
      forall u | u in s.open && u != t ensures InFlight(Finished(s.store, s.open[t], now, cap), s.open[u]) {
        StaysInFlight(s.store, Finished(s.store, s.open[t], now, cap), s.open[u]);
      }
    case Abort(t) =>
    case Other(w) =>
      WriteKeeps(s.store, w);
      forall u | u in s.open ensures InFlight(AfterWrite(s.store, w), s.open[u]) {
        StaysInFlight(s.store, AfterWrite(s.store, w), s.open[u]);
      }
  }

  lemma LookUpSound(s: Store, records: seq<Record>, zip: string)
    requires ValidStore(s) && DistinctKeys(records) && DistinctPlaces(records)
    ensures InFlight(s, Pending(s, records, zip))
    ensures forall id :: Holds(Pending(s, records, zip), id) <==> Locked(s.hotels, records, id)
  {
    KeepsItself(s);
    hide ValidStore, DistinctKeys, DistinctPlaces, Locked;
  }

  ghost predicate Run(states: seq<Shared>, steps: seq<Step>, cap: int) {
    && |states| == |steps| + 1 && ValidStore(states[0].store) && states[0].open == map[]
    && forall i :: 0 <= i < |steps| ==> Enabled(states[i], steps[i], cap) && states[i + 1] == Apply(states[i], steps[i], cap)
  }

  /** However many saves overlap, dedup keys and place ids stay unique. */
  lemma {:induction false} OverlappingSavesKeepUnique(states: seq<Shared>, steps: seq<Step>, cap: int, i: nat)
    requires Run(states, steps, cap) && i < |states|
    ensures Sound(states[i]) && UniqueTable(states[i].store.hotels)
  {
    hide Enabled, Apply, Holds, InFlight, UniqueTable;
    if i > 0 {
      OverlappingSavesKeepUnique(states, steps, cap, i - 1);
      StepKeepsSound(states[i - 1], steps[i - 1], cap);
      hide Sound;
      SoundIsUnique(states[i]);
    }
  }

  lemma SoundIsUnique(s: Shared)
    requires Sound(s)
    ensures UniqueTable(s.store.hotels)
  {}

  /** In every reachable state, a save that finishes skips exactly the unseen records whose key or place id was taken
      since its look-up. */
  lemma FinishSkipsIff(s: Shared, t: nat, now: int, cap: int, n: nat)
    requires Sound(s) && t in s.open
    requires var p := s.open[t];
             && Accepted(p.base.hotels, p.records, cap) && n < |p.records| && Target(p.base.hotels, p.records[n]).None?
             && UniqueTable(Overlaid(p.base.hotels, s.store.hotels, p.records, now))
    ensures var p := s.open[t];
            var u := Store(Overlaid(p.base.hotels, s.store.hotels, p.records, now), s.store.nextId);
            var h := NewRow(p.records[n], p.zip, now);
            && (Conflict(InsertAll(p.base.hotels, u, p.records, n, p.zip, now).hotels, h) <==> Conflict(s.store.hotels, h))
            && !Conflict(p.base.hotels, h)
  {
    hide *;
    var p := s.open[t];
    OpenIsInFlight(s, t);
    AcceptedUnambiguous(p.base.hotels, p.records, cap);
    SkippedIff(p.base, s.store, p.records, n, p.zip, now);
    UnseenIsFree(p.base, p.records, n, p.zip, now);
  }

  lemma OpenIsInFlight(s: Shared, t: nat)
    requires Sound(s) && t in s.open
    ensures ValidStore(s.store) && InFlight(s.store, s.open[t])
    ensures var p := s.open[t]; Interference(p.base, s.store, p.records) && DistinctKeys(p.records) && DistinctPlaces(p.records)
  {
    hide ValidStore, Interference, DistinctKeys, DistinctPlaces, Holds;
  }

  lemma UnseenIsFree(s: Store, records: seq<Record>, n: nat, zip: string, now: int)
    requires Unambiguous(s.hotels, records) && n < |records| && Target(s.hotels, records[n]).None?
    ensures !Conflict(s.hotels, NewRow(records[n], zip, now))
  {
    assert records[n] in records;
    forall id | id in s.hotels
      ensures s.hotels[id].key != records[n].key && (records[n].place.Some? ==> s.hotels[id].place != records[n].place)
    {
      TargetMatches(s.hotels, records[n], id);
    }
    hide Target;
  }

  /** Each of the first `n` records that were unseen has its key or place id in the table after the inserts. */
  lemma {:induction false} InsertedOrThere(t: Table, s: Store, records: seq<Record>, n: nat, zip: string, now: int, i: nat)
    requires i < n <= |records| && ValidStore(s) && Target(t, records[i]).None?
    ensures exists id :: Clashes(InsertAll(t, s, records, n, zip, now).hotels, id, NewRow(records[i], zip, now))
  {
    hide ValidStore, NewRow, Target, Clashes, InsertRow;
    var before := InsertAll(t, s, records, n - 1, zip, now);
    InsertAllKeeps(t, s, records, n - 1, zip, now);
    InsertRowKeeps(before, NewRow(records[n - 1], zip, now));
    assert InsertAll(t, s, records, n, zip, now) ==
           if Target(t, records[n - 1]).None? then InsertRow(before, NewRow(records[n - 1], zip, now)) else before;
    if i == n - 1 {
      RowIsThere(before, NewRow(records[i], zip, now));
    } else {
      InsertedOrThere(t, s, records, n - 1, zip, now, i);
      var id :| Clashes(before.hotels, id, NewRow(records[i], zip, now));
      ClashStays(before.hotels, InsertAll(t, s, records, n, zip, now).hotels, id, NewRow(records[i], zip, now));
    }
  }

  lemma RowIsThere(s: Store, h: Hotel)
    ensures exists id :: Clashes(InsertRow(s, h).hotels, id, h)
  {
    if Conflict(s.hotels, h) {
      ConflictIsClash(s.hotels, h);
    } else {
      assert Clashes(InsertRow(s, h).hotels, s.nextId, h);
    }
  }

  lemma ClashStays(t: Table, t': Table, id: nat, h: Hotel)
    requires Clashes(t, id, h) && forall j :: j in t ==> j in t' && t'[j] == t[j]
    ensures Clashes(t', id, h)
  {}

  /** Skipping loses nothing: after a save that was not rolled back, every record finds a row that shares its key or
      place id, unless it was known by CID alone. */
  lemma FinishLosesNothing(s: Store, p: Pending, now: int, cap: int, i: nat) returns (id: nat)
    requires ValidStore(s) && InFlight(s, p) && i < |p.records| && !KnownByCidAlone(p.base.hotels, p.records[i])
    requires Accepted(p.base.hotels, p.records, cap) && UniqueTable(Overlaid(p.base.hotels, s.hotels, p.records, now))
    ensures Anchored(Finished(s, p, now, cap).hotels, p.records[i], id)
  {
    hide UniqueTable, Accepted, InsertAll, Overlaid, Target, Interference, IdentitiesKept, DistinctKeys, DistinctPlaces, Anchored;
    match Target(p.base.hotels, p.records[i])
    case Some(row) =>
      id := row;
      FinishKeeps(s, p, now, cap);
      SinceLookUp(s, p);
      AnchorHolds(p.base.hotels, s.hotels, p.records[i], id);
      AnchorHolds(s.hotels, Finished(s, p, now, cap).hotels, p.records[i], id);
    case None =>
      var u := Store(Overlaid(p.base.hotels, s.hotels, p.records, now), s.nextId);
      OverlayKeeps(s, p, now);
      InsertedOrThere(p.base.hotels, u, p.records, |p.records|, p.zip, now, i);
      id :| Clashes(InsertAll(p.base.hotels, u, p.records, |p.records|, p.zip, now).hotels, id, NewRow(p.records[i], p.zip, now));
      ClashAnchors(InsertAll(p.base.hotels, u, p.records, |p.records|, p.zip, now).hotels, id, p.records[i], p.zip, now);
  }

  lemma SinceLookUp(s: Store, p: Pending)
    requires InFlight(s, p)
    ensures IdentitiesKept(p.base.hotels, s.hotels)
  {
    hide IdentitiesKept, DistinctKeys, DistinctPlaces, Locked;
  }

  lemma ClashAnchors(t: Table, id: nat, r: Record, zip: string, now: int)
    requires Clashes(t, id, NewRow(r, zip, now))
    ensures Anchored(t, r, id)
  {}

  /** A save with nobody beside it is the save in one step, or changes nothing when it is refused. */
  lemma SaveAlone(s: Store, t: nat, records: seq<Record>, zip: string, now: int, cap: int)
    requires ValidStore(s) && DistinctKeys(records) && DistinctPlaces(records)
    ensures var start := Shared(s, map[]);
            && Enabled(start, LookUp(t, records, zip), cap)
            && var looked := Apply(start, LookUp(t, records, zip), cap);
               && Enabled(looked, Finish(t, now), cap)
               && Apply(looked, Finish(t, now), cap) ==
                  Shared(if Accepted(s.hotels, records, cap) then Committed(s, records, zip, now) else s, map[])
  {
    if Accepted(s.hotels, records, cap) {
      LateSaveIsCommit(s, records, zip, now, cap);
    }
    hide Accepted, Committed, LateSave, Locked;
    var open := map[t := Pending(s, records, zip)];
    assert open - {t} == map[];
    assert Finished(s, open[t], now, cap) == LateSave(s, s, records, zip, now, cap);
    if !Accepted(s.hotels, records, cap) {
      RefusedLate(s, records, zip, now, cap);
    }
  }

  lemma RefusedLate(s: Store, records: seq<Record>, zip: string, now: int, cap: int)
    requires !Accepted(s.hotels, records, cap)
    ensures LateSave(s, s, records, zip, now, cap) == s
  {
    hide UniqueTable, Overlaid, InsertAll, Accepted;
  }

  /** A roll-back leaves the table alone and frees the rows; other writers leave the saves in flight alone. */
  lemma OtherSteps(s: Shared, t: nat, w: Write, cap: int)
    ensures Enabled(s, Abort(t), cap) <==> t in s.open
    ensures t in s.open ==> Apply(s, Abort(t), cap) == Shared(s.store, s.open - {t})
    ensures Enabled(s, Other(w), cap) ==> Apply(s, Other(w), cap) == Shared(AfterWrite(s.store, w), s.open)
    ensures s.open == map[] ==> Enabled(s, Other(w), cap)
  {
    hide AfterWrite;
  }
}
