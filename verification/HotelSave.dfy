/** Saving a collapsed batch into the hotel table: resolve, preflight, touch and insert in one transaction. */
module HotelSave {
  import opened Collapse
  import opened Options

  datatype Hotel = Hotel(key: string, place: Option<string>, cid: Option<string>, sources: set<string>,
                         fields: map<Field, string>, raw: map<string, string>, queryZip: string, lastSeen: int)

  type Table = map<nat, Hotel>

  datatype Store = Store(hotels: Table, nextId: nat)

  datatype Outcome = Quarantined | Saved(touched: nat, inserted: nat)

  // ---- one record against one row ----------------------------------------------

  /** A row and a record name the same hotel by key, by place id or by CID. */
  predicate Same(h: Hotel, r: Record) {
    h.key == r.key || (r.place.Some? && h.place == r.place) || (r.cid.Some? && h.cid == r.cid)
  }

  function Matches(t: Table, r: Record): set<nat> {
    set id | id in t && Same(t[id], r)
  }

  const REFRESHED: set<Field> := {Rating, RatingsTotal, PriceLevel, BusinessStatus}
  const FILLED: set<Field> := {Address, Zip, State, OsmId, Phone, Website, MapsUri}

  /** An older observation leaves a newer row alone; otherwise live figures are refreshed, blanks filled and
      the row stamped with the commit time. */
  function Touch(h: Hotel, r: Record, now: int): Hotel {
    if h.lastSeen > r.scrapedAt then h
    else
      var refreshed := if "places" in r.sources then h.fields + Restrict(r.fields, REFRESHED) else h.fields;
      h.(
        sources := h.sources + r.sources,
        fields := Restrict(r.fields, FILLED) + refreshed,
        place := OrElse(h.place, r.place),
        cid := OrElse(r.cid, h.cid),
        raw := h.raw + r.raw,
        lastSeen := now)
  }

  /** No known value is lost, only live figures from Maps replace one, and every value comes from the row or the record. */
  lemma TouchKeepsKnown(h: Hotel, r: Record, now: int, f: Field)
    ensures var g := Touch(h, r, now);
            && (f in h.fields ==> f in g.fields)
            && (f in h.fields && g.fields[f] != h.fields[f] ==>
                  f in REFRESHED && "places" in r.sources && f in r.fields && g.fields[f] == r.fields[f] && h.lastSeen <= r.scrapedAt)
            && (f in g.fields && f !in h.fields ==> f in r.fields && g.fields[f] == r.fields[f] && f in REFRESHED + FILLED)
            && (h.place.Some? ==> g.place == h.place)
            && g.lastSeen in {h.lastSeen, now}
  {}

  lemma UnionTwice<K, V>(a: map<K, V>, h: map<K, V>, b: map<K, V>)
    ensures var once := a + (h + b); once + b == once && a + once == once
  {}

  /** Touching a row again with the same record changes nothing. */
  lemma TouchTwice(h: Hotel, r: Record, now: int)
    ensures Touch(Touch(h, r, now), r, now) == Touch(h, r, now)
  {
    UnionTwice(Restrict(r.fields, FILLED), h.fields, Restrict(r.fields, REFRESHED));
    UnionTwice(Restrict(r.fields, FILLED), h.fields, map[]);
    assert h.fields + map[] == h.fields;
    UnionTwice(map[], h.raw, r.raw);
    assert map[] + (h.raw + r.raw) == h.raw + r.raw;
    hide Restrict, REFRESHED, FILLED;
  }

  function NewRow(r: Record, zip: string, now: int): Hotel {
    Hotel(r.key, r.place, r.cid, r.sources, map[PrimaryType := "hotel", Types := "hotel,lodging"] + r.fields, r.raw, zip, now)
  }

  // ---- the transaction as a function ---------------------------------------------

  ghost predicate Unambiguous(t: Table, records: seq<Record>) {
    forall r :: r in records ==> |Matches(t, r)| <= 1
  }

  /** The row a record resolves to, if any. */
  ghost function Target(t: Table, r: Record): Option<nat> {
    if Matches(t, r) == {} then None else var id :| id in Matches(t, r); Some(id)
  }

  ghost function TouchAll(t: Table, records: seq<Record>, n: nat, now: int): (u: Table)
    requires n <= |records|
    ensures u.Keys == t.Keys
  {
    if n == 0 then t
    else
      var u := TouchAll(t, records, n - 1, now);
      match Target(t, records[n - 1])
      case None => u
      case Some(id) => u[id := Touch(u[id], records[n - 1], now)]
  }

  /** A unique index rejects the row. */
  predicate Conflict(t: Table, h: Hotel) {
    exists id :: id in t && (t[id].key == h.key || (h.place.Some? && t[id].place == h.place))
  }

  /** Insert, skipping silently on a conflict. */
  function InsertRow(s: Store, h: Hotel): Store {
    if Conflict(s.hotels, h) then s else Store(s.hotels[s.nextId := h], s.nextId + 1)
  }

  ghost function InsertAll(t: Table, s: Store, records: seq<Record>, n: nat, zip: string, now: int): Store
    requires n <= |records|
  {
    if n == 0 then s
    else
      var u := InsertAll(t, s, records, n - 1, zip, now);
      if Target(t, records[n - 1]).None? then InsertRow(u, NewRow(records[n - 1], zip, now)) else u
  }

  /** How many of the first `n` records resolve to no row. */
  ghost function NewCount(t: Table, records: seq<Record>, n: nat): nat
    requires n <= |records|
  {
    if n == 0 then 0 else NewCount(t, records, n - 1) + (if Target(t, records[n - 1]).None? then 1 else 0)
  }

  ghost predicate Accepted(t: Table, records: seq<Record>, cap: int) {
    Unambiguous(t, records) && (cap > 0 ==> NewCount(t, records, |records|) <= cap)
  }

  ghost function Committed(s: Store, records: seq<Record>, zip: string, now: int): Store {
    var u := TouchAll(s.hotels, records, |records|, now);
    InsertAll(s.hotels, Store(u, s.nextId), records, |records|, zip, now)
  }

  // ---- uniqueness ------------------------------------------------------------------

  ghost predicate UniqueTable(t: Table) {
    forall i, j :: i in t && j in t && i != j ==> t[i].key != t[j].key && (t[i].place.Some? ==> t[i].place != t[j].place)
  }

  ghost predicate ValidStore(s: Store) {
    UniqueTable(s.hotels) && forall id :: id in s.hotels ==> id < s.nextId
  }

  lemma TargetMatches(t: Table, r: Record, id: nat)
    requires |Matches(t, r)| <= 1
    ensures Target(t, r) == Some(id) <==> id in t && Same(t[id], r)
    ensures Target(t, r).None? <==> Matches(t, r) == {}
  {
    hide Same;
    assert id in Matches(t, r) <==> id in t && Same(t[id], r);
    var m := Matches(t, r);
    if m != {} {
      var x :| x in m;
      OnlyMember(m, x);
      assert id in m <==> id == x;
      assert Target(t, r) == Some(x);
    }
  }

  lemma TwoMembers(s: set<nat>, a: nat, b: nat)
    requires a in s && b in s && a != b
    ensures |s| >= 2
  {
    var one := s - {a};
    assert |one| == |s| - 1;
    assert |one - {b}| == |one| - 1;
  }

  lemma OnlyMember(s: set<nat>, a: nat)
    requires a in s && |s| <= 1
    ensures s == {a}
  {
    forall x | x in s ensures x == a {
      if x != a {
        TwoMembers(s, x, a);
      }
    }
  }

  /** Touching keeps keys; a place id appears only where there was none, and comes from a record resolved to that row. */
  lemma {:induction false} TouchAllShape(t: Table, records: seq<Record>, n: nat, now: int, id: nat)
    requires n <= |records| && id in t
    ensures var u := TouchAll(t, records, n, now);
            && u[id].key == t[id].key
            && (u[id].place == t[id].place
                || (t[id].place.None? && exists i :: 0 <= i < n && Target(t, records[i]) == Some(id) && records[i].place == u[id].place))
  {
    hide Target, Same;
    if n > 0 {
      TouchAllShape(t, records, n - 1, now, id);
      TouchShape(TouchAll(t, records, n - 1, now)[id], records[n - 1], now);
      hide Touch;
    }
  }

  lemma TouchShape(h: Hotel, r: Record, now: int)
    ensures var g := Touch(h, r, now);
            && g.key == h.key && (g.place == h.place || (h.place.None? && g.place == r.place))
            && (g.cid == h.cid || g.cid == r.cid)
  {}

  /** No row has the place id of a record that resolves elsewhere. */
  lemma PlaceStaysWithTarget(t: Table, records: seq<Record>, now: int, i: nat, id: nat)
    requires Unambiguous(t, records) && DistinctPlaces(records)
    requires i < |records| && records[i].place.Some? && id in t && Target(t, records[i]) != Some(id)
    ensures TouchAll(t, records, |records|, now)[id].place != records[i].place
  {
    var u := TouchAll(t, records, |records|, now);
    TouchAllShape(t, records, |records|, now, id);
    assert records[i] in records;
    TargetMatches(t, records[i], id);
    if u[id].place == records[i].place {
      assert false;
    }
  }

  lemma TouchedTableUnique(t: Table, records: seq<Record>, now: int)
    requires UniqueTable(t) && Unambiguous(t, records) && DistinctPlaces(records)
    ensures UniqueTable(TouchAll(t, records, |records|, now))
  {
    hide Unambiguous, DistinctPlaces;
    var u := TouchAll(t, records, |records|, now);
    forall i, j | i in u && j in u && i != j
      ensures u[i].key != u[j].key && (u[i].place.Some? ==> u[i].place != u[j].place)
    {
      TouchAllShape(t, records, |records|, now, i);
      TouchAllShape(t, records, |records|, now, j);
      if u[i].place.Some? && u[i].place != t[i].place {
        var k :| 0 <= k < |records| && Target(t, records[k]) == Some(i) && records[k].place == u[i].place;
        PlaceStaysWithTarget(t, records, now, k, j);
      } else if u[i].place.Some? && u[j].place != t[j].place {
        var k :| 0 <= k < |records| && Target(t, records[k]) == Some(j) && records[k].place == u[j].place;
        if u[i].place == u[j].place {
          PlaceStaysWithTarget(t, records, now, k, i);
        }
      }
    }
  }

  /** What the store holds after the inserts for the first `n` records, when none of them is skipped. */
  ghost predicate InsertedUpTo(t: Table, u: Table, next: nat, records: seq<Record>, n: nat, zip: string, now: int, s: Store)
    requires n <= |records|
  {
    && s.nextId == next + NewCount(t, records, n)
    && (forall id :: id in u ==> id in s.hotels && s.hotels[id] == u[id])
    && (forall i :: 0 <= i < n && Target(t, records[i]).None? ==>
          NewId(t, next, records, i) in s.hotels && s.hotels[NewId(t, next, records, i)] == NewRow(records[i], zip, now))
    && (forall id :: id in s.hotels && id !in u ==>
          (exists i :: 0 <= i < n && Target(t, records[i]).None? && id == NewId(t, next, records, i)))
    && (forall id :: id in s.hotels ==> id < s.nextId)
  }

  ghost function NewId(t: Table, next: nat, records: seq<Record>, i: nat): nat
    requires i <= |records|
  {
    next + NewCount(t, records, i)
  }

  lemma {:induction false} NewCountGrows(t: Table, records: seq<Record>, i: nat, j: nat)
    requires i <= j <= |records|
    ensures NewCount(t, records, i) <= NewCount(t, records, j)
    ensures i < j && Target(t, records[i]).None? ==> NewCount(t, records, i) < NewCount(t, records, j)
  {
    if i < j {
      NewCountGrows(t, records, i, j - 1);
    }
  }

  /** A record that resolves to nothing conflicts with no row, touched or new: the insert is never skipped. */
  lemma NeverConflicts(t: Table, records: seq<Record>, n: nat, zip: string, now: int, next: nat, s: Store)
    requires Unambiguous(t, records) && DistinctKeys(records) && DistinctPlaces(records)
    requires n < |records| && Target(t, records[n]).None?
    requires InsertedUpTo(t, TouchAll(t, records, |records|, now), next, records, n, zip, now, s)
    ensures !Conflict(s.hotels, NewRow(records[n], zip, now))
  {
    var u := TouchAll(t, records, |records|, now);
    var h := NewRow(records[n], zip, now);
    forall id | id in s.hotels ensures s.hotels[id].key != h.key && !(h.place.Some? && s.hotels[id].place == h.place) {
      if id in u {
        OldRowsDiffer(t, records, now, n, id);
      } else {
        var i :| 0 <= i < n && Target(t, records[i]).None? && id == NewId(t, next, records, i);
        assert s.hotels[id] == NewRow(records[i], zip, now);
      }
    }
  }

  lemma OldRowsDiffer(t: Table, records: seq<Record>, now: int, n: nat, id: nat)
    requires Unambiguous(t, records) && DistinctPlaces(records) && id in t
    requires n < |records| && Target(t, records[n]) != Some(id)
    ensures var u := TouchAll(t, records, |records|, now);
            u[id].key != records[n].key && (records[n].place.Some? ==> u[id].place != records[n].place)
  {
    assert records[n] in records;
    TargetMatches(t, records[n], id);
    TouchAllShape(t, records, |records|, now, id);
    if records[n].place.Some? {
      PlaceStaysWithTarget(t, records, now, n, id);
    }
  }

  lemma {:induction false} InsertAllShape(s: Store, records: seq<Record>, n: nat, zip: string, now: int)
    requires n <= |records| && ValidStore(s)
    requires Unambiguous(s.hotels, records) && DistinctKeys(records) && DistinctPlaces(records)
    ensures var u := TouchAll(s.hotels, records, |records|, now);
            InsertedUpTo(s.hotels, u, s.nextId, records, n, zip, now, InsertAll(s.hotels, Store(u, s.nextId), records, n, zip, now))
  {
    hide Unambiguous, DistinctKeys, DistinctPlaces, Conflict, Target, UniqueTable, NewRow;
    var t := s.hotels;
    var u := TouchAll(t, records, |records|, now);
    if n > 0 {
      InsertAllShape(s, records, n - 1, zip, now);
      var before := InsertAll(t, Store(u, s.nextId), records, n - 1, zip, now);
      if Target(t, records[n - 1]).None? {
        NeverConflicts(t, records, n - 1, zip, now, s.nextId, before);
        InsertStep(t, u, s.nextId, records, n, zip, now, before);
      }
    }
  }

  lemma InsertStep(t: Table, u: Table, next: nat, records: seq<Record>, n: nat, zip: string, now: int, s: Store)
    requires 0 < n <= |records| && Target(t, records[n - 1]).None?
    requires (forall id :: id in u ==> id < next) && InsertedUpTo(t, u, next, records, n - 1, zip, now, s)
    ensures InsertedUpTo(t, u, next, records, n, zip, now,
                         Store(s.hotels[s.nextId := NewRow(records[n - 1], zip, now)], s.nextId + 1))
  {
    hide Target, NewRow;
    var r := Store(s.hotels[s.nextId := NewRow(records[n - 1], zip, now)], s.nextId + 1);
    forall i | 0 <= i < n && Target(t, records[i]).None?
      ensures NewId(t, next, records, i) in r.hotels && r.hotels[NewId(t, next, records, i)] == NewRow(records[i], zip, now)
    {
      NewCountGrows(t, records, i, n - 1);
    }
  }

  /** No batch breaks the unique indexes, and every record that resolved to nothing is really inserted. */
  lemma SaveKeepsUnique(s: Store, records: seq<Record>, zip: string, now: int)
    requires ValidStore(s) && Unambiguous(s.hotels, records) && DistinctKeys(records) && DistinctPlaces(records)
    ensures ValidStore(Committed(s, records, zip, now))
    ensures InsertedUpTo(s.hotels, TouchAll(s.hotels, records, |records|, now), s.nextId, records, |records|, zip, now,
                         Committed(s, records, zip, now))
  {
    hide Target, NewRow, Unambiguous, DistinctKeys, DistinctPlaces, UniqueTable;
    var t := s.hotels;
    var u := TouchAll(t, records, |records|, now);
    var r := Committed(s, records, zip, now);
    InsertAllShape(s, records, |records|, zip, now);
    TouchedTableUnique(t, records, now);
    forall i, j | i in r.hotels && j in r.hotels && i != j
      ensures r.hotels[i].key != r.hotels[j].key && (r.hotels[i].place.Some? ==> r.hotels[i].place != r.hotels[j].place)
    {
      RowsDiffer(s, records, zip, now, i, j);
    }
    assert UniqueTable(r.hotels) by {
      AllDiffer(r.hotels);
    }
  }

  /** One result transaction of some worker: a scraped batch for a ZIP, at a time, under the new-row cap. */
  datatype Transaction = Transaction(scraped: seq<Record>, zip: string, now: int, cap: int)

  /** A refused batch writes nothing. */
  ghost function AfterTransaction(s: Store, x: Transaction): Store {
    if Accepted(s.hotels, Collapsed(x.scraped), x.cap) then Committed(s, Collapsed(x.scraped), x.zip, x.now) else s
  }

  ghost function AfterTransactions(s: Store, xs: seq<Transaction>): Store {
    if xs == [] then s else AfterTransaction(AfterTransactions(s, xs[..|xs| - 1]), xs[|xs| - 1])
  }

  /** Whatever batches any number of workers save, in whatever order their transactions commit, keys and place ids
      stay unique. */
  lemma {:induction false} TransactionsKeepUnique(s: Store, xs: seq<Transaction>)
    requires ValidStore(s)
    ensures ValidStore(AfterTransactions(s, xs))
  {
    if xs != [] {
      var before, x := AfterTransactions(s, xs[..|xs| - 1]), xs[|xs| - 1];
      TransactionsKeepUnique(s, xs[..|xs| - 1]);
      hide ValidStore, Committed, Collapsed, Unambiguous, DistinctKeys, DistinctPlaces;
      if Accepted(before.hotels, Collapsed(x.scraped), x.cap) {
        CollapsedIsDistinct(x.scraped);
        AcceptedUnambiguous(before.hotels, Collapsed(x.scraped), x.cap);
        SaveKeepsUnique(before, Collapsed(x.scraped), x.zip, x.now);
      }
    }
  }

  lemma AllDiffer(t: Table)
    requires forall i, j :: i in t && j in t && i != j ==> t[i].key != t[j].key && (t[i].place.Some? ==> t[i].place != t[j].place)
    ensures UniqueTable(t)
  {}

  lemma RowsDiffer(s: Store, records: seq<Record>, zip: string, now: int, i: nat, j: nat)
    requires ValidStore(s) && Unambiguous(s.hotels, records) && DistinctKeys(records) && DistinctPlaces(records)
    requires UniqueTable(TouchAll(s.hotels, records, |records|, now))
    requires var u := TouchAll(s.hotels, records, |records|, now);
             InsertedUpTo(s.hotels, u, s.nextId, records, |records|, zip, now, Committed(s, records, zip, now))
    requires i in Committed(s, records, zip, now).hotels && j in Committed(s, records, zip, now).hotels && i != j
    ensures var r := Committed(s, records, zip, now).hotels;
            r[i].key != r[j].key && (r[i].place.Some? ==> r[i].place != r[j].place)
  {
    hide Target, Unambiguous, Committed;
    var t := s.hotels;
    var u := TouchAll(t, records, |records|, now);
    var r := Committed(s, records, zip, now).hotels;
    var n := |records|;
    if i !in u {
      var a :| 0 <= a < n && Target(t, records[a]).None? && i == NewId(t, s.nextId, records, a);
      if j in u {
        OldRowsDiffer(t, records, now, a, j);
      } else {
        var b :| 0 <= b < n && Target(t, records[b]).None? && j == NewId(t, s.nextId, records, b);
        assert a != b;
      }
    } else if j !in u {
      var b :| 0 <= b < n && Target(t, records[b]).None? && j == NewId(t, s.nextId, records, b);
      OldRowsDiffer(t, records, now, b, i);
    }
  }

  // ---- replay ------------------------------------------------------------------------

  ghost predicate CommittedLater(records: seq<Record>, now: int) {
    forall r :: r in records ==> r.scrapedAt < now
  }

  ghost predicate Fresh(t: Table, r: Record, id: nat) {
    Target(t, r) == Some(id) && id in t && t[id].lastSeen <= r.scrapedAt
  }

  /** The first record that really changes row `id`; later ones find it stamped with the commit time. */
  ghost function FirstFresh(t: Table, records: seq<Record>, n: nat, id: nat): (f: Option<nat>)
    requires n <= |records|
    ensures f.Some? ==> f.value < n
  {
    if n == 0 then None
    else OrElse(FirstFresh(t, records, n - 1, id), if Fresh(t, records[n - 1], id) then Some(n - 1) else None)
  }

  lemma {:induction false} FirstFreshIs(t: Table, records: seq<Record>, n: nat, id: nat)
    requires n <= |records|
    ensures FirstFresh(t, records, n, id).Some? ==> Fresh(t, records[FirstFresh(t, records, n, id).value], id)
    ensures FirstFresh(t, records, n, id).None? ==> forall i :: 0 <= i < n ==> !Fresh(t, records[i], id)
  {
    hide Fresh;
    if n > 0 {
      FirstFreshIs(t, records, n - 1, id);
    }
  }

  /** The committed row: untouched, or touched by the first fresh record alone. */
  lemma {:induction false} TouchedRow(t: Table, records: seq<Record>, n: nat, now: int, id: nat)
    requires n <= |records| && id in t && CommittedLater(records, now)
    ensures var f := FirstFresh(t, records, n, id);
            TouchAll(t, records, n, now)[id] == if f.None? then t[id] else Touch(t[id], records[f.value], now)
  {
    hide Target;
    if n > 0 {
      TouchedRow(t, records, n - 1, now, id);
      FirstFreshIs(t, records, n - 1, id);
      assert records[n - 1] in records;
    }
  }

  // ---- which batches are saved ------------------------------------------------------------

  /** The rows that share the key, the place id or the CID of a record. */
  function Rivals(t: Table, r: Record): set<nat> {
    set id | id in t && (t[id].key == r.key || (t[id].place == r.place && r.place != None) || (t[id].cid == r.cid && r.cid != None))
  }

  /** A record resolves to the only row that shares an identity with it. */
  lemma ResolvesIff(t: Table, r: Record, id: nat)
    requires |Rivals(t, r)| <= 1
    ensures Target(t, r) == Some(id) <==> id in Rivals(t, r)
    ensures Target(t, r) == None <==> Rivals(t, r) == {}
  {
    assert Matches(t, r) == Rivals(t, r);
    TargetMatches(t, r, id);
  }

  /** Which of the first `n` records share an identity with no row. */
  function Unseen(t: Table, records: seq<Record>, n: nat): set<int>
    requires n <= |records|
  {
    set i | 0 <= i < n && Rivals(t, records[i]) == {}
  }

  lemma UnseenMore(t: Table, records: seq<Record>, n: nat)
    requires n < |records|
    ensures |Unseen(t, records, n + 1)| == |Unseen(t, records, n)| + (if Rivals(t, records[n]) == {} then 1 else 0)
  {
    hide Rivals;
    assert Unseen(t, records, n + 1) == if Rivals(t, records[n]) == {} then Unseen(t, records, n) + {n} else Unseen(t, records, n);
  }

  lemma {:induction false} UnseenCount(t: Table, records: seq<Record>, n: nat)
    requires n <= |records|
    ensures NewCount(t, records, n) == |Unseen(t, records, n)|
  {
    hide Target, Rivals;
    if n > 0 {
      UnseenCount(t, records, n - 1);
      UnseenMore(t, records, n - 1);
      NoTargetIff(t, records[n - 1]);
      hide Unseen;
    }
  }

  lemma NoTargetIff(t: Table, r: Record)
    ensures Target(t, r).None? <==> Rivals(t, r) == {}
  {
    assert Matches(t, r) == Rivals(t, r);
  }

  /** A batch is accepted exactly when no record shares identities with two rows, and the records that share them with
      none are not more than the limit, if there is one. */
  lemma AcceptedIff(t: Table, records: seq<Record>, cap: int)
    ensures Accepted(t, records, cap) <==>
            && (forall i :: 0 <= i < |records| ==> |Rivals(t, records[i])| <= 1)
            && (cap <= 0 || |Unseen(t, records, |records|)| <= cap)
  {
    forall r ensures Matches(t, r) == Rivals(t, r) {}
    hide Matches, Rivals, Unseen, NewCount;
    UnseenCount(t, records, |records|);
  }

  // ---- what a save leaves in the rows -----------------------------------------------------

  /** Row `g` is row `h` after a fresh record: blanks are filled, live figures from Maps replace the old ones, the type
      stays, and the identities and raw data take what the record brings. */
  ghost predicate Takes(h: Hotel, r: Record, g: Hotel, now: int) {
    && (forall f :: f in {Address, Zip, State, OsmId, Phone, Website, MapsUri} ==>
          Known(g.fields, f) == if f in h.fields then Known(h.fields, f) else Known(r.fields, f))
    && (forall f :: f in {Rating, RatingsTotal, PriceLevel, BusinessStatus} ==>
          Known(g.fields, f) == if f in r.fields && "places" in r.sources then Known(r.fields, f) else Known(h.fields, f))
    && (forall f :: f in {PrimaryType, Types} ==> Known(g.fields, f) == Known(h.fields, f))
    && (forall k :: Known(g.raw, k) == if k in r.raw then Known(r.raw, k) else Known(h.raw, k))
    && g.place == (if h.place.Some? then h.place else r.place)
    && g.cid == (if r.cid.Some? then r.cid else h.cid)
    && g.sources == h.sources + r.sources
    && g.key == h.key && g.queryZip == h.queryZip && g.lastSeen == now
  }

  lemma TouchedField(h: Hotel, r: Record, now: int, f: Field)
    requires h.lastSeen <= r.scrapedAt
    ensures Known(Touch(h, r, now).fields, f) ==
            if f in REFRESHED && f in r.fields && "places" in r.sources then Known(r.fields, f)
            else if f in h.fields || f !in FILLED then Known(h.fields, f)
            else Known(r.fields, f)
  {
    hide FILLED, REFRESHED;
    FilledOrRefreshed(f);
  }

  lemma FilledOrRefreshed(f: Field)
    ensures f in FILLED <==> f in {Address, Zip, State, OsmId, Phone, Website, MapsUri}
    ensures f in REFRESHED <==> f in {Rating, RatingsTotal, PriceLevel, BusinessStatus}
    ensures f !in FILLED || f !in REFRESHED
  {}

  lemma TouchedRest(h: Hotel, r: Record, now: int)
    requires h.lastSeen <= r.scrapedAt
    ensures var g := Touch(h, r, now);
            && (forall k :: Known(g.raw, k) == if k in r.raw then Known(r.raw, k) else Known(h.raw, k))
            && g.place == (if h.place.Some? then h.place else r.place)
            && g.cid == (if r.cid.Some? then r.cid else h.cid)
            && g.sources == h.sources + r.sources
            && g.key == h.key && g.queryZip == h.queryZip && g.lastSeen == now
  {
    hide Restrict, FILLED, REFRESHED;
  }

  lemma FreshTouchTakes(h: Hotel, r: Record, now: int)
    requires h.lastSeen <= r.scrapedAt
    ensures Takes(h, r, Touch(h, r, now), now)
  {
    hide Touch, Known, FILLED, REFRESHED;
    TouchedRest(h, r, now);
    forall f ensures Known(Touch(h, r, now).fields, f) ==
                     if f in REFRESHED && f in r.fields && "places" in r.sources then Known(r.fields, f)
                     else if f in h.fields || f !in FILLED then Known(h.fields, f)
                     else Known(r.fields, f)
    {
      TouchedField(h, r, now, f);
    }
    forall f ensures f in FILLED <==> f in {Address, Zip, State, OsmId, Phone, Website, MapsUri}
             ensures f in REFRESHED <==> f in {Rating, RatingsTotal, PriceLevel, BusinessStatus}
             ensures f !in FILLED || f !in REFRESHED
    {
      FilledOrRefreshed(f);
    }
  }

  /** Record by record: a row takes what a fresh record resolved to it brings, and no other record changes it. */
  lemma TouchStepTakes(t: Table, records: seq<Record>, n: nat, now: int, id: nat)
    requires n < |records| && id in t
    ensures var h, g := TouchAll(t, records, n, now)[id], TouchAll(t, records, n + 1, now)[id];
            if Target(t, records[n]) == Some(id) && h.lastSeen <= records[n].scrapedAt then Takes(h, records[n], g, now) else g == h
  {
    hide Takes, Touch, Target;
    var h := TouchAll(t, records, n, now)[id];
    StaleTouch(h, records[n], now);
    if h.lastSeen <= records[n].scrapedAt {
      FreshTouchTakes(h, records[n], now);
    }
  }

  lemma StaleTouch(h: Hotel, r: Record, now: int)
    ensures h.lastSeen > r.scrapedAt ==> Touch(h, r, now) == h
  {}

  lemma CommittedRow(s: Store, records: seq<Record>, zip: string, now: int, id: nat)
    requires ValidStore(s) && Unambiguous(s.hotels, records) && DistinctKeys(records) && DistinctPlaces(records) && id in s.hotels
    ensures id in Committed(s, records, zip, now).hotels
    ensures Committed(s, records, zip, now).hotels[id] == TouchAll(s.hotels, records, |records|, now)[id]
  {
    hide ValidStore, Unambiguous, DistinctKeys, DistinctPlaces, Committed, NewRow, Target;
    SaveKeepsUnique(s, records, zip, now);
  }

  /** What a save later than the observations leaves in a row: what the first fresh record resolved to it brings. */
  lemma SavedRowTakes(s: Store, records: seq<Record>, zip: string, now: int, i: nat, id: nat)
    requires ValidStore(s) && Unambiguous(s.hotels, records) && DistinctKeys(records) && DistinctPlaces(records)
    requires i < |records| && id in s.hotels && forall r :: r in records ==> r.scrapedAt < now
    requires Target(s.hotels, records[i]) == Some(id) && s.hotels[id].lastSeen <= records[i].scrapedAt
    requires forall j :: 0 <= j < i && Target(s.hotels, records[j]) == Some(id) ==> records[j].scrapedAt < s.hotels[id].lastSeen
    ensures id in Committed(s, records, zip, now).hotels
    ensures Takes(s.hotels[id], records[i], Committed(s, records, zip, now).hotels[id], now)
  {
    hide ValidStore, Unambiguous, DistinctKeys, DistinctPlaces, Committed, Touch, Takes, TouchAll, Target;
    TouchedRow(s.hotels, records, |records|, now, id);
    FirstFreshFound(s.hotels, records, |records|, id, i);
    CommittedRow(s, records, zip, now, id);
    FreshTouchTakes(s.hotels[id], records[i], now);
  }

  lemma {:induction false} FirstFreshFound(t: Table, records: seq<Record>, n: nat, id: nat, i: nat)
    requires i < n <= |records| && Fresh(t, records[i], id) && forall j :: 0 <= j < i ==> !Fresh(t, records[j], id)
    ensures FirstFresh(t, records, n, id) == Some(i)
  {
    hide Fresh;
    FirstFreshIs(t, records, n - 1, id);
    if i < n - 1 {
      FirstFreshFound(t, records, n - 1, id, i);
    }
  }

  /** A row to which only stale records resolve stays as it is. */
  lemma StaleRowStays(s: Store, records: seq<Record>, zip: string, now: int, id: nat)
    requires ValidStore(s) && Unambiguous(s.hotels, records) && DistinctKeys(records) && DistinctPlaces(records)
    requires id in s.hotels && forall r :: r in records && Target(s.hotels, r) == Some(id) ==> r.scrapedAt < s.hotels[id].lastSeen
    ensures id in Committed(s, records, zip, now).hotels && Committed(s, records, zip, now).hotels[id] == s.hotels[id]
  {
    CommittedRow(s, records, zip, now, id);
    StaleRow(s.hotels, records, |records|, now, id);
    hide ValidStore, Unambiguous, DistinctKeys, DistinctPlaces, Committed, Target, TouchAll;
  }

  lemma {:induction false} StaleRow(t: Table, records: seq<Record>, n: nat, now: int, id: nat)
    requires n <= |records| && id in t
    requires forall r :: r in records && Target(t, r) == Some(id) ==> r.scrapedAt < t[id].lastSeen
    ensures TouchAll(t, records, n, now)[id] == t[id]
  {
    hide Target;
    if n > 0 {
      StaleRow(t, records, n - 1, now, id);
      assert records[n - 1] in records;
    }
  }

  /** A record without a row gets one of its own: what it knows, a hotel by type unless it says otherwise, found in the
      ZIP that was searched. */
  lemma SavedNewRow(s: Store, records: seq<Record>, zip: string, now: int, i: nat) returns (id: nat)
    requires ValidStore(s) && Unambiguous(s.hotels, records) && DistinctKeys(records) && DistinctPlaces(records)
    requires i < |records| && Target(s.hotels, records[i]).None?
    ensures id !in s.hotels && id in Committed(s, records, zip, now).hotels
    ensures var r, g := records[i], Committed(s, records, zip, now).hotels[id];
            && g == Hotel(r.key, r.place, r.cid, r.sources, g.fields, r.raw, zip, now)
            && (forall f :: f in r.fields ==> Known(g.fields, f) == Known(r.fields, f))
            && (PrimaryType !in r.fields ==> Known(g.fields, PrimaryType) == Some("hotel"))
            && (Types !in r.fields ==> Known(g.fields, Types) == Some("hotel,lodging"))
            && (forall f :: f !in r.fields && f != PrimaryType && f != Types ==> f !in g.fields)
  {
    hide Unambiguous, DistinctKeys, DistinctPlaces, Committed, Target, UniqueTable;
    SaveKeepsUnique(s, records, zip, now);
    id := NewId(s.hotels, s.nextId, records, i);
    NewRowIs(records[i], zip, now);
    hide NewRow;
  }

  lemma NewRowIs(r: Record, zip: string, now: int)
    ensures var g := NewRow(r, zip, now);
            && g == Hotel(r.key, r.place, r.cid, r.sources, g.fields, r.raw, zip, now)
            && (forall f :: f in r.fields ==> Known(g.fields, f) == Known(r.fields, f))
            && (PrimaryType !in r.fields ==> Known(g.fields, PrimaryType) == Some("hotel"))
            && (Types !in r.fields ==> Known(g.fields, Types) == Some("hotel,lodging"))
            && (forall f :: f !in r.fields && f != PrimaryType && f != Types ==> f !in g.fields)
  {}

  /** Record `i` is known to its row by CID alone, and the first fresh record for that row brings another CID. */
  ghost predicate Displaced(t: Table, records: seq<Record>, i: nat)
    requires i < |records|
  {
    var r, target := records[i], Target(t, records[i]);
    target.Some? && target.value in t &&
    var h, f := t[target.value], FirstFresh(t, records, |records|, target.value);
    && h.key != r.key && !(r.place.Some? && h.place == r.place)
    && f.Some? && records[f.value].cid.Some? && records[f.value].cid != h.cid
  }

  lemma OtherRowsStayApart(t: Table, records: seq<Record>, now: int, i: nat, id: nat)
    requires Unambiguous(t, records) && DistinctIdentities(records) && CommittedLater(records, now)
    requires i < |records| && id in t && Target(t, records[i]) != Some(id)
    ensures !Same(TouchAll(t, records, |records|, now)[id], records[i])
  {
    hide Target, Unambiguous, CommittedLater, Touch;
    var r, n := records[i], |records|;
    var f := FirstFresh(t, records, n, id);
    OldRowsDiffer(t, records, now, i, id);
    TouchedRow(t, records, n, now, id);
    FirstFreshIs(t, records, n, id);
    NotSame(t, records, i, id);
    if f.Some? {
      TouchShape(t[id], records[f.value], now);
      assert f.value != i;
    }
  }

  lemma NotSame(t: Table, records: seq<Record>, i: nat, id: nat)
    requires Unambiguous(t, records) && i < |records| && id in t
    ensures Target(t, records[i]) == Some(id) <==> Same(t[id], records[i])
  {
    assert records[i] in records;
    TargetMatches(t, records[i], id);
  }

  lemma OwnRowAfter(t: Table, records: seq<Record>, now: int, i: nat, id: nat)
    requires Unambiguous(t, records) && DistinctIdentities(records) && CommittedLater(records, now)
    requires i < |records| && id in t && Target(t, records[i]) == Some(id)
    ensures Same(TouchAll(t, records, |records|, now)[id], records[i]) <==> !Displaced(t, records, i)
    ensures TouchAll(t, records, |records|, now)[id].lastSeen > records[i].scrapedAt
  {
    hide Target, Unambiguous;
    var r, n, h := records[i], |records|, t[id];
    var f := FirstFresh(t, records, n, id);
    TouchedRow(t, records, n, now, id);
    FirstFreshIs(t, records, n, id);
    NotSame(t, records, i, id);
    assert r in records;
    if f.None? {
      assert !Fresh(t, r, id);
    } else {
      var g := records[f.value];
      assert f.value != i ==> (r.place.Some? ==> g.place != r.place) && (r.cid.Some? ==> g.cid != r.cid);
    }
  }

  /** The ids that record `i` matches after the commit. */
  ghost function MatchesLater(t: Table, next: nat, records: seq<Record>, i: nat): set<nat>
    requires i < |records|
  {
    match Target(t, records[i])
    case None => {NewId(t, next, records, i)}
    case Some(id) => if Displaced(t, records, i) then {} else {id}
  }

  lemma OldRowMatches(t: Table, next: nat, records: seq<Record>, now: int, i: nat, id: nat)
    requires Unambiguous(t, records) && DistinctIdentities(records) && CommittedLater(records, now)
    requires i < |records| && id in t && id < next
    ensures Same(TouchAll(t, records, |records|, now)[id], records[i]) <==> id in MatchesLater(t, next, records, i)
  {
    hide Target, Unambiguous, CommittedLater, Displaced, Same, DistinctIdentities, TouchAll;
    if Target(t, records[i]) == Some(id) {
      OwnRowAfter(t, records, now, i, id);
    } else {
      OtherRowsStayApart(t, records, now, i, id);
    }
  }

  lemma NewRowMatches(t: Table, next: nat, records: seq<Record>, zip: string, now: int, i: nat, id: nat)
    requires Unambiguous(t, records) && DistinctIdentities(records) && i < |records|
    requires forall x :: x in t ==> x < next
    requires exists j :: 0 <= j < |records| && Target(t, records[j]).None? && id == NewId(t, next, records, j)
    ensures forall j :: 0 <= j < |records| && Target(t, records[j]).None? && id == NewId(t, next, records, j) ==>
      (Same(NewRow(records[j], zip, now), records[i]) <==> id in MatchesLater(t, next, records, i))
  {
    hide Target, Unambiguous, Displaced, Same, DistinctIdentities, NewRow;
    forall j | 0 <= j < |records| && Target(t, records[j]).None? && id == NewId(t, next, records, j)
      ensures Same(NewRow(records[j], zip, now), records[i]) <==> id in MatchesLater(t, next, records, i)
    {
      NewRowMatchesItself(records, i, j, zip, now);
      if Target(t, records[i]).Some? {
        TargetInTable(t, records, i);
      } else if i < j {
        NewCountGrows(t, records, i, j);
      } else {
        NewCountGrows(t, records, j, i);
      }
    }
  }

  /** Where a record resolves after the commit. */
  lemma MatchesAfter(s: Store, records: seq<Record>, zip: string, now: int, i: nat)
    requires ValidStore(s) && Unambiguous(s.hotels, records) && DistinctIdentities(records) && CommittedLater(records, now)
    requires i < |records|
    ensures Matches(Committed(s, records, zip, now).hotels, records[i]) == MatchesLater(s.hotels, s.nextId, records, i)
  {
    hide Target, Unambiguous, CommittedLater, Committed, Displaced, Same, DistinctIdentities, MatchesLater, TouchAll, UniqueTable;
    var t, r := s.hotels, Committed(s, records, zip, now).hotels;
    var u := TouchAll(t, records, |records|, now);
    IdentitiesDistinct(records);
    SaveKeepsUnique(s, records, zip, now);
    forall id ensures id in r && Same(r[id], records[i]) <==> id in MatchesLater(t, s.nextId, records, i) {
      if id in u {
        OldRowMatches(t, s.nextId, records, now, i, id);
      } else if id in r {
        NewRowMatches(t, s.nextId, records, zip, now, i, id);
      } else {
        LaterMatchesExist(s, records, zip, now, i);
      }
    }
  }

  lemma LaterMatchesExist(s: Store, records: seq<Record>, zip: string, now: int, i: nat)
    requires ValidStore(s) && Unambiguous(s.hotels, records) && i < |records|
    requires InsertedUpTo(s.hotels, TouchAll(s.hotels, records, |records|, now), s.nextId, records, |records|, zip, now, Committed(s, records, zip, now))
    ensures forall id :: id in MatchesLater(s.hotels, s.nextId, records, i) ==> id in Committed(s, records, zip, now).hotels
  {
    hide Target, Unambiguous, Committed, Displaced;
    if Target(s.hotels, records[i]).Some? {
      TargetInTable(s.hotels, records, i);
    }
  }

  lemma IdentitiesDistinct(records: seq<Record>)
    requires DistinctIdentities(records)
    ensures DistinctKeys(records) && DistinctPlaces(records) && DistinctCids(records)
  {}

  lemma TargetInTable(t: Table, records: seq<Record>, i: nat)
    requires Unambiguous(t, records) && i < |records| && Target(t, records[i]).Some?
    ensures Target(t, records[i]).value in t
  {
    assert records[i] in records;
    TargetMatches(t, records[i], Target(t, records[i]).value);
  }

  lemma NewRowMatchesItself(records: seq<Record>, i: nat, j: nat, zip: string, now: int)
    requires DistinctIdentities(records) && i < |records| && j < |records|
    ensures Same(NewRow(records[j], zip, now), records[i]) <==> i == j
  {}

  /** Flushing the same records again leaves the store exactly as it was and inserts nothing. */
  ghost predicate Harmless(s: Store, records: seq<Record>, zip: string, now: int, cap: int) {
    && Accepted(s.hotels, records, cap)
    && NewCount(s.hotels, records, |records|) == 0
    && Committed(s, records, zip, now) == s
  }

  lemma {:induction false} NothingNew(t: Table, records: seq<Record>, n: nat)
    requires n <= |records| && forall i :: 0 <= i < n ==> Target(t, records[i]).Some?
    ensures NewCount(t, records, n) == 0
  {
    if n > 0 {
      NothingNew(t, records, n - 1);
    }
  }

  lemma {:induction false} AllStale(t: Table, records: seq<Record>, n: nat, now: int)
    requires n <= |records|
    requires forall i :: 0 <= i < n ==> Target(t, records[i]).Some? && Target(t, records[i]).value in t
    requires forall i :: 0 <= i < n ==> t[Target(t, records[i]).value].lastSeen > records[i].scrapedAt
    ensures TouchAll(t, records, n, now) == t
  {
    if n > 0 {
      AllStale(t, records, n - 1, now);
    }
  }

  lemma {:induction false} NothingInserted(t: Table, s: Store, records: seq<Record>, n: nat, zip: string, now: int)
    requires n <= |records| && forall i :: 0 <= i < n ==> Target(t, records[i]).Some?
    ensures InsertAll(t, s, records, n, zip, now) == s
  {
    if n > 0 {
      NothingInserted(t, s, records, n - 1, zip, now);
    }
  }

  /** The records that resolved to nothing now resolve to the rows inserted for them. */
  lemma NewFoundAgain(s: Store, records: seq<Record>, zip: string, now: int, i: nat)
    requires ValidStore(s) && Unambiguous(s.hotels, records) && DistinctIdentities(records) && CommittedLater(records, now)
    requires i < |records| && Target(s.hotels, records[i]).None?
    ensures var t := Committed(s, records, zip, now).hotels;
            var id := NewId(s.hotels, s.nextId, records, i);
            Matches(t, records[i]) == {id} && id in t && t[id].lastSeen > records[i].scrapedAt
  {
    hide Unambiguous, Committed, Displaced, Same, DistinctIdentities, Matches, Target, UniqueTable;
    MatchesAfter(s, records, zip, now, i);
    assert MatchesLater(s.hotels, s.nextId, records, i) == {NewId(s.hotels, s.nextId, records, i)};
    IdentitiesDistinct(records);
    SaveKeepsUnique(s, records, zip, now);
    assert records[i] in records;
  }

  /** The records that resolved to a row find it again unless displaced. */
  lemma OldFoundAgain(s: Store, records: seq<Record>, zip: string, now: int, i: nat, id: nat)
    requires ValidStore(s) && Unambiguous(s.hotels, records) && DistinctIdentities(records) && CommittedLater(records, now)
    requires i < |records| && Target(s.hotels, records[i]) == Some(id)
    ensures var t := Committed(s, records, zip, now).hotels;
            && Matches(t, records[i]) == (if Displaced(s.hotels, records, i) then {} else {id})
            && id in t && t[id].lastSeen > records[i].scrapedAt
  {
    hide Unambiguous, Committed, Displaced, Same, DistinctIdentities, Matches, Target, UniqueTable;
    MatchesAfter(s, records, zip, now, i);
    IdentitiesDistinct(records);
    SaveKeepsUnique(s, records, zip, now);
    TargetInTable(s.hotels, records, i);
    OwnRowAfter(s.hotels, records, now, i, id);
    hide TouchAll;
  }

  /** After the commit each record that is not displaced finds its own row again, and finds it newer than itself. */
  lemma FoundAgain(s: Store, records: seq<Record>, zip: string, now: int, i: nat)
    requires ValidStore(s) && Unambiguous(s.hotels, records) && DistinctIdentities(records) && CommittedLater(records, now)
    requires i < |records|
    ensures var t := Committed(s, records, zip, now).hotels;
            && |Matches(t, records[i])| <= 1
            && (Target(t, records[i]).None? <==> Displaced(s.hotels, records, i))
            && (!Displaced(s.hotels, records, i) ==>
                  Target(t, records[i]).value in t && t[Target(t, records[i]).value].lastSeen > records[i].scrapedAt)
  {
    hide *;
    var t := Committed(s, records, zip, now).hotels;
    DisplacedHasTarget(s.hotels, records, i);
    if Target(s.hotels, records[i]).None? {
      NewFoundAgain(s, records, zip, now, i);
      OnlyTarget(t, records[i], NewId(s.hotels, s.nextId, records, i));
    } else {
      var id := Target(s.hotels, records[i]).value;
      OldFoundAgain(s, records, zip, now, i, id);
      if Displaced(s.hotels, records, i) {
        NoTarget(t, records[i]);
      } else {
        OnlyTarget(t, records[i], id);
      }
    }
  }

  lemma NoTarget(t: Table, r: Record)
    requires Matches(t, r) == {}
    ensures Target(t, r).None?
  {}

  lemma DisplacedHasTarget(t: Table, records: seq<Record>, i: nat)
    requires i < |records|
    ensures Displaced(t, records, i) ==> Target(t, records[i]).Some?
  {}

  lemma OnlyTarget(t: Table, r: Record, id: nat)
    requires Matches(t, r) == {id}
    ensures Target(t, r) == Some(id) && id in t
  {
    assert id in Matches(t, r);
  }

  /** After a crash between the commit and the acknowledgement, flushing the same batch again is harmless,
      whenever it happens, if and only if no record was displaced from its row. */
  lemma ReplayHarmlessIff(s: Store, records: seq<Record>, zip: string, now: int, cap: int, later: int)
    requires ValidStore(s) && Accepted(s.hotels, records, cap) && DistinctIdentities(records) && CommittedLater(records, now)
    ensures Harmless(Committed(s, records, zip, now), records, zip, later, cap) <==>
            forall i :: 0 <= i < |records| ==> !Displaced(s.hotels, records, i)
  {
    hide Displaced, Committed, DistinctIdentities, Matches, Target, Unambiguous;
    var r := Committed(s, records, zip, now);
    var n := |records|;
    AcceptedUnambiguous(s.hotels, records, cap);
    forall i | 0 <= i < n
      ensures Target(r.hotels, records[i]).None? <==> Displaced(s.hotels, records, i)
      ensures !Displaced(s.hotels, records, i) ==>
                Target(r.hotels, records[i]).value in r.hotels && r.hotels[Target(r.hotels, records[i]).value].lastSeen > records[i].scrapedAt
      ensures |Matches(r.hotels, records[i])| <= 1
    {
      FoundAgain(s, records, zip, now, i);
    }
    if forall i :: 0 <= i < n ==> !Displaced(s.hotels, records, i) {
      NothingNew(r.hotels, records, n);
      AllStale(r.hotels, records, n, later);
      NothingInserted(r.hotels, r, records, n, zip, later);
      assert Unambiguous(r.hotels, records) by { IsUnambiguous(r.hotels, records); }
      CommittedSame(r, records, zip, later);
    } else {
      var i :| 0 <= i < n && Displaced(s.hotels, records, i);
      NewCountGrows(r.hotels, records, i, n);
    }
  }

  lemma AcceptedUnambiguous(t: Table, records: seq<Record>, cap: int)
    requires Accepted(t, records, cap)
    ensures Unambiguous(t, records)
  {}

  lemma IsUnambiguous(t: Table, records: seq<Record>)
    requires forall i :: 0 <= i < |records| ==> |Matches(t, records[i])| <= 1
    ensures Unambiguous(t, records)
  {}

  lemma CommittedSame(s: Store, records: seq<Record>, zip: string, now: int)
    requires TouchAll(s.hotels, records, |records|, now) == s.hotels
    requires InsertAll(s.hotels, s, records, |records|, zip, now) == s
    ensures Committed(s, records, zip, now) == s
  {}

  /** Records that resolve to pairwise distinct rows are never displaced. */
  lemma DistinctTargetsSuffice(t: Table, records: seq<Record>, i: nat)
    requires Unambiguous(t, records) && i < |records|
    requires forall j :: 0 <= j < |records| && j != i && Target(t, records[j]).Some? ==> Target(t, records[j]) != Target(t, records[i])
    ensures !Displaced(t, records, i)
  {
    var target := Target(t, records[i]);
    if target.Some? {
      FirstFreshIs(t, records, |records|, target.value);
      NotSame(t, records, i, target.value) by { TargetInTable(t, records, i); }
    }
  }

  // ---- the transaction as it runs -------------------------------------------------------

  /** The rows fetched for a batch, grouped by each kind of identity. */
  datatype Index = Index(byKey: map<string, set<nat>>, byPlace: map<string, set<nat>>, byCid: map<string, set<nat>>)

  function Group(m: map<string, set<nat>>, k: Option<string>): set<nat> {
    if k.Some? && k.value in m then m[k.value] else {}
  }

  function AddTo(m: map<string, set<nat>>, k: Option<string>, id: nat): map<string, set<nat>> {
    if k.Some? then m[k.value := Group(m, k) + {id}] else m
  }

  ghost predicate IndexOf(x: Index, t: Table, ids: set<nat>) {
    && (forall id, k :: id in Group(x.byKey, Some(k)) <==> id in ids && id in t && t[id].key == k)
    && (forall id, p :: id in Group(x.byPlace, Some(p)) <==> id in ids && id in t && t[id].place == Some(p))
    && (forall id, c :: id in Group(x.byCid, Some(c)) <==> id in ids && id in t && t[id].cid == Some(c))
  }

  function Candidates(x: Index, r: Record): set<nat> {
    Group(x.byKey, Some(r.key)) + Group(x.byPlace, r.place) + Group(x.byCid, r.cid)
  }

  lemma GroupGrows(m: map<string, set<nat>>, k: Option<string>, id: nat)
    ensures forall j :: Group(AddTo(m, k, id), Some(j)) == Group(m, Some(j)) + (if k == Some(j) then {id} else {})
  {}

  lemma IndexGrows(x: Index, t: Table, ids: set<nat>, id: nat)
    requires IndexOf(x, t, ids) && id in t
    ensures IndexOf(Index(AddTo(x.byKey, Some(t[id].key), id), AddTo(x.byPlace, t[id].place, id), AddTo(x.byCid, t[id].cid, id)), t, ids + {id})
  {
    hide Group, AddTo;
    GroupGrows(x.byKey, Some(t[id].key), id);
    GroupGrows(x.byPlace, t[id].place, id);
    GroupGrows(x.byCid, t[id].cid, id);
  }

  lemma CandidatesAreMatches(x: Index, t: Table, ids: set<nat>, r: Record)
    requires IndexOf(x, t, ids) && forall id :: id in t && Same(t[id], r) ==> id in ids
    ensures Candidates(x, r) == Matches(t, r)
  {
    forall id ensures id in Candidates(x, r) <==> id in Matches(t, r) {}
  }

  /** One query fetches every row that shares an identity with some record, then groups the rows. */
  method ExistingRows(t: Table, records: seq<Record>) returns (x: Index)
    ensures forall r :: r in records ==> Candidates(x, r) == Matches(t, r)
  {
    hide IndexOf;
    var keys := set r | r in records :: r.key;
    var places := set r | r in records && r.place.Some? :: r.place;
    var cids := set r | r in records && r.cid.Some? :: r.cid;
    var rows := set id | id in t && (t[id].key in keys || t[id].place in places || t[id].cid in cids);
    var todo := rows;
    x := Index(map[], map[], map[]);
    EmptyIndex(t);
    assert rows - todo == {};
    while todo != {}
      invariant todo <= rows && IndexOf(x, t, rows - todo)
    {
      var id :| id in todo;
      IndexGrows(x, t, rows - todo, id);
      assert rows - todo + {id} == rows - (todo - {id});
      x := Index(AddTo(x.byKey, Some(t[id].key), id), AddTo(x.byPlace, t[id].place, id), AddTo(x.byCid, t[id].cid, id));
      todo := todo - {id};
    }
    forall r | r in records ensures Candidates(x, r) == Matches(t, r) {
      assert r.key in keys && (r.place.Some? ==> r.place in places) && (r.cid.Some? ==> r.cid in cids);
      assert rows - todo == rows;
      CandidatesAreMatches(x, t, rows, r);
    }
  }

  lemma EmptyIndex(t: Table)
    ensures IndexOf(Index(map[], map[], map[]), t, {})
  {}

  datatype Resolution = Ambiguous | Found(row: Option<nat>)

  /** The single candidate row, or none; several rows for one record stop the batch. */
  method ResolveExisting(x: Index, r: Record, ghost t: Table) returns (res: Resolution)
    requires Candidates(x, r) == Matches(t, r)
    ensures res.Ambiguous? <==> |Matches(t, r)| > 1
    ensures res.Found? ==> res.row == Target(t, r)
  {
    hide Matches;
    var found := Candidates(x, r);
    if |found| > 1 {
      return Ambiguous;
    }
    if found == {} {
      return Found(None);
    }
    var id :| id in found;
    OnlyMember(found, id);
    OnlyTarget(t, r, id);
    return Found(Some(id));
  }

  lemma NotUnambiguous(t: Table, records: seq<Record>, i: nat)
    requires i < |records| && |Matches(t, records[i])| > 1
    ensures !Unambiguous(t, records)
  {
    assert records[i] in records;
  }

  lemma TouchStep(t: Table, records: seq<Record>, n: nat, now: int)
    requires n < |records|
    ensures TouchAll(t, records, n + 1, now) ==
            match Target(t, records[n])
            case None => TouchAll(t, records, n, now)
            case Some(id) => TouchAll(t, records, n, now)[id := Touch(TouchAll(t, records, n, now)[id], records[n], now)]
    ensures NewCount(t, records, n + 1) == NewCount(t, records, n) + (if Target(t, records[n]).None? then 1 else 0)
  {}

  lemma InsertOneStep(t: Table, s: Store, records: seq<Record>, n: nat, zip: string, now: int)
    requires n < |records|
    ensures InsertAll(t, s, records, n + 1, zip, now) ==
            if Target(t, records[n]).None? then InsertRow(InsertAll(t, s, records, n, zip, now), NewRow(records[n], zip, now))
            else InsertAll(t, s, records, n, zip, now)
  {}

  lemma NothingDone(t: Table, s: Store, records: seq<Record>, zip: string, now: int)
    ensures TouchAll(t, records, 0, now) == t && InsertAll(t, s, records, 0, zip, now) == s && NewCount(t, records, 0) == 0
  {}

  lemma AcceptedIs(t: Table, records: seq<Record>, cap: int)
    ensures Accepted(t, records, cap) <==> Unambiguous(t, records) && (cap > 0 ==> NewCount(t, records, |records|) <= cap)
  {}

  lemma CommittedIs(s: Store, records: seq<Record>, zip: string, now: int)
    ensures Committed(s, records, zip, now) ==
            InsertAll(s.hotels, Store(TouchAll(s.hotels, records, |records|, now), s.nextId), records, |records|, zip, now)
  {}

  lemma InsertedCount(s: Store, records: seq<Record>, zip: string, now: int)
    requires ValidStore(s) && Unambiguous(s.hotels, records) && DistinctKeys(records) && DistinctPlaces(records)
    ensures Committed(s, records, zip, now).nextId == s.nextId + NewCount(s.hotels, records, |records|)
  {
    SaveKeepsUnique(s, records, zip, now);
  }

  class Database {
    var hotels: Table
    var nextId: nat

    ghost predicate Valid()
      reads this
    {
      ValidStore(Store(hotels, nextId))
    }

    /** Resolve every record against the rows as they are before any change. */
    method ResolveAll(records: seq<Record>) returns (clear: bool, resolved: seq<Option<nat>>, unseen: nat)
      ensures clear <==> Unambiguous(hotels, records)
      ensures clear ==> |resolved| == |records| && unseen == NewCount(hotels, records, |records|)
      ensures clear ==> forall j :: 0 <= j < |records| ==> resolved[j] == Target(hotels, records[j])
    {
      hide *;
      var index := ExistingRows(hotels, records);
      resolved, unseen := [], 0;
      NothingDone(hotels, Store(hotels, nextId), records, "", 0);
      for i := 0 to |records|
        invariant |resolved| == i
        invariant forall j :: 0 <= j < i ==> resolved[j] == Target(hotels, records[j]) && |Matches(hotels, records[j])| <= 1
        invariant unseen == NewCount(hotels, records, i)
      {
        TouchStep(hotels, records, i, 0);
        var res := ResolveExisting(index, records[i], hotels);
        if res.Ambiguous? {
          NotUnambiguous(hotels, records, i);
          clear := false;
          return;
        }
        resolved := resolved + [res.row];
        unseen := unseen + (if res.row.None? then 1 else 0);
      }
      IsUnambiguous(hotels, records);
      clear := true;
    }

    method TouchResolved(records: seq<Record>, resolved: seq<Option<nat>>, now: int) returns (touched: nat)
      requires |resolved| == |records|
      requires forall j :: 0 <= j < |records| ==> resolved[j] == Target(hotels, records[j]) && (resolved[j].Some? ==> resolved[j].value in hotels)
      modifies this`hotels
      ensures hotels == TouchAll(old(hotels), records, |records|, now)
      ensures touched + NewCount(old(hotels), records, |records|) == |records|
    {
      hide *;
      ghost var t := hotels;
      touched := 0;
      NothingDone(t, Store(t, nextId), records, "", now);
      for i := 0 to |records|
        invariant hotels == TouchAll(t, records, i, now)
        invariant touched + NewCount(t, records, i) == i
      {
        TouchStep(t, records, i, now);
        if resolved[i].Some? {
          var id := resolved[i].value;
          hotels := hotels[id := Touch(hotels[id], records[i], now)];
          touched := touched + 1;
        }
      }
    }

    method InsertUnresolved(records: seq<Record>, resolved: seq<Option<nat>>, zip: string, now: int, ghost t: Table)
      returns (inserted: nat)
      requires |resolved| == |records| && forall j :: 0 <= j < |records| ==> resolved[j] == Target(t, records[j])
      modifies this
      ensures Store(hotels, nextId) == InsertAll(t, old(Store(hotels, nextId)), records, |records|, zip, now)
      ensures nextId == old(nextId) + inserted
    {
      hide *;
      ghost var s := Store(hotels, nextId);
      inserted := 0;
      NothingDone(t, s, records, zip, now);
      for i := 0 to |records|
        invariant Store(hotels, nextId) == InsertAll(t, s, records, i, zip, now)
        invariant nextId == s.nextId + inserted
      {
        InsertOneStep(t, s, records, i, zip, now);
        if resolved[i].None? {
          var h := NewRow(records[i], zip, now);
          InsertRowIs(Store(hotels, nextId), h);
          if !Conflict(hotels, h) {
            hotels := hotels[nextId := h];
            nextId := nextId + 1;
            inserted := inserted + 1;
          }
        }
      }
    }

    /** Collapse, resolve and preflight the batch, then touch and insert. A batch with an ambiguous record or
        too many new hotels leaves the table as it was. */
    method SaveResults(scraped: seq<Record>, zip: string, now: int, cap: int) returns (r: Outcome)
      requires Valid()
      modifies this
      ensures Valid()
      ensures r.Quarantined? <==> !Accepted(old(hotels), Collapsed(scraped), cap)
      ensures r.Quarantined? ==> hotels == old(hotels) && nextId == old(nextId)
      ensures r.Saved? ==> Store(hotels, nextId) == Committed(old(Store(hotels, nextId)), Collapsed(scraped), zip, now)
      ensures Store(hotels, nextId) == AfterTransaction(old(Store(hotels, nextId)), Transaction(scraped, zip, now, cap))
      ensures r.Saved? ==> r.inserted == NewCount(old(hotels), Collapsed(scraped), |Collapsed(scraped)|)
      ensures r.Saved? ==> r.touched + r.inserted == |Collapsed(scraped)|
    {
      hide *;
      ghost var start := Store(hotels, nextId);
      ValidIs(this);
      var records := CollapseRecords(scraped);
      CollapsedIsDistinct(scraped);
      AcceptedIs(hotels, records, cap);
      AfterTransactionIs(start, scraped, zip, now, cap);
      var clear, resolved, unseen := ResolveAll(records);
      if !clear || (cap > 0 && unseen > cap) {
        return Quarantined;
      }
      forall i | 0 <= i < |records| && resolved[i].Some? ensures resolved[i].value in hotels {
        TargetInTable(hotels, records, i);
      }
      var touched := TouchResolved(records, resolved, now);
      var inserted := InsertUnresolved(records, resolved, zip, now, start.hotels);
      CommittedIs(start, records, zip, now);
      SaveKeepsUnique(start, records, zip, now);
      InsertedCount(start, records, zip, now);
      ValidIs(this);
      r := Saved(touched, inserted);
    }
  }

  lemma AfterTransactionIs(s: Store, scraped: seq<Record>, zip: string, now: int, cap: int)
    ensures AfterTransaction(s, Transaction(scraped, zip, now, cap)) ==
            if Accepted(s.hotels, Collapsed(scraped), cap) then Committed(s, Collapsed(scraped), zip, now) else s
  {}

  lemma ValidIs(d: Database)
    ensures d.Valid() <==> ValidStore(Store(d.hotels, d.nextId))
  {}

  lemma InsertRowIs(s: Store, h: Hotel)
    ensures InsertRow(s, h) == if Conflict(s.hotels, h) then s else Store(s.hotels[s.nextId := h], s.nextId + 1)
  {}

  // ---- the whole flush --------------------------------------------------------------------

  /** A stored batch is collapsed when it is prepared again for the flush, and once more when it is saved. */
  ghost function FlushedRecords(stored: seq<Record>): seq<Record> {
    Collapsed(Collapsed(stored))
  }

  /** Flushing an outbox batch a second time, at any later moment and with nobody else writing hotels in between,
      is harmless if and only if no record of the batch was displaced. Because a flushed batch has been collapsed
      twice, nothing need be assumed about its CIDs. */
  lemma FlushReplayIff(s: Store, stored: seq<Record>, zip: string, now: int, cap: int, later: int)
    requires ValidStore(s) && Accepted(s.hotels, FlushedRecords(stored), cap) && CommittedLater(FlushedRecords(stored), now)
    ensures Harmless(Committed(s, FlushedRecords(stored), zip, now), FlushedRecords(stored), zip, later, cap) <==>
            forall i :: 0 <= i < |FlushedRecords(stored)| ==> !Displaced(s.hotels, FlushedRecords(stored), i)
  {
    hide *;
    FlushedAreDistinct(stored);
    ReplayHarmlessIff(s, FlushedRecords(stored), zip, now, cap, later);
  }

  lemma FlushedAreDistinct(stored: seq<Record>)
    ensures DistinctIdentities(FlushedRecords(stored))
    ensures DistinctKeys(FlushedRecords(stored)) && DistinctPlaces(FlushedRecords(stored))
  {
    TwiceCollapsedIsDistinct(stored);
  }

  const STORED := Hotel("k", None, Some("old"), {"places"}, map[], map[], "z", 0)
  const RENUMBERED := Record("k", None, Some("new"), 1, {"places"}, map[], map[])
  const NUMBERED_BEFORE := Record("l", None, Some("old"), 1, {"places"}, map[], map[])

  lemma PairPassesCollapse()
    ensures FlushedRecords([RENUMBERED, NUMBERED_BEFORE]) == [RENUMBERED, NUMBERED_BEFORE]
  {
    hide Collapsed;
    CollapseIsIdempotentAfterTwo([RENUMBERED, NUMBERED_BEFORE]);
    assert DistinctIdentities([RENUMBERED, NUMBERED_BEFORE]);
  }

  lemma PairIsDisplaced()
    ensures var t: Table := map[0 := STORED];
            Matches(t, RENUMBERED) == {0} && Matches(t, NUMBERED_BEFORE) == {0} && Displaced(t, [RENUMBERED, NUMBERED_BEFORE], 1)
  {
    var t: Table := map[0 := STORED];
    assert Matches(t, RENUMBERED) == {0} && Matches(t, NUMBERED_BEFORE) == {0};
    OnlyTarget(t, RENUMBERED, 0);
    OnlyTarget(t, NUMBERED_BEFORE, 0);
    hide Matches, Target;
    assert Fresh(t, RENUMBERED, 0);
    assert FirstFresh(t, [RENUMBERED, NUMBERED_BEFORE], 1, 0) == Some(0);
    assert FirstFresh(t, [RENUMBERED, NUMBERED_BEFORE], 2, 0) == Some(0);
  }

  lemma PairIsAccepted()
    ensures var s := Store(map[0 := STORED], 1);
            ValidStore(s) && CommittedLater([RENUMBERED, NUMBERED_BEFORE], 2) && Accepted(s.hotels, [RENUMBERED, NUMBERED_BEFORE], 0)
  {
    PairIsDisplaced();
    hide Matches;
  }

  /** A batch whose replay inserts a second hotel: the row of the second record is found by CID only, and the first
      record, found by key, replaces that CID. */
  lemma ReplayMayInsert()
    ensures HasSource(RENUMBERED) && HasSource(NUMBERED_BEFORE)
    ensures var s := Store(map[0 := STORED], 1);
            var records := FlushedRecords([RENUMBERED, NUMBERED_BEFORE]);
            && ValidStore(s) && CommittedLater(records, 2) && Accepted(s.hotels, records, 0)
            && !Harmless(Committed(s, records, "z", 2), records, "z", 3, 0)
  {
    hide Harmless, Committed, FlushedRecords, ValidStore, CommittedLater, Accepted, Displaced, DistinctIdentities;
    PairPassesCollapse();
    PairIsDisplaced();
    PairIsAccepted();
    FlushReplayIff(Store(map[0 := STORED], 1), [RENUMBERED, NUMBERED_BEFORE], "z", 2, 0, 3);
  }
}
