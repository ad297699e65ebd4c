/** Merging Maps records that share an identity: a dedup key, a place id or a CID. */
module Collapse {
  import opened Options

  datatype Field =
    | OsmId | Address | Rating | RatingsTotal | PriceLevel | Phone | Website | MapsUri
    | PrimaryType | Types | BusinessStatus | Zip | State

  /** A validated record. `fields` and `raw` hold the values that are present; the CID and the collection
      time, which the source keeps inside `raw`, are fields of their own. */
  datatype Record = Record(key: string, place: Option<string>, cid: Option<string>, scrapedAt: int, sources: set<string>,
                           fields: map<Field, string>, raw: map<string, string>)

  /** Validation lets a record pass only with known sources, and with at least one. */
  predicate HasSource(r: Record) {
    r.sources != {} && r.sources <= {"places", "osm"}
  }

  function Restrict(fields: map<Field, string>, keep: set<Field>): map<Field, string> {
    map f | f in fields && f in keep :: fields[f]
  }

  /** The fields a merge may fill in. */
  const MERGED: set<Field> :=
    {OsmId, Address, Rating, RatingsTotal, PriceLevel, Phone, Website, MapsUri, PrimaryType, Types, BusinessStatus}

  /** `current` keeps its key and every value it has; raw values of `incoming` win. */
  function Merge(current: Record, incoming: Record): Record {
    current.(
      place := OrElse(current.place, incoming.place),
      cid := OrElse(incoming.cid, current.cid),
      scrapedAt := incoming.scrapedAt,
      sources := current.sources + incoming.sources,
      fields := Restrict(incoming.fields, MERGED) + current.fields,
      raw := current.raw + incoming.raw)
  }

  /** The output list and the three indexes into it. */
  datatype Working = Working(out: seq<Record>, byKey: map<string, nat>, byPlace: map<string, nat>, byCid: map<string, nat>)

  const EMPTY := Working([], map[], map[], map[])

  function Find(index: map<string, nat>, k: Option<string>): Option<nat> {
    if k.Some? && k.value in index then Some(index[k.value]) else None
  }

  /** A place id is looked up before a CID, and a CID before a key. */
  function Existing(w: Working, row: Record): Option<nat> {
    OrElse(Find(w.byPlace, row.place), OrElse(Find(w.byCid, row.cid), Find(w.byKey, Some(row.key))))
  }

  function Register(index: map<string, nat>, k: Option<string>, at: nat): map<string, nat> {
    if k.Some? then index[k.value := at] else index
  }

  ghost predicate InBounds(w: Working) {
    && (forall k :: k in w.byKey ==> w.byKey[k] < |w.out|)
    && (forall k :: k in w.byPlace ==> w.byPlace[k] < |w.out|)
    && (forall k :: k in w.byCid ==> w.byCid[k] < |w.out|)
  }

  /** Index every identity of `row` at position `at` of the output. */
  function Enter(w: Working, row: Record, at: nat, out: seq<Record>): Working {
    Working(out, Register(w.byKey, Some(row.key), at), Register(w.byPlace, row.place, at), Register(w.byCid, row.cid, at))
  }

  function Absorb(w: Working, row: Record): (r: Working)
    requires InBounds(w)
    ensures InBounds(r)
  {
    var found := Existing(w, row);
    if found.Some? then Enter(w, row, found.value, w.out[found.value := Merge(w.out[found.value], row)])
    else Enter(w, row, |w.out|, w.out + [row])
  }

  function AbsorbAll(rows: seq<Record>): (r: Working)
    ensures InBounds(r)
  {
    if rows == [] then EMPTY else Absorb(AbsorbAll(rows[..|rows| - 1]), rows[|rows| - 1])
  }

  function Collapsed(rows: seq<Record>): seq<Record> {
    AbsorbAll(rows).out
  }

  method CollapseRecords(rows: seq<Record>) returns (output: seq<Record>)
    ensures output == Collapsed(rows)
  {
    var w := EMPTY;
    for i := 0 to |rows|
      invariant InBounds(w) && w == AbsorbAll(rows[..i])
    {
      assert rows[..i + 1][..i] == rows[..i];
      w := Absorb(w, rows[i]);
    }
    assert rows[..|rows|] == rows;
    output := w.out;
  }

  // ---- what the output guarantees -------------------------------------------

  ghost predicate DistinctKeys(rows: seq<Record>) {
    forall i, j :: 0 <= i < j < |rows| ==> rows[i].key != rows[j].key
  }

  ghost predicate DistinctPlaces(rows: seq<Record>) {
    forall i, j :: 0 <= i < j < |rows| && rows[i].place.Some? ==> rows[i].place != rows[j].place
  }

  ghost predicate DistinctCids(rows: seq<Record>) {
    forall i, j :: 0 <= i < j < |rows| && rows[i].cid.Some? ==> rows[i].cid != rows[j].cid
  }

  /** Every output key has been seen, and every output place id is indexed at its record. */
  ghost predicate Indexed(w: Working) {
    && (forall i :: 0 <= i < |w.out| ==> w.out[i].key in w.byKey)
    && (forall i :: 0 <= i < |w.out| && w.out[i].place.Some? ==> Find(w.byPlace, w.out[i].place) == Some(i))
  }

  lemma UnmatchedIsNew(w: Working, row: Record)
    ensures Existing(w, row).None? <==> row.key !in w.byKey && Find(w.byPlace, row.place).None? && Find(w.byCid, row.cid).None?
    ensures Find(w.byPlace, row.place).Some? ==> Existing(w, row) == Find(w.byPlace, row.place)
    ensures InBounds(w) && Existing(w, row).Some? ==> Existing(w, row).value < |w.out|
  {}

  lemma KeysStaySeen(w: Working, row: Record)
    requires InBounds(w) && Indexed(w) && DistinctKeys(w.out)
    ensures var r := Absorb(w, row);
            DistinctKeys(r.out) && forall i :: 0 <= i < |r.out| ==> r.out[i].key in r.byKey
  {
    UnmatchedIsNew(w, row);
    hide Existing, Find;
    var r := Absorb(w, row);
    forall i | 0 <= i < |w.out| ensures r.out[i].key == w.out[i].key && w.out[i].key in w.byKey {}
  }

  lemma PlacesStayIndexed(w: Working, row: Record)
    requires InBounds(w) && Indexed(w)
    ensures var r := Absorb(w, row);
            forall i :: 0 <= i < |r.out| && r.out[i].place.Some? ==> Find(r.byPlace, r.out[i].place) == Some(i)
  {
    UnmatchedIsNew(w, row);
    var r := Absorb(w, row);
    hide Existing;
    forall i | 0 <= i < |r.out| && r.out[i].place.Some? ensures Find(r.byPlace, r.out[i].place) == Some(i) {
      assert i < |w.out| && w.out[i].place.Some? ==> Find(w.byPlace, w.out[i].place) == Some(i);
    }
  }

  lemma IndexedPlacesDistinct(w: Working)
    requires Indexed(w)
    ensures DistinctPlaces(w.out)
  {
    forall i, j | 0 <= i < j < |w.out| && w.out[i].place.Some? ensures w.out[i].place != w.out[j].place {
      assert Find(w.byPlace, w.out[i].place) == Some(i);
      assert w.out[j].place.Some? ==> Find(w.byPlace, w.out[j].place) == Some(j);
    }
  }

  lemma {:induction false} AbsorbAllIndexed(rows: seq<Record>)
    ensures Indexed(AbsorbAll(rows)) && DistinctKeys(Collapsed(rows))
  {
    if rows != [] {
      hide Absorb, Find;
      AbsorbAllIndexed(rows[..|rows| - 1]);
      KeysStaySeen(AbsorbAll(rows[..|rows| - 1]), rows[|rows| - 1]);
      PlacesStayIndexed(AbsorbAll(rows[..|rows| - 1]), rows[|rows| - 1]);
    }
  }

  /** One pass leaves dedup keys and place ids pairwise distinct. */
  lemma CollapsedIsDistinct(rows: seq<Record>)
    ensures DistinctKeys(Collapsed(rows)) && DistinctPlaces(Collapsed(rows))
  {
    AbsorbAllIndexed(rows);
    IndexedPlacesDistinct(AbsorbAll(rows));
  }

  lemma NothingAbsorbed()
    ensures AbsorbAll([]) == EMPTY
  {}

  lemma MergeCid(a: Record, b: Record)
    ensures Merge(a, b).cid == OrElse(b.cid, a.cid)
  {}

  lemma AbsorbOne(rows: seq<Record>, row: Record)
    ensures AbsorbAll(rows + [row]) == Absorb(AbsorbAll(rows), row)
  {
    assert (rows + [row])[..|rows|] == rows;
  }

  const PLACED := Record("a", Some("p"), None, 0, {"places"}, map[], map[])
  const NUMBERED := Record("b", None, Some("c"), 0, {"places"}, map[], map[])
  const BOTH := Record("c", Some("p"), Some("c"), 0, {"places"}, map[], map[])

  lemma FirstTwoStayApart()
    ensures AbsorbAll([PLACED, NUMBERED]) ==
            Working([PLACED, NUMBERED], map["a" := 0, "b" := 1], map["p" := 0], map["c" := 1])
  {
    AbsorbOne([], PLACED);
    AbsorbOne([PLACED], NUMBERED);
    assert [] + [PLACED] == [PLACED] && [PLACED] + [NUMBERED] == [PLACED, NUMBERED];
    NothingAbsorbed();
    hide AbsorbAll, InBounds;
    assert AbsorbAll([PLACED]) == Working([PLACED], map["a" := 0], map["p" := 0], map[]);
  }

  lemma ThirdJoinsFirst(w: Working)
    requires w == Working([PLACED, NUMBERED], map["a" := 0, "b" := 1], map["p" := 0], map["c" := 1]) && InBounds(w)
    ensures Absorb(w, BOTH).out == [Merge(PLACED, BOTH), NUMBERED]
  {
    hide Merge, InBounds;
    assert Existing(w, BOTH) == Some(0);
  }

  /** One pass may leave two records with one CID: the third record joins the first by place and carries the
      second one's CID over. */
  lemma OnePassMayShareCid()
    ensures HasSource(PLACED) && HasSource(NUMBERED) && HasSource(BOTH)
    ensures !DistinctCids(Collapsed([PLACED, NUMBERED, BOTH]))
  {
    hide AbsorbAll, Absorb, Merge, InBounds, DistinctCids;
    FirstTwoStayApart();
    AbsorbOne([PLACED, NUMBERED], BOTH);
    assert [PLACED, NUMBERED] + [BOTH] == [PLACED, NUMBERED, BOTH];
    MergeCid(PLACED, BOTH);
    ThirdJoinsFirst(AbsorbAll([PLACED, NUMBERED]));
    SharedCid([Merge(PLACED, BOTH), NUMBERED]);
  }

  lemma SharedCid(out: seq<Record>)
    requires |out| == 2 && out[0].cid.Some? && out[0].cid == out[1].cid
    ensures !DistinctCids(out)
  {}

  // ---- a second pass makes CIDs distinct too ----------------------------------

  /** None of the rows still to come has a key or a place id seen before. */
  ghost predicate NewIdentities(w: Working, rows: seq<Record>, n: nat) {
    forall i :: n <= i < |rows| ==> rows[i].key !in w.byKey && Find(w.byPlace, rows[i].place).None?
  }

  /** Each CID is indexed at the one output record that carries it. */
  ghost predicate CidsIndexed(w: Working) {
    && (forall i :: 0 <= i < |w.out| && w.out[i].cid.Some? ==> Find(w.byCid, w.out[i].cid) == Some(i))
    && (forall c :: c in w.byCid ==> w.byCid[c] < |w.out| && w.out[w.byCid[c]].cid == Some(c))
  }

  lemma StillNew(w: Working, rows: seq<Record>, n: nat)
    requires InBounds(w) && n < |rows| && DistinctKeys(rows) && DistinctPlaces(rows) && NewIdentities(w, rows, n)
    ensures NewIdentities(Absorb(w, rows[n]), rows, n + 1)
    ensures Existing(w, rows[n]) == Find(w.byCid, rows[n].cid)
  {}

  lemma AbsorbCids(w: Working, row: Record)
    requires InBounds(w)
    ensures var (r, found) := (Absorb(w, row), Existing(w, row));
            && |r.out| == (if found.Some? then |w.out| else |w.out| + 1)
            && r.byCid == Register(w.byCid, row.cid, if found.Some? then found.value else |w.out|)
            && forall i :: 0 <= i < |r.out| ==>
                 r.out[i].cid == (if found == Some(i) then OrElse(row.cid, w.out[i].cid) else if i < |w.out| then w.out[i].cid else row.cid)
  {
    UnmatchedIsNew(w, row);
    hide Existing, InBounds;
  }

  lemma CidsStayIndexed(w: Working, row: Record)
    requires InBounds(w) && CidsIndexed(w) && Existing(w, row) == Find(w.byCid, row.cid)
    ensures CidsIndexed(Absorb(w, row))
  {
    hide Existing, InBounds;
    AbsorbCids(w, row);
    var r := Absorb(w, row);
    hide Absorb;
    if Find(w.byCid, row.cid).Some? {
      var at := w.byCid[row.cid.value];
      assert w.out[at].cid == row.cid;
      assert r.byCid == w.byCid;
      assert forall i :: 0 <= i < |w.out| ==> r.out[i].cid == w.out[i].cid;
    }
  }

  lemma {:induction false} SecondPassAll(rows: seq<Record>, n: nat)
    requires n <= |rows| && DistinctKeys(rows) && DistinctPlaces(rows)
    ensures NewIdentities(AbsorbAll(rows[..n]), rows, n) && CidsIndexed(AbsorbAll(rows[..n]))
  {
    hide Absorb, Existing, NewIdentities, CidsIndexed;
    if n == 0 {
      NothingYet(rows);
    } else {
      SecondPassAll(rows, n - 1);
      var w := AbsorbAll(rows[..n - 1]);
      StillNew(w, rows, n - 1);
      CidsStayIndexed(w, rows[n - 1]);
      assert rows[..n][..n - 1] == rows[..n - 1];
    }
  }

  /** A pass over records with distinct keys and places leaves distinct CIDs. */
  lemma CollapsedCidsDistinct(rows: seq<Record>)
    requires DistinctKeys(rows) && DistinctPlaces(rows)
    ensures DistinctCids(Collapsed(rows))
  {
    SecondPassAll(rows, |rows|);
    assert rows[..|rows|] == rows;
    var w := AbsorbAll(rows);
    forall i, j | 0 <= i < j < |w.out| && w.out[i].cid.Some? ensures w.out[i].cid != w.out[j].cid {
      assert Find(w.byCid, w.out[i].cid) == Some(i);
      assert w.out[j].cid.Some? ==> Find(w.byCid, w.out[j].cid) == Some(j);
    }
  }

  ghost predicate DistinctIdentities(rows: seq<Record>) {
    DistinctKeys(rows) && DistinctPlaces(rows) && DistinctCids(rows)
  }

  /** Two passes leave all three identities distinct. */
  lemma TwiceCollapsedIsDistinct(rows: seq<Record>)
    ensures DistinctIdentities(Collapsed(Collapsed(rows)))
  {
    CollapsedIsDistinct(rows);
    CollapsedIsDistinct(Collapsed(rows));
    CollapsedCidsDistinct(Collapsed(rows));
  }

  ghost predicate NewCids(w: Working, rows: seq<Record>, n: nat) {
    forall i :: n <= i < |rows| ==> Find(w.byCid, rows[i].cid).None?
  }

  lemma NothingYet(rows: seq<Record>)
    ensures AbsorbAll(rows[..0]) == EMPTY && NewIdentities(EMPTY, rows, 0) && NewCids(EMPTY, rows, 0) && CidsIndexed(EMPTY)
  {}

  lemma {:induction false} DistinctIsFixed(rows: seq<Record>, n: nat)
    requires n <= |rows| && DistinctIdentities(rows)
    ensures AbsorbAll(rows[..n]).out == rows[..n]
    ensures NewIdentities(AbsorbAll(rows[..n]), rows, n) && NewCids(AbsorbAll(rows[..n]), rows, n)
  {
    hide Absorb, NewIdentities, NewCids;
    if n == 0 {
      NothingYet(rows);
    } else {
      DistinctIsFixed(rows, n - 1);
      var w, row := AbsorbAll(rows[..n - 1]), rows[n - 1];
      assert rows[..n] == rows[..n - 1] + [row];
      AbsorbOne(rows[..n - 1], row);
      DistinctStep(w, rows, n - 1);
    }
  }

  lemma DistinctStep(w: Working, rows: seq<Record>, n: nat)
    requires InBounds(w) && n < |rows| && DistinctIdentities(rows)
    requires w.out == rows[..n] && NewIdentities(w, rows, n) && NewCids(w, rows, n)
    ensures Absorb(w, rows[n]).out == rows[..n] + [rows[n]]
    ensures NewIdentities(Absorb(w, rows[n]), rows, n + 1) && NewCids(Absorb(w, rows[n]), rows, n + 1)
  {
    StillNew(w, rows, n);
    assert Existing(w, rows[n]).None?;
  }

  /** Records with distinct identities pass through unchanged, so from the second pass on nothing changes. */
  lemma CollapseIsIdempotentAfterTwo(rows: seq<Record>)
    ensures Collapsed(Collapsed(Collapsed(rows))) == Collapsed(Collapsed(rows))
    ensures DistinctIdentities(rows) ==> Collapsed(rows) == rows
  {
    TwiceCollapsedIsDistinct(rows);
    var twice := Collapsed(Collapsed(rows));
    DistinctIsFixed(twice, |twice|);
    assert twice[..|twice|] == twice;
    if DistinctIdentities(rows) {
      DistinctIsFixed(rows, |rows|);
      assert rows[..|rows|] == rows;
    }
  }

  // ---- what a collapsed record is made of -----------------------------------------------------

  function PlaceOf(r: Record): Option<string> { r.place }
  function CidOf(r: Record): Option<string> { r.cid }
  function KeyOf(r: Record): Option<string> { Some(r.key) }

  /** The latest of the first `n` records with this identity. */
  function Latest(rows: seq<Record>, n: nat, identity: Record -> Option<string>, k: Option<string>): (m: Option<nat>)
    requires n <= |rows|
    ensures m.Some? ==> m.value < n
  {
    if n == 0 || k.None? then None
    else if identity(rows[n - 1]) == k then Some(n - 1)
    else Latest(rows, n - 1, identity, k)
  }

  /** The earlier record that a record is found by: the latest with its place id, else with its CID, else with its key. */
  function FoundBy(rows: seq<Record>, n: nat): (m: Option<nat>)
    requires n < |rows|
    ensures m.Some? ==> m.value < n
  {
    var r := rows[n];
    var byPlace, byCid := Latest(rows, n, PlaceOf, r.place), Latest(rows, n, CidOf, r.cid);
    if byPlace.Some? then byPlace else if byCid.Some? then byCid else Latest(rows, n, KeyOf, Some(r.key))
  }

  /** How many of the first `n` records are found by none before them. */
  function Groups(rows: seq<Record>, n: nat): nat
    requires n <= |rows|
  {
    if n == 0 then 0 else Groups(rows, n - 1) + (if FoundBy(rows, n - 1).None? then 1 else 0)
  }

  /** The group of a record, by the records alone: that of the record it is found by, or a new one. */
  function GroupOf(rows: seq<Record>, n: nat): nat
    requires n < |rows|
  {
    match FoundBy(rows, n)
    case None => Groups(rows, n)
    case Some(m) => GroupOf(rows, m)
  }

  /** The members of a group among the first `n` records, in order. */
  function Group(rows: seq<Record>, n: nat, g: nat): seq<Record>
    requires n <= |rows|
  {
    if n == 0 then [] else Group(rows, n - 1, g) + (if GroupOf(rows, n - 1) == g then [rows[n - 1]] else [])
  }

  /** The value is the first one that is known, and unknown only if none is. */
  ghost predicate FirstKnown<T(!new)>(v: Option<T>, group: seq<Record>, get: Record -> Option<T>) {
    if v.None? then forall i :: 0 <= i < |group| ==> get(group[i]).None?
    else exists i :: 0 <= i < |group| && get(group[i]) == v && forall k :: 0 <= k < i ==> get(group[k]).None?
  }

  ghost predicate LastKnown<T(!new)>(v: Option<T>, group: seq<Record>, get: Record -> Option<T>) {
    if v.None? then forall i :: 0 <= i < |group| ==> get(group[i]).None?
    else exists i :: 0 <= i < |group| && get(group[i]) == v && forall k :: i < k < |group| ==> get(group[k]).None?
  }

  function FieldOf(f: Field): Record -> Option<string> { (r: Record) => Known(r.fields, f) }
  function RawOf(k: string): Record -> Option<string> { (r: Record) => Known(r.raw, k) }

  /** The record that a group comes to: the key and location of its first member, every other field and the place id as
      first known, the CID and raw values as last known, the last time, and all sources. */
  ghost predicate IsMerge(r: Record, group: seq<Record>) {
    && group != [] && r.key == group[0].key && r.scrapedAt == group[|group| - 1].scrapedAt
    && FirstKnown(r.place, group, PlaceOf) && LastKnown(r.cid, group, CidOf)
    && (forall f :: f in {Zip, State} ==> Known(r.fields, f) == Known(group[0].fields, f))
    && (forall f :: f in {OsmId, Address, Rating, RatingsTotal, PriceLevel, Phone, Website, MapsUri, PrimaryType, Types, BusinessStatus} ==>
          FirstKnown(Known(r.fields, f), group, FieldOf(f)))
    && (forall k :: LastKnown(Known(r.raw, k), group, RawOf(k)))
    && (forall s :: s in r.sources <==> exists i :: 0 <= i < |group| && s in group[i].sources)
  }

  lemma FirstKnownOne<T(!new)>(r: Record, get: Record -> Option<T>)
    ensures FirstKnown(get(r), [r], get) && LastKnown(get(r), [r], get)
  {
    assert [r][0] == r;
  }

  lemma FirstKnownMore<T(!new)>(v: Option<T>, group: seq<Record>, r: Record, get: Record -> Option<T>)
    requires FirstKnown(v, group, get)
    ensures FirstKnown(if v.Some? then v else get(r), group + [r], get)
  {
    var all := group + [r];
    assert all[|group|] == r && forall i :: 0 <= i < |group| ==> all[i] == group[i];
  }

  lemma LastKnownMore<T(!new)>(v: Option<T>, group: seq<Record>, r: Record, get: Record -> Option<T>)
    requires LastKnown(v, group, get)
    ensures LastKnown(if get(r).Some? then get(r) else v, group + [r], get)
  {
    var all := group + [r];
    assert all[|group|] == r && forall i :: 0 <= i < |group| ==> all[i] == group[i];
  }

  lemma MergeOfOne(r: Record)
    ensures IsMerge(r, [r])
  {
    hide FirstKnown, LastKnown, Known;
    assert [r][0] == r;
    FirstKnownOne(r, PlaceOf);
    FirstKnownOne(r, CidOf);
    forall f ensures FirstKnown(Known(r.fields, f), [r], FieldOf(f)) {
      FirstKnownOne(r, FieldOf(f));
    }
    forall k ensures LastKnown(Known(r.raw, k), [r], RawOf(k)) {
      FirstKnownOne(r, RawOf(k));
    }
  }

  lemma MergedValues(a: Record, b: Record)
    ensures var r := Merge(a, b);
            && r.key == a.key && r.scrapedAt == b.scrapedAt && r.sources == a.sources + b.sources
            && r.place == (if a.place.Some? then a.place else b.place) && r.cid == (if b.cid.Some? then b.cid else a.cid)
            && (forall k :: Known(r.raw, k) == if Known(b.raw, k).Some? then Known(b.raw, k) else Known(a.raw, k))
  {
    hide Restrict, MERGED;
  }

  lemma MergedFields(a: Record, b: Record, f: Field)
    ensures Known(Merge(a, b).fields, f) ==
            if Known(a.fields, f).Some? || f in {Zip, State} then Known(a.fields, f) else Known(b.fields, f)
  {
    MergedField(f);
    hide MERGED;
  }

  lemma MergedField(f: Field)
    ensures f in MERGED <==> f !in {Zip, State}
  {}

  lemma MergeOfMore(a: Record, group: seq<Record>, b: Record)
    requires IsMerge(a, group)
    ensures IsMerge(Merge(a, b), group + [b])
  {
    hide FirstKnown, LastKnown, Known, Merge;
    var all, r := group + [b], Merge(a, b);
    assert all[|group|] == b && forall i :: 0 <= i < |group| ==> all[i] == group[i];
    MergedValues(a, b);
    FirstKnownMore(a.place, group, b, PlaceOf);
    LastKnownMore(a.cid, group, b, CidOf);
    forall f ensures Known(r.fields, f) == if Known(a.fields, f).Some? || f in {Zip, State} then Known(a.fields, f) else Known(b.fields, f) {
      MergedFields(a, b, f);
    }
    forall f | f in {OsmId, Address, Rating, RatingsTotal, PriceLevel, Phone, Website, MapsUri, PrimaryType, Types, BusinessStatus}
      ensures FirstKnown(Known(r.fields, f), all, FieldOf(f))
    {
      FirstKnownMore(Known(a.fields, f), group, b, FieldOf(f));
    }
    forall k ensures LastKnown(Known(r.raw, k), all, RawOf(k)) {
      LastKnownMore(Known(a.raw, k), group, b, RawOf(k));
    }
  }

  /** The index says for each identity which group its latest record is in. */
  ghost predicate IndexFollows(index: map<string, nat>, rows: seq<Record>, n: nat, identity: Record -> Option<string>)
    requires n <= |rows|
  {
    forall k :: Find(index, k) == match Latest(rows, n, identity, k) case None => None case Some(m) => Some(GroupOf(rows, m))
  }

  lemma IndexKeepsUp(index: map<string, nat>, rows: seq<Record>, n: nat, identity: Record -> Option<string>)
    requires n < |rows| && IndexFollows(index, rows, n, identity)
    ensures IndexFollows(Register(index, identity(rows[n]), GroupOf(rows, n)), rows, n + 1, identity)
  {
    hide GroupOf;
    var after := Register(index, identity(rows[n]), GroupOf(rows, n));
    forall k ensures Find(after, k) == match Latest(rows, n + 1, identity, k) case None => None case Some(m) => Some(GroupOf(rows, m)) {
      assert Find(index, k) == match Latest(rows, n, identity, k) case None => None case Some(m) => Some(GroupOf(rows, m));
    }
  }

  lemma {:induction false} GroupBelow(rows: seq<Record>, n: nat, m: nat)
    requires m < n <= |rows|
    ensures GroupOf(rows, m) < Groups(rows, n)
    decreases n, m
  {
    hide FoundBy;
    if m < n - 1 {
      GroupBelow(rows, n - 1, m);
    } else if FoundBy(rows, m).Some? {
      GroupBelow(rows, m, FoundBy(rows, m).value);
    }
  }

  lemma {:induction false} NoMembers(rows: seq<Record>, n: nat, g: nat)
    requires n <= |rows| && g >= Groups(rows, n)
    ensures Group(rows, n, g) == []
  {
    hide FoundBy, GroupOf;
    if n > 0 {
      NoMembers(rows, n - 1, g);
      GroupBelow(rows, n, n - 1);
    }
  }

  ghost predicate Follows(w: Working, rows: seq<Record>, n: nat)
    requires n <= |rows|
  {
    && InBounds(w) && |w.out| == Groups(rows, n)
    && IndexFollows(w.byKey, rows, n, KeyOf) && IndexFollows(w.byPlace, rows, n, PlaceOf) && IndexFollows(w.byCid, rows, n, CidOf)
    && (forall g :: 0 <= g < |w.out| ==> IsMerge(w.out[g], Group(rows, n, g)))
  }

  lemma ExistingIs(w: Working, rows: seq<Record>, n: nat)
    requires n < |rows| && Follows(w, rows, n)
    ensures Existing(w, rows[n]) == match FoundBy(rows, n) case None => None case Some(m) => Some(GroupOf(rows, m))
  {
    hide IsMerge, Find, Latest, GroupOf;
  }

  lemma AbsorbFollows(w: Working, rows: seq<Record>, n: nat)
    requires n < |rows| && Follows(w, rows, n)
    ensures Follows(Absorb(w, rows[n]), rows, n + 1)
  {
    var after, g := Absorb(w, rows[n]), GroupOf(rows, n);
    ExistingIs(w, rows, n);
    IndexKeepsUp(w.byKey, rows, n, KeyOf);
    IndexKeepsUp(w.byPlace, rows, n, PlaceOf);
    IndexKeepsUp(w.byCid, rows, n, CidOf);
    NoMembers(rows, n, |w.out|);
    MergeOfOne(rows[n]);
    hide IsMerge, IndexFollows, FoundBy, Existing, Merge;
    GroupBelow(rows, n + 1, n);
    if g < |w.out| {
      MergeOfMore(w.out[g], Group(rows, n, g), rows[n]);
    }
    assert [] + [rows[n]] == [rows[n]];
    forall h | 0 <= h < |after.out| ensures IsMerge(after.out[h], Group(rows, n + 1, h)) {
      assert h != g ==> Group(rows, n + 1, h) == Group(rows, n, h);
    }
  }

  lemma NothingFollows(rows: seq<Record>)
    ensures Follows(EMPTY, rows, 0)
  {}

  lemma {:induction false} AbsorbAllFollows(rows: seq<Record>, n: nat)
    requires n <= |rows|
    ensures Follows(AbsorbAll(rows[..n]), rows, n)
  {
    hide Follows, Absorb;
    if n == 0 {
      NothingFollows(rows);
    } else {
      AbsorbAllFollows(rows, n - 1);
      AbsorbFollows(AbsorbAll(rows[..n - 1]), rows, n - 1);
      assert rows[..n][..n - 1] == rows[..n - 1];
    }
  }

  /** Nothing is lost: the output is one record for each group, in the order in which the groups appear, made of all
      members of the group. Which records belong together depends on the records alone. */
  lemma CollapsedIsGrouping(rows: seq<Record>)
    ensures |Collapsed(rows)| == Groups(rows, |rows|)
    ensures forall g :: 0 <= g < |Collapsed(rows)| ==> IsMerge(Collapsed(rows)[g], Group(rows, |rows|, g))
    ensures forall i :: 0 <= i < |rows| ==> GroupOf(rows, i) < |Collapsed(rows)|
  {
    AbsorbAllFollows(rows, |rows|);
    assert rows[..|rows|] == rows;
    hide IsMerge, AbsorbAll, IndexFollows, GroupOf, Group, Groups;
    forall i | 0 <= i < |rows| ensures GroupOf(rows, i) < Groups(rows, |rows|) {
      GroupBelow(rows, |rows|, i);
    }
  }
}
