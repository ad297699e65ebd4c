/** The general-business intake: batches are written as segments of one upsert statement each, inside a single
    transaction, and a crash before the local acknowledgement replays the whole batch. */
module Upsert {
  import opened Options

  datatype Identity = Identity(source: string, key: string)

  datatype Column = Address | Zip | State | Lat | Lng | Phone | Website

  datatype Value = Text(text: string) | Number(number: real)

  /** A validated record; absent columns are NULL, absent evidence may also be empty. */
  datatype Record = Record(id: Identity, name: string, category: string, url: string, columns: map<Column, Value>,
                           queryZip: Option<string>, evidence: Option<string>)

  /** A record as it is sent to the table. */
  datatype Item = Item(id: Identity, name: string, category: string, url: string, columns: map<Column, Value>,
                       raw: map<string, string>)

  datatype Row = Row(name: string, category: string, url: string, columns: map<Column, Value>, raw: map<string, string>,
                     firstSeen: int, lastSeen: int)

  type Table = map<Identity, Row>

  const COLLECTED := "collected_at"

  function ItemOf(r: Record, runId: string, collected: string): Item {
    var base := map["scraped_via" := r.id.source, "run_id" := runId, COLLECTED := collected, "source_url" := r.url,
                    "ownership_verified" := "false"];
    var zipped := if r.queryZip.Some? then base["query_zip" := r.queryZip.value] else base;
    var enriched := if r.evidence.Some? then zipped["website_enrichment" := r.evidence.value] else zipped;
    Item(r.id, r.name, r.category, r.url, r.columns,
         if r.id.source == "osm" then enriched["license" := "ODbL-1.0"] else enriched)
  }

  function ItemsOf(records: seq<Record>, runId: string, collected: string): (items: seq<Item>)
    ensures |items| == |records|
    ensures forall i :: 0 <= i < |items| ==> items[i] == ItemOf(records[i], runId, collected)
  {
    if records == [] then []
    else ItemsOf(records[..|records| - 1], runId, collected) + [ItemOf(records[|records| - 1], runId, collected)]
  }

  // ---- the single upsert --------------------------------------------------------------

  /** The stored value stays; a stored empty string counts as missing in the three text columns that NULLIF covers. */
  predicate Kept(columns: map<Column, Value>, c: Column) {
    c in columns && !((c.Address? || c.Phone? || c.Website?) && columns[c] == Text(""))
  }

  function Coalesced(old_: map<Column, Value>, new_: map<Column, Value>): map<Column, Value> {
    map c | c in old_.Keys + new_.Keys && (Kept(old_, c) || c in new_) :: if Kept(old_, c) then old_[c] else new_[c]
  }

  function Lookup(t: Table, k: Identity): Option<Row> {
    if k in t then Some(t[k]) else None
  }

  function Written(stored: Option<Row>, x: Item, now: int): Row {
    match stored
    case None => Row(x.name, x.category, x.url, x.columns, x.raw, now, now)
    case Some(r) => r.(columns := Coalesced(r.columns, x.columns), raw := r.raw + x.raw, lastSeen := now)
  }

  function UpsertOne(t: Table, x: Item, now: int): Table {
    t[x.id := Written(Lookup(t, x.id), x, now)]
  }

  /** Record by record, in order. */
  function UpsertAll(t: Table, items: seq<Item>, now: int): Table {
    if items == [] then t else UpsertOne(UpsertAll(t, items[..|items| - 1], now), items[|items| - 1], now)
  }

  // ---- one statement ----------------------------------------------------------------------

  predicate DistinctIds(items: seq<Item>) {
    forall i, j :: 0 <= i < j < |items| ==> items[i].id != items[j].id
  }

  function Ids(items: seq<Item>): set<Identity> {
    set x | x in items :: x.id
  }

  function ItemFor(items: seq<Item>, k: Identity): Item
    requires k in Ids(items)
  {
    var n := |items| - 1;
    if items[n].id == k then items[n]
    else
      assert exists x :: x in items[..n] && x.id == k by {
        var x :| x in items && x.id == k;
        assert items == items[..n] + [items[n]];
      }
      ItemFor(items[..n], k)
  }

  /** One statement reads every stored row before it writes any; it fails when it would touch a row twice. It returns
      one id for each item. */
  function Statement(t: Table, items: seq<Item>, now: int): Option<(Table, nat)> {
    if !DistinctIds(items) then None
    else
      Some((map k | k in t.Keys + Ids(items) :: if k in Ids(items) then Written(Lookup(t, k), ItemFor(items, k), now) else t[k],
            |items|))
  }

  function Matching(items: seq<Item>, k: Identity): seq<Item> {
    if items == [] then []
    else
      var x, rest := items[|items| - 1], Matching(items[..|items| - 1], k);
      if x.id == k then rest + [x] else rest
  }

  function Applied(stored: Option<Row>, items: seq<Item>, now: int): Option<Row> {
    if items == [] then stored
    else Some(Written(Applied(stored, items[..|items| - 1], now), items[|items| - 1], now))
  }

  /** Every row of the fold depends only on its own items. */
  lemma {:induction false} RowOfFold(t: Table, items: seq<Item>, k: Identity, now: int)
    ensures Lookup(UpsertAll(t, items, now), k) == Applied(Lookup(t, k), Matching(items, k), now)
  {
    if items != [] {
      var before, x := items[..|items| - 1], items[|items| - 1];
      RowOfFold(t, before, k, now);
      if x.id == k {
        var ms := Matching(items, k);
        assert ms[..|ms| - 1] == Matching(before, k);
      }
    }
  }

  lemma {:induction false} MatchingDistinct(items: seq<Item>, k: Identity)
    requires DistinctIds(items)
    ensures Matching(items, k) == if k in Ids(items) then [ItemFor(items, k)] else []
  {
    if items != [] {
      var n := |items| - 1;
      var before, x := items[..n], items[n];
      MatchingDistinct(before, k);
      assert items == before + [x];
      assert x in items;
      assert forall y :: y in items <==> y in before || y == x;
      assert k in Ids(items) <==> k in Ids(before) || k == x.id by {
        if k in Ids(before) {
          var y :| y in before && y.id == k;
          assert y in items;
        }
      }
    }
  }

  lemma SameTable(a: Table, b: Table)
    requires forall k :: Lookup(a, k) == Lookup(b, k)
    ensures a == b
  {
    forall k ensures k in a <==> k in b {
      assert Lookup(a, k) == Lookup(b, k);
    }
    forall k | k in a ensures a[k] == b[k] {
      assert Lookup(a, k) == Lookup(b, k);
    }
  }

  /** A statement over distinct identities is the record-by-record fold. */
  lemma StatementIsFold(t: Table, items: seq<Item>, now: int)
    requires DistinctIds(items)
    ensures Statement(t, items, now) == Some((UpsertAll(t, items, now), |items|))
  {
    var r := Statement(t, items, now).value.0;
    forall k ensures Lookup(r, k) == Lookup(UpsertAll(t, items, now), k) {
      StatementRow(t, items, k, now);
    }
    hide *;
    SameTable(r, UpsertAll(t, items, now));
  }

  lemma StatementRow(t: Table, items: seq<Item>, k: Identity, now: int)
    requires DistinctIds(items)
    ensures Lookup(Statement(t, items, now).value.0, k) == Lookup(UpsertAll(t, items, now), k)
  {
    RowOfFold(t, items, k, now);
    MatchingDistinct(items, k);
    if k in Ids(items) {
      var x := ItemFor(items, k);
      assert [x][..0] == [];
      assert Applied(Lookup(t, k), [x], now) == Some(Written(Lookup(t, k), x, now));
    }
  }

  lemma {:induction false} FoldAppend(t: Table, a: seq<Item>, b: seq<Item>, now: int)
    ensures UpsertAll(t, a + b, now) == UpsertAll(UpsertAll(t, a, now), b, now)
  {
    if b == [] {
      assert a + b == a;
    } else {
      FoldAppend(t, a, b[..|b| - 1], now);
      assert (a + b)[..|a + b| - 1] == a + b[..|b| - 1];
    }
  }

  // ---- segments ---------------------------------------------------------------------------

  function Concat(segments: seq<seq<Item>>): seq<Item> {
    if segments == [] then [] else Concat(segments[..|segments| - 1]) + segments[|segments| - 1]
  }

  /** No segment is empty or repeats an identity, and a segment ends only where the next record would repeat one. */
  ghost predicate IsSegmentation(segments: seq<seq<Item>>, items: seq<Item>) {
    && Concat(segments) == items
    && (forall i :: 0 <= i < |segments| ==> segments[i] != [] && DistinctIds(segments[i]))
    && (forall i :: 0 < i < |segments| ==> StartsRepeated(segments, i))
  }

  /** The first record of segment `i` repeats an identity of the segment before. */
  ghost predicate StartsRepeated(segments: seq<seq<Item>>, i: int)
    requires 0 < i < |segments|
  {
    segments[i] != [] && segments[i][0].id in Ids(segments[i - 1])
  }

  lemma IdsExtend(items: seq<Item>, x: Item)
    ensures Ids(items + [x]) == Ids(items) + {x.id}
    ensures DistinctIds(items) && x.id !in Ids(items) ==> DistinctIds(items + [x])
  {
    var all := items + [x];
    assert forall y :: y in all <==> y in items || y == x;
    assert forall i :: 0 <= i < |items| ==> items[i] in items && items[i].id in Ids(items);
  }

  lemma ConcatExtend(segments: seq<seq<Item>>, s: seq<Item>)
    ensures Concat(segments + [s]) == Concat(segments) + s
  {
    assert (segments + [s])[..|segments|] == segments;
  }

  /** A finished segment joins the list. */
  lemma CloseSegment(segments: seq<seq<Item>>, segment: seq<Item>)
    requires IsSegmentation(segments, Concat(segments)) && segment != [] && DistinctIds(segment)
    requires segments != [] ==> segment[0].id in Ids(segments[|segments| - 1])
    ensures var all := segments + [segment]; IsSegmentation(all, Concat(all)) && Concat(all) == Concat(segments) + segment
  {
    hide DistinctIds, Ids, Concat;
    ConcatExtend(segments, segment);
    var all := segments + [segment];
    forall i | 0 < i < |all| ensures StartsRepeated(all, i) {
      if i < |segments| {
        assert StartsRepeated(segments, i);
      }
    }
  }

  lemma ItemsExtend(records: seq<Record>, i: nat, runId: string, collected: string)
    requires i < |records|
    ensures ItemsOf(records[..i + 1], runId, collected) ==
            ItemsOf(records[..i], runId, collected) + [ItemOf(records[i], runId, collected)]
  {
    assert records[..i + 1][..i] == records[..i];
  }

  /** What the loop keeps: the closed segments and the open one. */
  ghost predicate Segmenting(segments: seq<seq<Item>>, segment: seq<Item>, items: seq<Item>) {
    && IsSegmentation(segments, Concat(segments))
    && Concat(segments) + segment == items
    && DistinctIds(segment)
    && (segment == [] ==> segments == [])
    && (segment != [] && segments != [] ==> segment[0].id in Ids(segments[|segments| - 1]))
  }

  lemma SegmentStep(segments: seq<seq<Item>>, segment: seq<Item>, items: seq<Item>, item: Item)
    requires Segmenting(segments, segment, items)
    ensures item.id !in Ids(segment) ==> Segmenting(segments, segment + [item], items + [item])
    ensures item.id in Ids(segment) ==> Segmenting(segments + [segment], [item], items + [item])
  {
    hide DistinctIds, Ids, Concat, IsSegmentation;
    IdsExtend(segment, item);
    IdsExtend([], item);
    assert [] + [item] == [item];
    NoIds();
    assert Concat(segments) + (segment + [item]) == items + [item];
    if item.id in Ids(segment) {
      CloseSegment(segments, segment);
    }
  }

  lemma NoIds()
    ensures Ids([]) == {} && DistinctIds([])
  {}

  lemma {:induction false} ConcatFrom(segments: seq<seq<Item>>)
    requires segments != []
    ensures Concat(segments) == segments[0] + Concat(segments[1..])
  {
    if |segments| == 1 {
      assert segments[..0] == [] && segments[1..] == [];
    } else {
      ConcatFrom(segments[..|segments| - 1]);
      assert segments[..|segments| - 1][1..] == segments[1..][..|segments| - 2];
    }
  }

  lemma TailSegments(segments: seq<seq<Item>>, items: seq<Item>)
    requires IsSegmentation(segments, items) && segments != []
    ensures segments[0] <= items && IsSegmentation(segments[1..], items[|segments[0]|..])
  {
    hide DistinctIds, Ids, Concat;
    ConcatFrom(segments);
    assert items[|segments[0]|..] == Concat(segments[1..]);
    forall i | 0 < i < |segments[1..]| ensures StartsRepeated(segments[1..], i) {
      assert StartsRepeated(segments, i + 1);
    }
  }

  /** What follows the first segment begins with one of its identities. */
  lemma FirstSegmentEnds(segments: seq<seq<Item>>, items: seq<Item>)
    requires IsSegmentation(segments, items) && segments != [] && |segments[0]| < |items|
    ensures items[|segments[0]|].id in Ids(segments[0])
  {
    hide DistinctIds, Ids, Concat;
    ConcatFrom(segments);
    if |segments| == 1 {
      assert segments[1..] == [];
      ConcatFrom([items]);
      NothingConcat();
    } else {
      assert StartsRepeated(segments, 1);
      TailSegments(segments, items);
      ConcatFrom(segments[1..]);
      assert segments[1..][0] == segments[1] && segments[1..][0] <= items[|segments[0]|..];
    }
  }

  lemma NothingConcat()
    ensures Concat([]) == []
  {}

  lemma LongerRepeats(items: seq<Item>, a: nat, b: nat)
    requires a < b <= |items| && items[a].id in Ids(items[..a])
    ensures !DistinctIds(items[..b])
  {
    var x :| x in items[..a] && x.id == items[a].id;
    var i :| 0 <= i < a && items[..a][i] == x;
    assert items[..b][i] == x && items[..b][a] == items[a];
  }

  /** There is one way to cut a batch into segments. */
  lemma {:induction false} SegmentationIsUnique(a: seq<seq<Item>>, b: seq<seq<Item>>, items: seq<Item>)
    requires IsSegmentation(a, items) && IsSegmentation(b, items)
    ensures a == b
    decreases |a|
  {
    hide DistinctIds, Ids, Concat, StartsRepeated;
    if a == [] || b == [] {
      NothingConcat();
      if a != [] {
        ConcatFrom(a);
      }
      if b != [] {
        ConcatFrom(b);
      }
    } else {
      var m, n := |a[0]|, |b[0]|;
      TailSegments(a, items);
      TailSegments(b, items);
      assert a[0] == items[..m] && b[0] == items[..n];
      if m < n {
        FirstSegmentEnds(a, items);
        LongerRepeats(items, m, n);
      } else if n < m {
        FirstSegmentEnds(b, items);
        LongerRepeats(items, n, m);
      }
      SegmentationIsUnique(a[1..], b[1..], items[m..]);
      assert a == [a[0]] + a[1..] && b == [b[0]] + b[1..];
    }
  }

  method BuildSegments(records: seq<Record>, runId: string, collected: string) returns (segments: seq<seq<Item>>)
    ensures IsSegmentation(segments, ItemsOf(records, runId, collected))
  {
    hide DistinctIds, Ids, Concat, ItemOf, ItemsOf;
    segments := [];
    var segment: seq<Item>, keys: set<Identity> := [], {};
    NoIds();
    NothingYet(runId, collected);
    assert records[..0] == [];
    for i := 0 to |records|
      invariant Segmenting(segments, segment, ItemsOf(records[..i], runId, collected))
      invariant keys == Ids(segment)
    {
      var item := ItemOf(records[i], runId, collected);
      ItemsExtend(records, i, runId, collected);
      SegmentStep(segments, segment, ItemsOf(records[..i], runId, collected), item);
      IdsExtend(segment, item);
      IdsExtend([], item);
      assert [] + [item] == [item];
      if item.id in keys {
        segments := segments + [segment];
        segment := [];
        keys := {};
      }
      keys := keys + {item.id};
      segment := segment + [item];
    }
    assert records[..|records|] == records;
    if segment != [] {
      CloseSegment(segments, segment);
      segments := segments + [segment];
    }
  }

  lemma NothingYet(runId: string, collected: string)
    ensures Segmenting([], [], ItemsOf([], runId, collected))
  {}

  // ---- applying a batch twice -----------------------------------------------------------------

  function ColumnsAfter(columns: map<Column, Value>, items: seq<Item>): map<Column, Value> {
    if items == [] then columns else Coalesced(ColumnsAfter(columns, items[..|items| - 1]), items[|items| - 1].columns)
  }

  function RawAfter(raw: map<string, string>, items: seq<Item>): map<string, string> {
    if items == [] then raw else RawAfter(raw, items[..|items| - 1]) + items[|items| - 1].raw
  }

  ghost predicate SameAt(a: map<Column, Value>, b: map<Column, Value>, c: Column) {
    (c in a <==> c in b) && (c in a && c in b ==> a[c] == b[c])
  }

  lemma CoalescedAt(a: map<Column, Value>, b: map<Column, Value>, c: Column)
    ensures Kept(a, c) ==> SameAt(Coalesced(a, b), a, c)
    ensures !Kept(a, c) ==> SameAt(Coalesced(a, b), b, c)
  {}

  lemma KeptSame(a: map<Column, Value>, b: map<Column, Value>, c: Column)
    requires SameAt(a, b, c)
    ensures Kept(a, c) <==> Kept(b, c)
  {}

  lemma {:induction false} KeptStays(columns: map<Column, Value>, items: seq<Item>, c: Column)
    requires Kept(columns, c)
    ensures SameAt(ColumnsAfter(columns, items), columns, c)
  {
    if items != [] {
      var before, x := items[..|items| - 1], items[|items| - 1];
      KeptStays(columns, before, c);
      KeptSame(ColumnsAfter(columns, before), columns, c);
      CoalescedAt(ColumnsAfter(columns, before), x.columns, c);
      hide Coalesced, Kept;
    }
  }

  /** A column without a kept value after the fold had none before, and shows what the last item says. */
  lemma {:induction false} NeverKept(columns: map<Column, Value>, other: map<Column, Value>, items: seq<Item>, c: Column)
    requires !Kept(ColumnsAfter(columns, items), c) && !Kept(other, c)
    ensures !Kept(ColumnsAfter(other, items), c)
    ensures items != [] ==> SameAt(ColumnsAfter(other, items), ColumnsAfter(columns, items), c)
  {
    if items != [] {
      var before, x := items[..|items| - 1], items[|items| - 1];
      var a, b := ColumnsAfter(columns, before), ColumnsAfter(other, before);
      CoalescedAt(a, x.columns, c);
      CoalescedAt(b, x.columns, c);
      hide Coalesced;
      if Kept(a, c) {
        KeptSame(a, ColumnsAfter(columns, items), c);
      } else {
        NeverKept(columns, other, before, c);
        KeptSame(x.columns, ColumnsAfter(columns, items), c);
        KeptSame(x.columns, ColumnsAfter(other, items), c);
      }
    }
  }

  lemma ColumnsTwice(columns: map<Column, Value>, items: seq<Item>)
    ensures ColumnsAfter(ColumnsAfter(columns, items), items) == ColumnsAfter(columns, items)
  {
    hide ColumnsAfter, Kept, SameAt;
    var once := ColumnsAfter(columns, items);
    if items == [] {
      NoColumns(once);
    } else {
      forall c: Column ensures SameAt(ColumnsAfter(once, items), once, c) {
        if Kept(once, c) {
          KeptStays(once, items, c);
        } else {
          NeverKept(columns, once, items, c);
        }
      }
      SameColumns(ColumnsAfter(once, items), once);
    }
  }

  lemma NoColumns(columns: map<Column, Value>)
    ensures ColumnsAfter(columns, []) == columns
  {}

  lemma SameColumns(a: map<Column, Value>, b: map<Column, Value>)
    requires forall c :: SameAt(a, b, c)
    ensures a == b
  {
    forall c ensures c in a <==> c in b {
      assert SameAt(a, b, c);
    }
    forall c | c in a ensures a[c] == b[c] {
      assert SameAt(a, b, c);
    }
  }

  lemma {:induction false} RawSplit(raw: map<string, string>, items: seq<Item>)
    ensures RawAfter(raw, items) == raw + RawAfter(map[], items)
  {
    if items != [] {
      RawSplit(raw, items[..|items| - 1]);
    }
  }

  lemma RawTwice(raw: map<string, string>, items: seq<Item>)
    ensures RawAfter(RawAfter(raw, items), items) == RawAfter(raw, items)
  {
    RawSplit(raw, items);
    RawSplit(RawAfter(raw, items), items);
  }

  function ColumnsOf(stored: Option<Row>): map<Column, Value> {
    if stored.Some? then stored.value.columns else map[]
  }

  function RawOf(stored: Option<Row>): map<string, string> {
    if stored.Some? then stored.value.raw else map[]
  }

  /** The written row, field by field. */
  lemma {:induction false} AppliedFields(stored: Option<Row>, items: seq<Item>, now: int)
    requires items != []
    ensures var r := Applied(stored, items, now);
            && r.Some? && r.value.columns == ColumnsAfter(ColumnsOf(stored), items)
            && r.value.raw == RawAfter(RawOf(stored), items) && r.value.lastSeen == now
            && (stored.Some? ==> r.value.name == stored.value.name && r.value.category == stored.value.category
                                 && r.value.url == stored.value.url && r.value.firstSeen == stored.value.firstSeen)
            && (stored.None? ==> r.value.name == items[0].name && r.value.category == items[0].category
                                 && r.value.url == items[0].url && r.value.firstSeen == now)
  {
    var before, x := items[..|items| - 1], items[|items| - 1];
    if before == [] {
      assert ColumnsAfter(ColumnsOf(stored), before) == ColumnsOf(stored);
      assert Coalesced(map[], x.columns) == x.columns;
      assert map[] + x.raw == x.raw;
    } else {
      AppliedFields(stored, before, now);
      hide Coalesced;
    }
  }

  lemma AppliedTwice(stored: Option<Row>, items: seq<Item>, now: int)
    ensures Applied(Applied(stored, items, now), items, now) == Applied(stored, items, now)
  {
    if items != [] {
      var once := Applied(stored, items, now);
      AppliedFields(stored, items, now);
      AppliedFields(once, items, now);
      ColumnsTwice(ColumnsOf(stored), items);
      RawTwice(RawOf(stored), items);
      hide Applied, ColumnsAfter, RawAfter;
    }
  }

  /** Writing the same items again changes nothing. */
  lemma FoldTwice(t: Table, items: seq<Item>, now: int)
    ensures UpsertAll(UpsertAll(t, items, now), items, now) == UpsertAll(t, items, now)
  {
    var once := UpsertAll(t, items, now);
    forall k ensures Lookup(UpsertAll(once, items, now), k) == Lookup(once, k) {
      RowOfFold(t, items, k, now);
      RowOfFold(once, items, k, now);
      AppliedTwice(Lookup(t, k), Matching(items, k), now);
    }
    SameTable(UpsertAll(once, items, now), once);
  }

  // ---- what a saved row is made of ----------------------------------------------------------------

  /** An item says where it comes from, and carries the query ZIP and the evidence if there are any. */
  lemma ItemIs(r: Record, runId: string, collected: string)
    ensures var x := ItemOf(r, runId, collected);
            && x == Item(r.id, r.name, r.category, r.url, r.columns, x.raw)
            && Known(x.raw, "scraped_via") == Some(r.id.source) && Known(x.raw, "run_id") == Some(runId)
            && Known(x.raw, "collected_at") == Some(collected) && Known(x.raw, "source_url") == Some(r.url)
            && Known(x.raw, "ownership_verified") == Some("false")
            && Known(x.raw, "query_zip") == r.queryZip && Known(x.raw, "website_enrichment") == r.evidence
            && Known(x.raw, "license") == (if r.id.source == "osm" then Some("ODbL-1.0") else None)
            && forall k :: k in x.raw ==> k in ["scraped_via", "run_id", "collected_at", "source_url", "ownership_verified",
                                                "query_zip", "website_enrichment", "license"]
  {
    hide COLLECTED;
    CollectedIs();
  }

  lemma CollectedIs()
    ensures COLLECTED == "collected_at"
  {}

  /** A value that later ones do not replace. */
  ghost predicate Solid(columns: map<Column, Value>, c: Column) {
    c in columns && !(c in {Address, Phone, Website} && columns[c] == Text(""))
  }

  /** Everything that was ever said about the row's columns: what is stored, then item by item. */
  function Told(stored: Option<Row>, items: seq<Item>): seq<map<Column, Value>> {
    if items == [] then [ColumnsOf(stored)] else Told(stored, items[..|items| - 1]) + [items[|items| - 1].columns]
  }

  /** A column shows the first solid value it was told, and failing that what was said last. */
  ghost predicate Shows(v: Option<Value>, told: seq<map<Column, Value>>, c: Column) {
    if forall i :: 0 <= i < |told| ==> !Solid(told[i], c) then told != [] && v == Known(told[|told| - 1], c)
    else exists i :: 0 <= i < |told| && Solid(told[i], c) && v == Known(told[i], c) && forall j :: 0 <= j < i ==> !Solid(told[j], c)
  }

  lemma ShowsMore(v: Option<Value>, told: seq<map<Column, Value>>, next: map<Column, Value>, c: Column)
    requires Shows(v, told, c)
    ensures Shows(if v.Some? && Solid(map[c := v.value], c) then v else Known(next, c), told + [next], c)
  {
    var all := told + [next];
    assert all[|told|] == next && forall i :: 0 <= i < |told| ==> all[i] == told[i];
    if exists i :: 0 <= i < |told| && Solid(told[i], c) {
      var i :| 0 <= i < |told| && Solid(told[i], c) && v == Known(told[i], c) && forall j :: 0 <= j < i ==> !Solid(told[j], c);
      assert Solid(all[i], c);
    } else if Solid(next, c) {
      assert Solid(all[|told|], c);
    }
  }

  lemma CoalescedShows(a: map<Column, Value>, b: map<Column, Value>, c: Column)
    ensures Known(Coalesced(a, b), c) == if Solid(a, c) then Known(a, c) else Known(b, c)
  {}

  lemma {:induction false} ColumnShows(stored: Option<Row>, items: seq<Item>, c: Column)
    ensures Shows(Known(ColumnsAfter(ColumnsOf(stored), items), c), Told(stored, items), c)
  {
    hide Shows, Coalesced, ColumnsOf;
    if items == [] {
      ShowsOne(ColumnsOf(stored), c);
    } else {
      var before, x := items[..|items| - 1], items[|items| - 1];
      ColumnShows(stored, before, c);
      ShowsMore(Known(ColumnsAfter(ColumnsOf(stored), before), c), Told(stored, before), x.columns, c);
      CoalescedShows(ColumnsAfter(ColumnsOf(stored), before), x.columns, c);
    }
  }

  lemma ShowsOne(columns: map<Column, Value>, c: Column)
    ensures Shows(Known(columns, c), [columns], c)
  {
    assert [columns][0] == columns;
  }

  /** The value of a raw key is the one said last. */
  ghost predicate SaidLast(v: Option<string>, stored: map<string, string>, items: seq<Item>, k: string) {
    if forall i :: 0 <= i < |items| ==> k !in items[i].raw then v == Known(stored, k)
    else exists i :: 0 <= i < |items| && k in items[i].raw && v == Known(items[i].raw, k) && forall j :: i < j < |items| ==> k !in items[j].raw
  }

  lemma {:induction false} RawSaidLast(stored: map<string, string>, items: seq<Item>, k: string)
    ensures SaidLast(Known(RawAfter(stored, items), k), stored, items, k)
  {
    if items != [] {
      var n := |items| - 1;
      RawSaidLast(stored, items[..n], k);
      assert forall i :: 0 <= i < n ==> items[..n][i] == items[i];
      if k in items[n].raw {
        assert Known(RawAfter(stored, items), k) == Known(items[n].raw, k);
      }
    }
  }

  /** The saved row: its name, category, address on the web and first-seen time are those it was first stored with,
      each column shows the first solid value, and the raw data what was said last. */
  lemma SavedRow(t: Table, items: seq<Item>, now: int, k: Identity)
    requires Matching(items, k) != []
    ensures var told, r := Matching(items, k), Lookup(UpsertAll(t, items, now), k);
            && r.Some? && r.value.lastSeen == now
            && (if k in t then r.value.(columns := map[], raw := map[], lastSeen := 0) == t[k].(columns := map[], raw := map[], lastSeen := 0)
                else r.value == Row(told[0].name, told[0].category, told[0].url, r.value.columns, r.value.raw, now, now))
            && (forall c :: Shows(Known(r.value.columns, c), Told(Lookup(t, k), told), c))
            && (forall key :: SaidLast(Known(r.value.raw, key), if k in t then t[k].raw else map[], told, key))
  {
    hide Shows, SaidLast, Applied, Matching, UpsertAll, ColumnsAfter, RawAfter, Told, Known;
    var told, stored := Matching(items, k), Lookup(t, k);
    RowOfFold(t, items, k, now);
    AppliedFields(stored, told, now);
    forall c ensures Shows(Known(ColumnsAfter(ColumnsOf(stored), told), c), Told(stored, told), c) {
      ColumnShows(stored, told, c);
    }
    forall key ensures SaidLast(Known(RawAfter(RawOf(stored), told), key), RawOf(stored), told, key) {
      RawSaidLast(RawOf(stored), told, key);
    }
  }

  // ---- up to the times --------------------------------------------------------------------------

  /** A row without the times that a replay refreshes. */
  function Timeless(r: Row): Row {
    r.(raw := r.raw - {COLLECTED}, firstSeen := 0, lastSeen := 0)
  }

  ghost predicate SameButTimes(a: Table, b: Table) {
    a.Keys == b.Keys && forall k :: k in a ==> Timeless(a[k]) == Timeless(b[k])
  }

  ghost predicate SameItem(a: Item, b: Item) {
    a.(raw := map[]) == b.(raw := map[]) && a.raw - {COLLECTED} == b.raw - {COLLECTED}
  }

  lemma RawUnion(a: map<string, string>, b: map<string, string>)
    ensures (a + b) - {COLLECTED} == (a - {COLLECTED}) + (b - {COLLECTED})
  {}

  lemma WrittenSame(a: Option<Row>, b: Option<Row>, x: Item, y: Item, now: int, now': int)
    requires SameItem(x, y) && (a.Some? <==> b.Some?) && (a.Some? && b.Some? ==> Timeless(a.value) == Timeless(b.value))
    ensures Timeless(Written(a, x, now)) == Timeless(Written(b, y, now'))
  {
    hide Coalesced;
    if a.Some? {
      RawUnion(a.value.raw, x.raw);
      RawUnion(b.value.raw, y.raw);
    }
  }

  lemma UpsertSame(t: Table, u: Table, x: Item, y: Item, now: int, now': int)
    requires SameButTimes(t, u) && SameItem(x, y)
    ensures SameButTimes(UpsertOne(t, x, now), UpsertOne(u, y, now'))
  {
    WrittenSame(Lookup(t, x.id), Lookup(u, x.id), x, y, now, now');
    hide Written, Timeless;
  }

  /** Writing respects the equality up to times. */
  lemma {:induction false} FoldSame(t: Table, u: Table, items: seq<Item>, items': seq<Item>, now: int, now': int)
    requires SameButTimes(t, u) && |items| == |items'| && forall i :: 0 <= i < |items| ==> SameItem(items[i], items'[i])
    ensures SameButTimes(UpsertAll(t, items, now), UpsertAll(u, items', now'))
  {
    if items != [] {
      var n := |items| - 1;
      FoldSame(t, u, items[..n], items'[..n], now, now');
      UpsertSame(UpsertAll(t, items[..n], now), UpsertAll(u, items'[..n], now'), items[n], items'[n], now, now');
      hide UpsertOne, SameButTimes, SameItem;
    }
  }

  lemma ItemSame(r: Record, runId: string, collected: string, collected': string)
    ensures SameItem(ItemOf(r, runId, collected), ItemOf(r, runId, collected'))
  {}

  datatype Batch = Batch(runId: string, records: seq<Record>)

  function Save(t: Table, b: Batch, collected: string, now: int): Table {
    UpsertAll(t, ItemsOf(b.records, b.runId, collected), now)
  }

  lemma SaveSame(t: Table, u: Table, b: Batch, collected: string, collected': string, now: int, now': int)
    requires SameButTimes(t, u)
    ensures SameButTimes(Save(t, b, collected, now), Save(u, b, collected', now'))
  {
    var items, items' := ItemsOf(b.records, b.runId, collected), ItemsOf(b.records, b.runId, collected');
    forall i | 0 <= i < |items| ensures SameItem(items[i], items'[i]) {
      ItemSame(b.records[i], b.runId, collected, collected');
    }
    hide *;
    SaveDefinition(t, b, collected, now);
    SaveDefinition(u, b, collected', now');
    FoldSame(t, u, items, items', now, now');
  }

  lemma SaveDefinition(t: Table, b: Batch, collected: string, now: int)
    ensures Save(t, b, collected, now) == UpsertAll(t, ItemsOf(b.records, b.runId, collected), now)
  {}

  /** A later replay agrees with the first save in everything but times. */
  lemma ReplaySame(t: Table, b: Batch, collected: string, now: int, collected': string, now': int)
    ensures SameButTimes(Save(Save(t, b, collected, now), b, collected', now'), Save(t, b, collected, now))
  {
    hide *;
    var once := Save(t, b, collected, now);
    SameReflexive(once);
    SaveSame(once, once, b, collected', collected, now', now);
    SaveDefinition(t, b, collected, now);
    SaveDefinition(once, b, collected, now);
    FoldTwice(t, ItemsOf(b.records, b.runId, collected), now);
  }

  lemma SameReflexive(t: Table)
    ensures SameButTimes(t, t)
  {}

  lemma SameTransitive(a: Table, b: Table, c: Table)
    requires SameButTimes(a, b) && SameButTimes(b, c)
    ensures SameButTimes(a, c)
  {
    hide Timeless;
  }

  // ---- the times after a replay ------------------------------------------------------------

  lemma {:induction false} RawHasCollected(raw: map<string, string>, items: seq<Item>, collected: string)
    requires items != [] && forall x :: x in items ==> COLLECTED in x.raw && x.raw[COLLECTED] == collected
    ensures COLLECTED in RawAfter(raw, items) && RawAfter(raw, items)[COLLECTED] == collected
  {
    assert items[|items| - 1] in items;
  }

  lemma {:induction false} MatchingSubset(items: seq<Item>, k: Identity)
    ensures forall x :: x in Matching(items, k) <==> x in items && x.id == k
  {
    if items != [] {
      MatchingSubset(items[..|items| - 1], k);
      assert items == items[..|items| - 1] + [items[|items| - 1]];
    }
  }

  /** A save touches exactly the rows of its identities, stamps them, and keeps the first-seen time of a stored row. */
  lemma SaveStamps(t: Table, b: Batch, collected: string, now: int, k: Identity)
    ensures (forall r :: r in b.records ==> r.id != k) ==> Lookup(Save(t, b, collected, now), k) == Lookup(t, k)
    ensures (exists r :: r in b.records && r.id == k) ==>
              var s := Lookup(Save(t, b, collected, now), k);
              && s.Some? && s.value.lastSeen == now && COLLECTED in s.value.raw && s.value.raw[COLLECTED] == collected
              && s.value.firstSeen == (if k in t then t[k].firstSeen else now)
  {
    var items := ItemsOf(b.records, b.runId, collected);
    var ms := Matching(items, k);
    RowOfFold(t, items, k, now);
    MatchingSubset(items, k);
    ItemStamps(b.records, b.runId, collected, k);
    hide ItemOf, ItemsOf, Matching, UpsertAll;
    if ms != [] {
      AppliedFields(Lookup(t, k), ms, now);
      RawHasCollected(RawOf(Lookup(t, k)), ms, collected);
      hide Applied;
      assert ms[0] in items && ms[0].id == k;
    }
  }

  lemma ItemStamp(r: Record, runId: string, collected: string)
    ensures var x := ItemOf(r, runId, collected); x.id == r.id && COLLECTED in x.raw && x.raw[COLLECTED] == collected
  {}

  lemma ItemStamps(records: seq<Record>, runId: string, collected: string, k: Identity)
    ensures var items := ItemsOf(records, runId, collected);
            && ((exists r :: r in records && r.id == k) <==> (exists x :: x in items && x.id == k))
            && forall x :: x in items ==> COLLECTED in x.raw && x.raw[COLLECTED] == collected
  {
    hide *;
    var items := ItemsOf(records, runId, collected);
    forall i | 0 <= i < |records|
      ensures items[i].id == records[i].id && COLLECTED in items[i].raw && items[i].raw[COLLECTED] == collected
    {
      ItemStamp(records[i], runId, collected);
    }
    if r :| r in records && r.id == k {
      var i :| 0 <= i < |records| && records[i] == r;
      assert items[i] in items;
    }
    if x :| x in items && x.id == k {
      var i :| 0 <= i < |items| && items[i] == x;
      assert records[i] in records;
    }
  }

  // ---- the flusher -----------------------------------------------------------------------------

  datatype Entry = Entry(batch: Batch, written: bool)

  function FirstPending(queue: seq<Entry>): Option<nat> {
    if queue == [] then None
    else
      var n := |queue| - 1;
      var earlier := FirstPending(queue[..n]);
      if earlier.Some? then earlier else if queue[n].written then None else Some(n)
  }

  lemma {:induction false} FirstPendingIsFirst(queue: seq<Entry>)
    ensures match FirstPending(queue)
            case None => forall i :: 0 <= i < |queue| ==> queue[i].written
            case Some(p) => p < |queue| && !queue[p].written && forall i :: 0 <= i < p ==> queue[i].written
  {
    if queue != [] {
      FirstPendingIsFirst(queue[..|queue| - 1]);
    }
  }

  /** The circumstances of a flush: whether the table has the expected columns and constraint, whether the advisory lock
      is free, whether the transaction commits, and whether the process dies before the local acknowledgement. */
  datatype Attempt = Attempt(compatible: bool, locked: bool, commits: bool, crash: bool, collected: string, now: int)

  /** How a flush ended: nothing to do, a wrong schema, another session holds the lock, the transaction failed and was
      rolled back, a crash after the commit, or done. */
  datatype Outcome = Idle | Blocked | Busy | Failed | Crashed | Acknowledged

  class Intake {
    /** The local queue, oldest first. */
    var queue: seq<Entry>
    var table: Table

    constructor ()
      ensures queue == [] && table == map[]
    {
      queue, table := [], map[];
    }

    method Enqueue(batch: Batch)
      modifies this
      ensures queue == old(queue) + [Entry(batch, false)] && table == old(table)
    {
      queue := queue + [Entry(batch, false)];
    }

    method FlushOne(a: Attempt) returns (outcome: Outcome)
      modifies this
      ensures outcome == OutcomeOf(old(queue), a)
      ensures (table, queue) == Flushed(old(table), old(queue), a)
    {
      hide Save, FirstPending;
      var next := FirstPending(queue);
      FirstPendingIsFirst(queue);
      if next.None? {
        return Idle;
      }
      if !a.compatible {
        return Blocked;
      }
      var batch := queue[next.value].batch;
      var segments := BuildSegments(batch.records, batch.runId, a.collected);
      if !a.locked {
        return Busy;
      }
      var written := WriteSegments(table, segments, a.now);
      if !a.commits {
        return Failed;
      }
      table := written;
      SaveDefinition(old(table), batch, a.collected, a.now);
      if a.crash {
        return Crashed;
      }
      queue := queue[next.value := Entry(batch, true)];
      return Acknowledged;
    }
  }

  /** The transaction: no statement fails, and each returns one id for every item. */
  method WriteSegments(table: Table, segments: seq<seq<Item>>, now: int) returns (t: Table)
    requires forall i :: 0 <= i < |segments| ==> DistinctIds(segments[i])
    ensures t == UpsertAll(table, Concat(segments), now)
  {
    hide Statement, UpsertAll, DistinctIds;
    t := table;
    NoItems(table, now);
    for i := 0 to |segments|
      invariant t == UpsertAll(table, Concat(segments[..i]), now)
    {
      StatementIsFold(t, segments[i], now);
      var result := Statement(t, segments[i], now);
      assert result.Some? && result.value.1 == |segments[i]|;
      assert segments[..i + 1] == segments[..i] + [segments[i]];
      ConcatExtend(segments[..i], segments[i]);
      FoldAppend(table, Concat(segments[..i]), segments[i], now);
      t := result.value.0;
    }
    assert segments[..|segments|] == segments;
  }

  lemma NoItems(t: Table, now: int)
    ensures UpsertAll(t, [], now) == t
  {}

  function OutcomeOf(queue: seq<Entry>, a: Attempt): Outcome {
    if FirstPending(queue).None? then Idle
    else if !a.compatible then Blocked
    else if !a.locked then Busy
    else if !a.commits then Failed
    else if a.crash then Crashed
    else Acknowledged
  }

  function Flushed(t: Table, queue: seq<Entry>, a: Attempt): (Table, seq<Entry>) {
    match FirstPending(queue)
    case None => (t, queue)
    case Some(p) =>
      FirstPendingIsFirst(queue);
      if !a.compatible || !a.locked || !a.commits then (t, queue)
      else (Save(t, queue[p].batch, a.collected, a.now), if a.crash then queue else queue[p := Entry(queue[p].batch, true)])
  }

  /** A statement fails exactly when two of its items share an identity. */
  lemma StatementFailsIff(t: Table, items: seq<Item>, now: int)
    ensures Statement(t, items, now).None? <==> exists i, j :: 0 <= i < j < |items| && items[i].id == items[j].id
  {}

  /** What a flush does: it writes and marks the oldest pending batch unless the schema differs, the lock is taken or the
      transaction fails; a crash after the commit leaves the batch pending. */
  lemma FlushIs(t: Table, queue: seq<Entry>, a: Attempt, p: nat)
    requires p < |queue| && !queue[p].written && forall i :: 0 <= i < p ==> queue[i].written
    ensures var (table, after) := Flushed(t, queue, a);
            if a.compatible && a.locked && a.commits then
              && table == Save(t, queue[p].batch, a.collected, a.now)
              && after == (if a.crash then queue else queue[p := Entry(queue[p].batch, true)])
              && OutcomeOf(queue, a) == (if a.crash then Crashed else Acknowledged)
            else
              && table == t && after == queue
              && OutcomeOf(queue, a) == if !a.compatible then Blocked else if !a.locked then Busy else Failed
  {
    FirstPendingIsFirst(queue);
    hide Save, FirstPending;
  }

  lemma NothingToFlush(t: Table, queue: seq<Entry>, a: Attempt)
    requires forall i :: 0 <= i < |queue| ==> queue[i].written
    ensures Flushed(t, queue, a) == (t, queue) && OutcomeOf(queue, a) == Idle
  {
    FirstPendingIsFirst(queue);
    hide Save, FirstPending;
  }

  // ---- whole runs ---------------------------------------------------------------------------------

  datatype Step = Add(batch: Batch) | Flush(attempt: Attempt)

  datatype World = World(table: Table, queue: seq<Entry>)

  function Next(w: World, step: Step): World {
    match step
    case Add(batch) => w.(queue := w.queue + [Entry(batch, false)])
    case Flush(a) =>
      var f := Flushed(w.table, w.queue, a);
      World(f.0, f.1)
  }

  function After(w: World, steps: seq<Step>): World {
    if steps == [] then w else Next(After(w, steps[..|steps| - 1]), steps[|steps| - 1])
  }

  /** Every record of the first `n` batches upserted once, in order. */
  function SavedOnce(t: Table, queue: seq<Entry>, n: nat): Table
    requires n <= |queue|
  {
    if n == 0 then t else Save(SavedOnce(t, queue, n - 1), queue[n - 1].batch, "", 0)
  }

  lemma {:induction false} SavedOnceFrame(t: Table, queue: seq<Entry>, queue': seq<Entry>, n: nat)
    requires n <= |queue| && n <= |queue'| && forall i :: 0 <= i < n ==> queue[i].batch == queue'[i].batch
    ensures SavedOnce(t, queue, n) == SavedOnce(t, queue', n)
  {
    if n > 0 {
      SavedOnceFrame(t, queue, queue', n - 1);
    }
  }

  /** The written batches are a prefix, and the table holds them once, or them and the oldest pending one. */
  ghost predicate Consistent(t: Table, w: World, written: nat, saved: nat) {
    && written <= saved <= |w.queue| && saved <= written + 1
    && (forall i :: 0 <= i < |w.queue| ==> (w.queue[i].written <==> i < written))
    && SameButTimes(w.table, SavedOnce(t, w.queue, saved))
  }

  /** What the next state's counts are. */
  lemma StepConsistent(t: Table, w: World, step: Step, written: nat, saved: nat) returns (written': nat, saved': nat)
    requires Consistent(t, w, written, saved)
    ensures Consistent(t, Next(w, step), written', saved')
    ensures written <= written' && saved <= saved'
  {
    hide Save, SameButTimes, SavedOnce, FirstPending;
    var w' := Next(w, step);
    FirstPendingIsFirst(w.queue);
    match step
    case Add(batch) =>
      written', saved' := written, saved;
      SavedOnceFrame(t, w.queue, w'.queue, saved);
    case Flush(a) =>
      if written == |w.queue| || !a.compatible || !a.locked || !a.commits {
        written', saved' := written, saved;
      } else {
        assert !w.queue[written].written;
        assert FirstPending(w.queue) == Some(written);
        written', saved' := if a.crash then written else written + 1, written + 1;
        SavedOnceFrame(t, w.queue, w'.queue, saved');
        FlushKeepsTable(t, w.table, w.queue, written, saved, a.collected, a.now);
      }
  }

  lemma FlushKeepsTable(t: Table, table: Table, queue: seq<Entry>, written: nat, saved: nat, collected: string, now: int)
    requires written < |queue| && written <= saved <= |queue| && saved <= written + 1
    requires SameButTimes(table, SavedOnce(t, queue, saved))
    ensures SameButTimes(Save(table, queue[written].batch, collected, now), SavedOnce(t, queue, written + 1))
  {
    var b := queue[written].batch;
    var target, before := SavedOnce(t, queue, written + 1), SavedOnce(t, queue, written);
    assert target == Save(before, b, "", 0);
    hide *;
    if saved == written {
      SaveSame(table, before, b, collected, "", now, 0);
    } else {
      SaveSame(table, target, b, collected, "", now, 0);
      ReplaySame(before, b, "", 0, "", 0);
      SameTransitive(Save(table, b, collected, now), Save(target, b, "", 0), target);
    }
  }

  /** Over any run of one flusher, with enqueues, failures and crashes anywhere, the table holds what saving every
      batch exactly once would give, up to times: the acknowledged ones, and at most the oldest pending one besides. */
  lemma {:induction false} RunSavesOnce(t: Table, steps: seq<Step>) returns (written: nat, saved: nat)
    ensures Consistent(t, After(World(t, []), steps), written, saved)
  {
    if steps == [] {
      written, saved := 0, 0;
    } else {
      var before := steps[..|steps| - 1];
      written, saved := RunSavesOnce(t, before);
      written, saved := StepConsistent(t, After(World(t, []), before), steps[|steps| - 1], written, saved);
    }
  }

  function Added(steps: seq<Step>): seq<Batch> {
    if steps == [] then []
    else Added(steps[..|steps| - 1]) + (if steps[|steps| - 1].Add? then [steps[|steps| - 1].batch] else [])
  }

  /** The queue holds every batch ever added, in order. */
  lemma {:induction false} QueueHoldsAll(t: Table, steps: seq<Step>)
    ensures var queue := After(World(t, []), steps).queue;
            |queue| == |Added(steps)| && forall i :: 0 <= i < |queue| ==> queue[i].batch == Added(steps)[i]
  {
    hide Save, FirstPending;
    if steps != [] {
      QueueHoldsAll(t, steps[..|steps| - 1]);
      FirstPendingIsFirst(After(World(t, []), steps[..|steps| - 1]).queue);
    }
  }
}
