/** The merged search over the stored directories: a bounded fetch from every table, one sort, one page. */
module Lookup {
  import opened Sorting

  datatype Vertical = Hotel | Healthcare | Ria | Insurance | Business

  datatype Table = Hotels | Providers | Firms | Advisers | Producers | Businesses

  const VERTICALS := [Hotel, Healthcare, Ria, Insurance, Business]

  /** The tables of a vertical, in the order they are read. */
  function TablesOf(v: Vertical): seq<Table> {
    match v
    case Hotel => [Hotels]
    case Healthcare => [Providers]
    case Ria => [Firms, Advisers]
    case Insurance => [Producers]
    case Business => [Businesses]
  }

  function VerticalOf(t: Table): Vertical {
    match t
    case Hotels => Hotel
    case Providers => Healthcare
    case Firms => Ria
    case Advisers => Ria
    case Producers => Insurance
    case Businesses => Business
  }

  function VerticalName(v: Vertical): string {
    match v
    case Hotel => "hotel"
    case Healthcare => "healthcare"
    case Ria => "ria"
    case Insurance => "insurance"
    case Business => "business"
  }

  function TableName(t: Table): string {
    match t
    case Hotels => "hotels"
    case Providers => "providers"
    case Firms => "firms"
    case Advisers => "advisers"
    case Producers => "producers"
    case Businesses => "businesses"
  }

  datatype Choice = All | Only(vertical: Vertical)

  /** `matches` stands for the name, ZIP and category conditions. */
  datatype Request<!R> = Request(choice: Choice, matches: (Table, R) -> bool, limit: nat, offset: nat)

  /** The rows of every table in key order, and the verticals that can be read. */
  datatype Directory<!R> = Directory(rows: Table -> seq<R>, available: set<Vertical>)

  datatype Hit<R> = Hit(table: Table, row: R)

  datatype Item<R> = Item(hit: Hit<R>, rank: nat)

  datatype Response<R> =
    | Unavailable
    | Found(page: seq<Hit<R>>, hasMore: bool, available: seq<Vertical>, omitted: seq<Vertical>)

  function Selected<R>(rows: seq<R>, t: Table, matches: (Table, R) -> bool): seq<Hit<R>> {
    if rows == [] then []
    else if matches(t, rows[0]) then [Hit(t, rows[0])] + Selected(rows[1..], t, matches)
    else Selected(rows[1..], t, matches)
  }

  function Truncated<T>(s: seq<T>, n: nat): seq<T> {
    if |s| <= n then s else s[..n]
  }

  /** A slice whose bounds may lie beyond the end. */
  function Window<T>(s: seq<T>, offset: nat, limit: nat): seq<T> {
    Truncated(s, offset + limit)[|Truncated(s, offset)|..]
  }

  function Matches<R>(d: Directory<R>, q: Request<R>, t: Table): seq<Hit<R>> {
    Selected(d.rows(t), t, q.matches)
  }

  /** At most one row more than any page can need. */
  function Fetched<R>(d: Directory<R>, q: Request<R>, t: Table): seq<Hit<R>> {
    Truncated(Matches(d, q, t), q.offset + q.limit + 1)
  }

  function Verticals(choice: Choice): seq<Vertical> {
    match choice
    case All => VERTICALS
    case Only(v) => [v]
  }

  predicate Live<R>(d: Directory<R>, q: Request<R>, v: Vertical) {
    v in d.available && (q.choice.All? || q.choice.vertical == v)
  }

  // ---- the simple form --------------------------------------------------------------------

  /** The tables by vertical name, then by table name. */
  const ORDER := [Businesses, Providers, Hotels, Producers, Advisers, Firms]

  /** Every matching row of the readable tables. */
  function Everything<R>(d: Directory<R>, q: Request<R>, tables: seq<Table>): seq<Hit<R>> {
    if tables == [] then []
    else (if Live(d, q, VerticalOf(tables[0])) then Matches(d, q, tables[0]) else []) + Everything(d, q, tables[1..])
  }

  function Kept(vs: seq<Vertical>, available: set<Vertical>, wanted: bool): seq<Vertical> {
    if vs == [] then []
    else
      var rest, v := Kept(vs[..|vs| - 1], available, wanted), vs[|vs| - 1];
      if (v in available) == wanted then rest + [v] else rest
  }

  /** The answer of an unbounded search. */
  function Answer<R>(d: Directory<R>, q: Request<R>): Response<R> {
    var all, vs := Everything(d, q, ORDER), Verticals(q.choice);
    if Kept(vs, d.available, true) == [] then Unavailable
    else Found(Window(all, q.offset, q.limit), |all| > q.offset + q.limit, Kept(vs, d.available, true), Kept(vs, d.available, false))
  }

  // ---- ranks and the sort key --------------------------------------------------------------

  function Ranked<R>(hits: seq<Hit<R>>, base: nat): (items: seq<Item<R>>)
    ensures |items| == |hits| && forall i :: 0 <= i < |hits| ==> items[i] == Item(hits[i], base + i)
  {
    seq(|hits|, i requires 0 <= i < |hits| => Item(hits[i], base + i))
  }

  function VerticalHits<R>(d: Directory<R>, q: Request<R>, tables: seq<Table>): seq<Hit<R>> {
    if tables == [] then [] else VerticalHits(d, q, tables[..|tables| - 1]) + Fetched(d, q, tables[|tables| - 1])
  }

  function Gathered<R>(d: Directory<R>, q: Request<R>, vs: seq<Vertical>): seq<Item<R>> {
    if vs == [] then []
    else
      var rest, v := Gathered(d, q, vs[..|vs| - 1]), vs[|vs| - 1];
      if v in d.available then rest + Ranked(VerticalHits(d, q, TablesOf(v)), 0) else rest
  }

  /** The sort key: vertical name, table name, rank. */
  predicate KeyLe<R>(a: Item<R>, b: Item<R>) {
    var va, vb := VerticalName(VerticalOf(a.hit.table)), VerticalName(VerticalOf(b.hit.table));
    var ta, tb := TableName(a.hit.table), TableName(b.hit.table);
    if va != vb then TextLe(va, vb) else if ta != tb then TextLe(ta, tb) else a.rank <= b.rank
  }

  function Position(t: Table): nat {
    match t
    case Businesses => 0
    case Providers => 1
    case Hotels => 2
    case Producers => 3
    case Advisers => 4
    case Firms => 5
  }

  predicate PlaceLe<R>(a: Item<R>, b: Item<R>) {
    Position(a.hit.table) < Position(b.hit.table) || (a.hit.table == b.hit.table && a.rank <= b.rank)
  }

  lemma VerticalOrder(v: Vertical, w: Vertical)
    requires v != w
    ensures VerticalName(v) != VerticalName(w)
    ensures TextLe(VerticalName(v), VerticalName(w)) <==>
            v.Business? || (v.Healthcare? && !w.Business?) || (v.Hotel? && (w.Insurance? || w.Ria?)) || (v.Insurance? && w.Ria?)
  {
    var a, b := VerticalName(v), VerticalName(w);
    assert a[0] == b[0] ==> a[1] != b[1];
    if a[0] == b[0] {
      assert a[1..][0] == a[1] && b[1..][0] == b[1];
    }
  }

  /** The text key orders the tables by their position. */
  lemma KeyIsPlace<R>(a: Item<R>, b: Item<R>)
    ensures KeyLe(a, b) <==> PlaceLe(a, b)
  {
    var v, w := VerticalOf(a.hit.table), VerticalOf(b.hit.table);
    if v != w {
      VerticalOrder(v, w);
      hide TextLe, VerticalName;
    } else if a.hit.table != b.hit.table {
      assert "advisers"[0] == 'a' && "firms"[0] == 'f';
    }
  }

  // ---- the search ----------------------------------------------------------------------------

  method ReadVertical<R>(d: Directory<R>, q: Request<R>, v: Vertical) returns (items: seq<Item<R>>)
    ensures items == Ranked(VerticalHits(d, q, TablesOf(v)), 0)
  {
    var tables := TablesOf(v);
    var hits: seq<Hit<R>> := [];
    for i := 0 to |tables|
      invariant hits == VerticalHits(d, q, tables[..i])
    {
      assert tables[..i + 1][..i] == tables[..i];
      hits := hits + Fetched(d, q, tables[i]);
    }
    assert tables[..|tables|] == tables;
    items := [];
    for rank := 0 to |hits|
      invariant |items| == rank && forall i :: 0 <= i < rank ==> items[i] == Item(hits[i], i)
    {
      items := items + [Item(hits[rank], rank)];
    }
  }

  method Search<R(!new)>(d: Directory<R>, q: Request<R>) returns (r: Response<R>)
    ensures r == Answer(d, q)
  {
    var verticals := Verticals(q.choice);
    var results: seq<Item<R>>, omitted: seq<Vertical>, available: seq<Vertical> := [], [], [];
    for i := 0 to |verticals|
      invariant results == Gathered(d, q, verticals[..i])
      invariant available == Kept(verticals[..i], d.available, true)
      invariant omitted == Kept(verticals[..i], d.available, false)
    {
      assert verticals[..i + 1][..i] == verticals[..i];
      var vertical := verticals[i];
      if vertical in d.available {
        var rows := ReadVertical(d, q, vertical);
        results := results + rows;
        available := available + [vertical];
      } else {
        omitted := omitted + [vertical];
      }
    }
    assert verticals[..|verticals|] == verticals;
    if available == [] {
      return Unavailable;
    }
    results := Sort(results, KeyLe);
    BoundedFetchSuffices(d, q);
    return Found(Hits(Window(results, q.offset, q.limit)), |results| > q.offset + q.limit, available, omitted);
  }

  /** The page without its ranks. */
  function Hits<R>(items: seq<Item<R>>): (hits: seq<Hit<R>>)
    ensures |hits| == |items| && forall i :: 0 <= i < |items| ==> hits[i] == items[i].hit
  {
    seq(|items|, i requires 0 <= i < |items| => items[i].hit)
  }

  // ---- the sorted result is the concatenation of the tables ---------------------------------------

  function Base<R>(d: Directory<R>, q: Request<R>, t: Table): nat {
    if t == Advisers then |Fetched(d, q, Firms)| else 0
  }

  function Segment<R>(d: Directory<R>, q: Request<R>, t: Table): seq<Item<R>> {
    if Live(d, q, VerticalOf(t)) then Ranked(Fetched(d, q, t), Base(d, q, t)) else []
  }

  function Segments<R>(d: Directory<R>, q: Request<R>, tables: seq<Table>): seq<Item<R>> {
    if tables == [] then [] else Segment(d, q, tables[0]) + Segments(d, q, tables[1..])
  }

  lemma SegmentsFrom<R>(d: Directory<R>, q: Request<R>, t: Table, rest: seq<Table>)
    ensures Segments(d, q, [t] + rest) == Segment(d, q, t) + Segments(d, q, rest)
  {
    hide Segment;
    assert ([t] + rest)[1..] == rest;
  }

  lemma SegmentsOfOne<R>(d: Directory<R>, q: Request<R>, t: Table)
    ensures Segments(d, q, [t]) == Segment(d, q, t) && Segments(d, q, []) == []
  {
    hide Segment;
    assert [t][1..] == [];
  }

  lemma RankedAppend<R>(a: seq<Hit<R>>, b: seq<Hit<R>>)
    ensures Ranked(a + b, 0) == Ranked(a, 0) + Ranked(b, |a|)
  {}

  lemma VerticalHitsOf<R>(d: Directory<R>, q: Request<R>, tables: seq<Table>, t: Table)
    ensures VerticalHits(d, q, tables + [t]) == VerticalHits(d, q, tables) + Fetched(d, q, t)
    ensures VerticalHits(d, q, []) == []
  {
    hide Fetched;
    assert (tables + [t])[..|tables|] == tables;
  }

  lemma LiveSegment<R>(d: Directory<R>, q: Request<R>, t: Table)
    requires Live(d, q, VerticalOf(t))
    ensures Segment(d, q, t) == Ranked(Fetched(d, q, t), if t == Advisers then |Fetched(d, q, Firms)| else 0)
  {}

  lemma VerticalSegments<R>(d: Directory<R>, q: Request<R>, v: Vertical)
    requires Live(d, q, v)
    ensures Ranked(VerticalHits(d, q, TablesOf(v)), 0) == Segments(d, q, TablesOf(v))
  {
    hide *;
    TablesKnown(v);
    if v.Ria? {
      RiaSegments(d, q);
    } else {
      var t := TablesOf(v)[0];
      VerticalHitsOf(d, q, [], t);
      LiveSegment(d, q, t);
      SegmentsOfOne(d, q, t);
      assert [] + [t] == [t];
      assert [] + Fetched(d, q, t) == Fetched(d, q, t);
    }
  }

  lemma TablesKnown(v: Vertical)
    ensures v.Ria? ==> TablesOf(v) == [Firms, Advisers]
    ensures TablesOf(v) != [] && forall t :: t in TablesOf(v) ==> VerticalOf(t) == v
    ensures !v.Ria? ==> TablesOf(v) == [TablesOf(v)[0]] && TablesOf(v)[0] != Advisers
    ensures VerticalOf(Firms) == Ria && VerticalOf(Advisers) == Ria
  {}

  lemma RiaSegments<R>(d: Directory<R>, q: Request<R>)
    requires Live(d, q, Ria)
    ensures Ranked(VerticalHits(d, q, [Firms, Advisers]), 0) == Segments(d, q, [Firms, Advisers])
  {
    hide *;
    TablesKnown(Ria);
    var firms, advisers := Fetched(d, q, Firms), Fetched(d, q, Advisers);
    assert [Firms, Advisers] == [Firms] + [Advisers] && [Firms] == [] + [Firms];
    VerticalHitsOf(d, q, [], Firms);
    VerticalHitsOf(d, q, [Firms], Advisers);
    assert [] + firms == firms;
    LiveSegment(d, q, Firms);
    LiveSegment(d, q, Advisers);
    RankedAppend(firms, advisers);
    SegmentsFrom(d, q, Firms, [Advisers]);
    SegmentsOfOne(d, q, Advisers);
  }

  lemma GatherOne<R>(d: Directory<R>, q: Request<R>, vs: seq<Vertical>, v: Vertical)
    requires q.choice.All? || q.choice.vertical == v
    ensures Gathered(d, q, vs + [v]) == Gathered(d, q, vs) + Segments(d, q, TablesOf(v))
  {
    assert (vs + [v])[..|vs|] == vs;
    if v in d.available {
      VerticalSegments(d, q, v);
    } else {
      OtherVerticalsAreEmpty(d, q, v);
    }
  }

  lemma OtherVerticalsAreEmpty<R>(d: Directory<R>, q: Request<R>, v: Vertical)
    requires !Live(d, q, v)
    ensures forall t: Table :: VerticalOf(t) == v ==> Segment(d, q, t) == []
    ensures Segments(d, q, TablesOf(v)) == []
  {
    hide Live;
    match v
    case Ria =>
      SegmentsFrom(d, q, Firms, [Advisers]);
      SegmentsOfOne(d, q, Advisers);
      assert [Firms] + [Advisers] == TablesOf(v);
    case _ =>
  }

  lemma SegmentsOfVertical<R>(d: Directory<R>, q: Request<R>, v: Vertical)
    ensures Segments(d, q, TablesOf(v)) ==
            if v.Ria? then Segment(d, q, Firms) + Segment(d, q, Advisers) else Segment(d, q, TablesOf(v)[0])
  {
    hide Segment;
    match v
    case Ria =>
      SegmentsFrom(d, q, Firms, [Advisers]);
      SegmentsOfOne(d, q, Advisers);
      assert [Firms] + [Advisers] == TablesOf(v);
    case _ =>
      SegmentsOfOne(d, q, TablesOf(v)[0]);
      assert TablesOf(v) == [TablesOf(v)[0]];
  }

  lemma OrderedSegments<R>(d: Directory<R>, q: Request<R>)
    ensures Segments(d, q, ORDER) == Segment(d, q, Businesses) + (Segment(d, q, Providers) + (Segment(d, q, Hotels)
                                     + (Segment(d, q, Producers) + (Segment(d, q, Advisers) + Segment(d, q, Firms)))))
  {
    hide Segment, Segments;
    assert ORDER == [Businesses] + ([Providers] + ([Hotels] + ([Producers] + ([Advisers] + [Firms]))));
    SegmentsFrom(d, q, Businesses, [Providers] + ([Hotels] + ([Producers] + ([Advisers] + [Firms]))));
    SegmentsFrom(d, q, Providers, [Hotels] + ([Producers] + ([Advisers] + [Firms])));
    SegmentsFrom(d, q, Hotels, [Producers] + ([Advisers] + [Firms]));
    SegmentsFrom(d, q, Producers, [Advisers] + [Firms]);
    SegmentsFrom(d, q, Advisers, [Firms]);
    SegmentsOfOne(d, q, Firms);
  }

  lemma Rearranged<T>(a: seq<T>, b: seq<T>, c: seq<T>, d: seq<T>, e: seq<T>, f: seq<T>)
    ensures multiset(a + b + (c + d) + e + f) == multiset(f + (b + (a + (e + (d + c)))))
  {}

  /** What is gathered, whatever its order, is what the tables hold. */
  lemma GatheredContents<R>(d: Directory<R>, q: Request<R>)
    ensures multiset(Gathered(d, q, Verticals(q.choice))) == multiset(Segments(d, q, ORDER))
  {
    OrderedSegments(d, q);
    if q.choice.All? {
      GatherAll(d, q);
      hide *;
      Rearranged(Segment(d, q, Hotels), Segment(d, q, Providers), Segment(d, q, Firms), Segment(d, q, Advisers),
                 Segment(d, q, Producers), Segment(d, q, Businesses));
    } else {
      GatherOnly(d, q);
    }
  }

  lemma GatherAll<R>(d: Directory<R>, q: Request<R>)
    requires q.choice.All?
    ensures Gathered(d, q, Verticals(q.choice)) ==
            Segment(d, q, Hotels) + Segment(d, q, Providers) + (Segment(d, q, Firms) + Segment(d, q, Advisers))
            + Segment(d, q, Producers) + Segment(d, q, Businesses)
  {
    hide Gathered, Segment, Segments;
    GatherNone(d, q);
    var a, b, c := [Hotel], [Hotel, Healthcare], [Hotel, Healthcare, Ria];
    var e := c + [Insurance];
    assert a == [] + [Hotel] && b == a + [Healthcare] && c == b + [Ria] && VERTICALS == e + [Business];
    GatherOne(d, q, [], Hotel);
    GatherOne(d, q, a, Healthcare);
    GatherOne(d, q, b, Ria);
    GatherOne(d, q, c, Insurance);
    GatherOne(d, q, e, Business);
    SegmentsOfVertical(d, q, Hotel);
    SegmentsOfVertical(d, q, Healthcare);
    SegmentsOfVertical(d, q, Ria);
    SegmentsOfVertical(d, q, Insurance);
    SegmentsOfVertical(d, q, Business);
  }

  lemma GatherNone<R>(d: Directory<R>, q: Request<R>)
    ensures Gathered(d, q, []) == []
  {}

  lemma GatherOnly<R>(d: Directory<R>, q: Request<R>)
    requires q.choice.Only?
    ensures multiset(Gathered(d, q, Verticals(q.choice))) ==
            multiset(Segment(d, q, Businesses) + (Segment(d, q, Providers) + (Segment(d, q, Hotels)
                     + (Segment(d, q, Producers) + (Segment(d, q, Advisers) + Segment(d, q, Firms))))))
  {
    hide Gathered, Segment, Segments;
    var v := q.choice.vertical;
    GatherNone(d, q);
    GatherOne(d, q, [], v);
    assert [] + [v] == [v] && Verticals(q.choice) == [v];
    SegmentsOfVertical(d, q, v);
    forall t: Table | VerticalOf(t) != v ensures Segment(d, q, t) == [] {
      OtherVerticalsAreEmpty(d, q, VerticalOf(t));
    }
    var gathered := Gathered(d, q, [v]);
    var a, b, c := Segment(d, q, Businesses), Segment(d, q, Providers), Segment(d, q, Hotels);
    var p, r, f := Segment(d, q, Producers), Segment(d, q, Advisers), Segment(d, q, Firms);
    assert gathered == (if v.Ria? then f + r else Segment(d, q, TablesOf(v)[0]));
    TheOthersAreEmpty(gathered, v, a, b, c, p, r, f);
    Flattened(a, b, c, p, r, f);
  }

  lemma TheOthersAreEmpty<T>(gathered: seq<T>, v: Vertical, a: seq<T>, b: seq<T>, c: seq<T>, p: seq<T>, r: seq<T>, f: seq<T>)
    requires !v.Business? ==> a == []
    requires !v.Healthcare? ==> b == []
    requires !v.Hotel? ==> c == []
    requires !v.Insurance? ==> p == []
    requires !v.Ria? ==> r == [] && f == []
    requires match v case Business => gathered == a case Healthcare => gathered == b case Hotel => gathered == c
                     case Insurance => gathered == p case Ria => gathered == f + r
    ensures multiset(gathered) == multiset(a) + multiset(b) + multiset(c) + multiset(p) + multiset(r) + multiset(f)
  {}

  lemma Flattened<T>(a: seq<T>, b: seq<T>, c: seq<T>, d: seq<T>, e: seq<T>, f: seq<T>)
    ensures multiset(a + (b + (c + (d + (e + f))))) ==
            multiset(a) + multiset(b) + multiset(c) + multiset(d) + multiset(e) + multiset(f)
  {}

  lemma {:induction false} SelectedTable<R>(rows: seq<R>, t: Table, matches: (Table, R) -> bool)
    ensures forall h :: h in Selected(rows, t, matches) ==> h.table == t
  {
    if rows != [] {
      SelectedTable(rows[1..], t, matches);
    }
  }

  /** An item names its table, and its rank finds it there. */
  ghost predicate Placed<R>(d: Directory<R>, q: Request<R>, x: Item<R>, tables: seq<Table>) {
    var t := x.hit.table;
    t in tables && Base(d, q, t) <= x.rank < Base(d, q, t) + |Fetched(d, q, t)| && x.hit == Fetched(d, q, t)[x.rank - Base(d, q, t)]
  }

  lemma SegmentPlaced<R>(d: Directory<R>, q: Request<R>, t: Table, tables: seq<Table>, i: int)
    requires t in tables && 0 <= i < |Segment(d, q, t)|
    ensures var x := Segment(d, q, t)[i]; x.hit.table == t && x.rank == Base(d, q, t) + i && Placed(d, q, x, tables)
  {
    SelectedTable(d.rows(t), t, q.matches);
  }

  ghost predicate Ascending(tables: seq<Table>) {
    forall i, j :: 0 <= i < j < |tables| ==> Position(tables[i]) < Position(tables[j])
  }

  /** The concatenation is in key order. */
  lemma {:induction false} SegmentsSorted<R>(d: Directory<R>, q: Request<R>, tables: seq<Table>)
    requires Ascending(tables)
    ensures forall i :: 0 <= i < |Segments(d, q, tables)| ==> Placed(d, q, Segments(d, q, tables)[i], tables)
    ensures forall i, j :: 0 <= i < j < |Segments(d, q, tables)| ==> PlaceLe(Segments(d, q, tables)[i], Segments(d, q, tables)[j])
  {
    if tables != [] {
      SegmentsSorted(d, q, tables[1..]);
      var t, a, b := tables[0], Segment(d, q, tables[0]), Segments(d, q, tables[1..]);
      assert Segments(d, q, tables) == a + b;
      hide Segment, Segments, Placed;
      forall i | 0 <= i < |a| ensures a[i].hit.table == t && a[i].rank == Base(d, q, t) + i && Placed(d, q, a[i], tables) {
        SegmentPlaced(d, q, t, tables, i);
      }
      forall j | 0 <= j < |b| ensures Placed(d, q, b[j], tables) && Position(t) < Position(b[j].hit.table) {
        PlacedLater(d, q, b[j], tables);
      }
      hide *;
      SortedAppend(a, b);
    }
  }

  lemma PlacedLater<R>(d: Directory<R>, q: Request<R>, x: Item<R>, tables: seq<Table>)
    requires tables != [] && Ascending(tables) && Placed(d, q, x, tables[1..])
    ensures Placed(d, q, x, tables) && Position(tables[0]) < Position(x.hit.table)
  {
    hide Fetched, Base;
    var k :| 0 <= k < |tables[1..]| && tables[1..][k] == x.hit.table;
    assert tables[k + 1] == tables[1..][k];
  }

  lemma SortedAppend<R>(a: seq<Item<R>>, b: seq<Item<R>>)
    requires forall i, j :: 0 <= i < j < |a| ==> a[i].hit.table == a[j].hit.table && a[i].rank <= a[j].rank
    requires forall i, j :: 0 <= i < |a| && 0 <= j < |b| ==> Position(a[i].hit.table) < Position(b[j].hit.table)
    requires forall i, j :: 0 <= i < j < |b| ==> PlaceLe(b[i], b[j])
    ensures forall i, j :: 0 <= i < j < |a + b| ==> PlaceLe((a + b)[i], (a + b)[j])
  {}

  lemma OrderAscends()
    ensures Ascending(ORDER)
  {}

  /** The stable sort lays the tables out one after the other. */
  lemma SortedGathered<R(!new)>(d: Directory<R>, q: Request<R>)
    ensures Sort(Gathered(d, q, Verticals(q.choice)), KeyLe) == Segments(d, q, ORDER)
  {
    hide *;
    var gathered, target := Gathered(d, q, Verticals(q.choice)), Segments(d, q, ORDER);
    GatheredContents(d, q);
    SortContents(gathered, KeyLe<R>);
    KeyLeTotal<R>();
    SortSorted(gathered, KeyLe<R>);
    OrderAscends();
    SegmentsSorted(d, q, ORDER);
    TargetSorted(target);
    forall x, y | x in Sort(gathered, KeyLe) && y in Sort(gathered, KeyLe) && KeyLe(x, y) && KeyLe(y, x) ensures x == y {
      assert x in multiset(target) && y in multiset(target);
      SamePlace(d, q, x, y);
    }
    SortedUnique(Sort(gathered, KeyLe), target, KeyLe<R>);
  }

  lemma TargetSorted<R(!new)>(target: seq<Item<R>>)
    requires forall i, j :: 0 <= i < j < |target| ==> PlaceLe(target[i], target[j])
    ensures IsSorted(target, KeyLe)
  {
    hide KeyLe, PlaceLe;
    forall i, j | 0 <= i < j < |target| ensures KeyLe(target[i], target[j]) {
      KeyIsPlace(target[i], target[j]);
    }
  }

  lemma SamePlace<R>(d: Directory<R>, q: Request<R>, x: Item<R>, y: Item<R>)
    requires Placed(d, q, x, ORDER) && Placed(d, q, y, ORDER) && KeyLe(x, y) && KeyLe(y, x)
    ensures x == y
  {
    hide KeyLe, Fetched;
    KeyIsPlace(x, y);
    KeyIsPlace(y, x);
  }

  lemma KeyLeTotal<R(!new)>()
    ensures TotalPreorder(KeyLe<R>)
  {
    hide KeyLe;
    forall a: Item<R>, b: Item<R> ensures KeyLe(a, b) || KeyLe(b, a) {
      KeyIsPlace(a, b);
      KeyIsPlace(b, a);
    }
    forall a: Item<R>, b: Item<R>, c: Item<R> | KeyLe(a, b) && KeyLe(b, c) ensures KeyLe(a, c) {
      KeyIsPlace(a, b);
      KeyIsPlace(b, c);
      KeyIsPlace(a, c);
    }
  }

  // ---- the bounded fetch -----------------------------------------------------------------------

  lemma HitsAppend<R>(a: seq<Item<R>>, b: seq<Item<R>>)
    ensures Hits(a + b) == Hits(a) + Hits(b)
  {}

  lemma TruncatedAppend<T>(a: seq<T>, b: seq<T>, c: seq<T>, n: nat)
    requires Truncated(b, n) == Truncated(c, n)
    ensures Truncated(Truncated(a, n) + b, n) == Truncated(a + c, n)
  {
    var l, r := Truncated(Truncated(a, n) + b, n), Truncated(a + c, n);
    assert |b| < n ==> b == c;
    assert |b| >= n ==> |c| >= n;
    forall i | 0 <= i < |l| && i < |r| ensures l[i] == r[i] {
      if i >= |a| {
        assert Truncated(b, n)[i - |a|] == Truncated(c, n)[i - |a|];
      }
    }
  }

  lemma SegmentHits<R>(d: Directory<R>, q: Request<R>, t: Table)
    ensures Hits(Segment(d, q, t)) == if Live(d, q, VerticalOf(t)) then Fetched(d, q, t) else []
  {}

  /** The first page-and-one rows are those of the unbounded concatenation. */
  lemma {:induction false} BoundedPrefix<R>(d: Directory<R>, q: Request<R>, tables: seq<Table>)
    ensures var n := q.offset + q.limit + 1;
            Truncated(Hits(Segments(d, q, tables)), n) == Truncated(Everything(d, q, tables), n)
  {
    if tables != [] {
      BoundedPrefix(d, q, tables[1..]);
      HitsAppend(Segment(d, q, tables[0]), Segments(d, q, tables[1..]));
      SegmentHits(d, q, tables[0]);
      var a := if Live(d, q, VerticalOf(tables[0])) then Matches(d, q, tables[0]) else [];
      TruncatedAppend(a, Hits(Segments(d, q, tables[1..])), Everything(d, q, tables[1..]), q.offset + q.limit + 1);
      hide Truncated, Segment, Live, Matches;
    }
  }

  lemma WindowOfPrefix<T>(a: seq<T>, b: seq<T>, offset: nat, limit: nat)
    requires Truncated(a, offset + limit + 1) == Truncated(b, offset + limit + 1)
    ensures Window(a, offset, limit) == Window(b, offset, limit)
    ensures |a| > offset + limit <==> |b| > offset + limit
  {
    var n := offset + limit + 1;
    assert Truncated(a, offset + limit) == Truncated(Truncated(a, n), offset + limit);
    assert Truncated(b, offset + limit) == Truncated(Truncated(b, n), offset + limit);
    assert |Truncated(a, offset)| == |Truncated(b, offset)|;
  }

  lemma WindowHits<R>(items: seq<Item<R>>, offset: nat, limit: nat)
    ensures Hits(Window(items, offset, limit)) == Window(Hits(items), offset, limit)
  {}

  /** The page and the more-flag of the bounded search are those of the whole concatenation. */
  lemma BoundedFetchSuffices<R(!new)>(d: Directory<R>, q: Request<R>)
    ensures var results, all := Sort(Gathered(d, q, Verticals(q.choice)), KeyLe), Everything(d, q, ORDER);
            && Hits(Window(results, q.offset, q.limit)) == Window(all, q.offset, q.limit)
            && (|results| > q.offset + q.limit <==> |all| > q.offset + q.limit)
  {
    hide *;
    var results := Sort(Gathered(d, q, Verticals(q.choice)), KeyLe);
    SortedGathered(d, q);
    BoundedPrefix(d, q, ORDER);
    WindowOfPrefix(Hits(results), Everything(d, q, ORDER), q.offset, q.limit);
    WindowHits(results, q.offset, q.limit);
  }

  // ---- what an answer says ---------------------------------------------------------------------

  lemma {:induction false} SelectedAppend<R>(a: seq<R>, b: seq<R>, t: Table, matches: (Table, R) -> bool)
    ensures Selected(a + b, t, matches) == Selected(a, t, matches) + Selected(b, t, matches)
  {
    if a == [] {
      assert a + b == b;
    } else {
      SelectedAppend(a[1..], b, t, matches);
      assert (a + b)[1..] == a[1..] + b;
    }
  }

  /** A row is selected, once and in its place, exactly when it matches. */
  lemma SelectedIff<R>(before: seq<R>, row: R, after: seq<R>, t: Table, matches: (Table, R) -> bool)
    ensures Selected(before + [row] + after, t, matches) ==
            Selected(before, t, matches) + (if matches(t, row) then [Hit(t, row)] else []) + Selected(after, t, matches)
  {
    SelectedAppend(before + [row], after, t, matches);
    SelectedAppend(before, [row], t, matches);
  }

  predicate Requested(choice: Choice, v: Vertical) {
    choice == All || choice == Only(v)
  }

  /** The matching rows of a table, if its vertical was asked for and can be read. */
  function Part<R>(d: Directory<R>, q: Request<R>, t: Table, v: Vertical): seq<Hit<R>> {
    if Requested(q.choice, v) && v in d.available then Selected(d.rows(t), t, q.matches) else []
  }

  lemma EverythingIs<R>(d: Directory<R>, q: Request<R>)
    ensures Everything(d, q, ORDER) ==
            Part(d, q, Businesses, Business) + (Part(d, q, Providers, Healthcare) + (Part(d, q, Hotels, Hotel)
            + (Part(d, q, Producers, Insurance) + (Part(d, q, Advisers, Ria) + Part(d, q, Firms, Ria)))))
  {
    hide Selected, Part, Everything;
    assert ORDER == [Businesses] + ([Providers] + ([Hotels] + ([Producers] + ([Advisers] + [Firms]))));
    EverythingFrom(d, q, Businesses, Business, [Providers] + ([Hotels] + ([Producers] + ([Advisers] + [Firms]))));
    EverythingFrom(d, q, Providers, Healthcare, [Hotels] + ([Producers] + ([Advisers] + [Firms])));
    EverythingFrom(d, q, Hotels, Hotel, [Producers] + ([Advisers] + [Firms]));
    EverythingFrom(d, q, Producers, Insurance, [Advisers] + [Firms]);
    EverythingFrom(d, q, Advisers, Ria, [Firms]);
    EverythingFrom(d, q, Firms, Ria, []);
    assert [Firms] + [] == [Firms];
    assert Part(d, q, Firms, Ria) + [] == Part(d, q, Firms, Ria);
  }

  lemma EverythingFrom<R>(d: Directory<R>, q: Request<R>, t: Table, v: Vertical, rest: seq<Table>)
    requires v == VerticalOf(t)
    ensures Everything(d, q, [t] + rest) == Part(d, q, t, v) + Everything(d, q, rest)
    ensures Everything(d, q, []) == []
  {
    hide Selected;
    assert ([t] + rest)[1..] == rest;
  }

  function Rank(v: Vertical): nat {
    match v
    case Hotel => 0
    case Healthcare => 1
    case Ria => 2
    case Insurance => 3
    case Business => 4
  }

  ghost predicate Ranking(vs: seq<Vertical>) {
    forall i, j :: 0 <= i < j < |vs| ==> Rank(vs[i]) < Rank(vs[j])
  }

  lemma {:induction false} KeptIs(vs: seq<Vertical>, available: set<Vertical>, wanted: bool)
    requires Ranking(vs)
    ensures Ranking(Kept(vs, available, wanted))
    ensures forall v :: v in Kept(vs, available, wanted) <==> v in vs && (v in available <==> wanted)
  {
    hide Rank;
    if vs != [] {
      KeptIs(vs[..|vs| - 1], available, wanted);
      assert vs == vs[..|vs| - 1] + [vs[|vs| - 1]];
      forall v | v in vs[..|vs| - 1] ensures Rank(v) < Rank(vs[|vs| - 1]) {
        var i :| 0 <= i < |vs| - 1 && vs[..|vs| - 1][i] == v;
      }
    }
  }

  lemma VerticalsAre(choice: Choice)
    ensures Ranking(Verticals(choice)) && forall v :: v in Verticals(choice) <==> Requested(choice, v)
  {
    forall v ensures v in Verticals(choice) <==> Requested(choice, v) {
      assert VERTICALS[Rank(v)] == v;
      assert choice.Only? ==> Verticals(choice) == [choice.vertical];
    }
  }

  /** The response: nothing can be read, or the page at the offset with at most `limit` rows of everything there is,
      whether more follows, and which of the requested verticals were read and which omitted. */
  lemma AnswerIs<R>(d: Directory<R>, q: Request<R>)
    ensures var r, all := Answer(d, q), Everything(d, q, ORDER);
            && (r.Unavailable? <==> forall v :: Requested(q.choice, v) ==> v !in d.available)
            && (r.Found? ==>
                  && |r.page| == (if |all| <= q.offset then 0 else if |all| - q.offset < q.limit then |all| - q.offset else q.limit)
                  && (forall i :: 0 <= i < |r.page| ==> r.page[i] == all[q.offset + i])
                  && (r.hasMore <==> q.offset + q.limit < |all|)
                  && Ranking(r.available) && (forall v :: v in r.available <==> Requested(q.choice, v) && v in d.available)
                  && Ranking(r.omitted) && (forall v :: v in r.omitted <==> Requested(q.choice, v) && v !in d.available))
  {
    hide Everything, Kept, Ranking;
    var vs := Verticals(q.choice);
    VerticalsAre(q.choice);
    KeptIs(vs, d.available, true);
    KeptIs(vs, d.available, false);
    if Answer(d, q).Unavailable? {
      assert Kept(vs, d.available, true) == [];
    } else {
      assert Kept(vs, d.available, true)[0] in Kept(vs, d.available, true);
    }
  }

  /** The request for the page with this number. */
  function PageRequest<R>(q: Request<R>, n: nat): Request<R> {
    q.(offset := n * q.limit)
  }

  /** The first `n` pages, one after the other. */
  function Pages<R>(d: Directory<R>, q: Request<R>, n: nat): seq<Hit<R>> {
    if n == 0 then []
    else
      var r := Answer(d, PageRequest(q, n - 1));
      Pages(d, q, n - 1) + if r.Found? then r.page else []
  }

  lemma {:induction false} SameEverything<R>(d: Directory<R>, q: Request<R>, p: Request<R>, tables: seq<Table>)
    requires p.choice == q.choice && p.matches == q.matches
    ensures Everything(d, p, tables) == Everything(d, q, tables)
  {
    if tables != [] {
      SameEverything(d, q, p, tables[1..]);
    }
  }

  /** Turning pages: pages neither overlap nor leave anything out, and when one says that nothing more follows,
      everything has been shown. */
  lemma {:induction false} PagesTile<R>(d: Directory<R>, q: Request<R>, n: nat)
    requires Answer(d, q).Found?
    ensures var all := Everything(d, q, ORDER); Pages(d, q, n) == if |all| <= n * q.limit then all else all[..n * q.limit]
    ensures n > 0 ==> var r := Answer(d, PageRequest(q, n - 1));
                      r.Found? && (!r.hasMore <==> Pages(d, q, n) == Everything(d, q, ORDER))
  {
    hide Answer, Everything;
    AnswerIs(d, q);
    if n > 0 {
      PagesTile(d, q, n - 1);
      var p := PageRequest(q, n - 1);
      AnswerIs(d, p);
      SameEverything(d, q, p, ORDER);
      assert n * q.limit == (n - 1) * q.limit + q.limit;
    }
  }
}
