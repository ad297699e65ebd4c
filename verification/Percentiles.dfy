/** Mid-rank percentiles: the sorted scan over groups of ties, the counting form, and what they share. */
module Percentiles {
  import opened Sorting
  import opened Sums

  /** A dictionary is its list of entries in insertion order. */
  type Entry = (string, real)

  ghost predicate IsTable(items: seq<Entry>) {
    forall i, j :: 0 <= i < j < |items| ==> items[i].0 != items[j].0
  }

  function Values(items: seq<Entry>): seq<real> {
    if items == [] then [] else [items[0].1] + Values(items[1..])
  }

  function Below(v: real): real -> bool { x => x < v }

  function Tied(v: real): real -> bool { x => x == v }

  /** The share of values below `v`, ties counting half. */
  function MidRank(vals: seq<real>, v: real): real {
    if vals == [] then 0.0 else (Count(vals, Below(v)) as real + Count(vals, Tied(v)) as real / 2.0) / |vals| as real
  }

  function Percentile(zeroIsZero: bool, vals: seq<real>, v: real): real {
    if zeroIsZero && v <= 0.0 then 0.0 else MidRank(vals, v)
  }

  function EntryLe(): (Entry, Entry) -> bool {
    (a: Entry, b: Entry) => a.1 < b.1 || (a.1 == b.1 && TextLe(a.0, b.0))
  }

  lemma EntryLeIsOrder()
    ensures TotalPreorder(EntryLe())
  {
    forall a: Entry, b: Entry ensures EntryLe()(a, b) || EntryLe()(b, a) {
      TextLeTotal(a.0, b.0);
    }
    forall a: Entry, b: Entry, c: Entry | EntryLe()(a, b) && EntryLe()(b, c) ensures EntryLe()(a, c) {
      if a.1 == b.1 == c.1 {
        TextLeTransitive(a.0, b.0, c.0);
      }
    }
  }

  // ---- the scan over tie groups --------------------------------------------

  lemma {:induction false} ValuesAt(items: seq<Entry>, i: nat)
    requires i < |items|
    ensures |Values(items)| == |items| && Values(items)[i] == items[i].1
  {
    if i > 0 {
      ValuesAt(items[1..], i - 1);
    } else if |items| > 1 {
      ValuesAt(items[1..], 0);
    }
  }

  lemma ValuesShape(items: seq<Entry>)
    ensures |Values(items)| == |items| && forall i :: 0 <= i < |items| ==> Values(items)[i] == items[i].1
  {
    forall i | 0 <= i < |items| ensures |Values(items)| == |items| && Values(items)[i] == items[i].1 {
      ValuesAt(items, i);
    }
  }

  lemma {:induction false} CountValues(items: seq<Entry>, p: real -> bool)
    ensures Count(Values(items), p) == Count(items, (e: Entry) => p(e.1))
  {
    if items != [] {
      CountValues(items[1..], p);
      assert Values(items)[1..] == Values(items[1..]);
    }
  }

  lemma SortingKeepsRanks(items: seq<Entry>, v: real)
    ensures MidRank(Values(Sort(items, EntryLe())), v) == MidRank(Values(items), v)
  {
    var ordered := Sort(items, EntryLe());
    SortContents(items, EntryLe());
    ValuesShape(ordered);
    ValuesShape(items);
    forall p: real -> bool ensures Count(Values(ordered), p) == Count(Values(items), p) {
      CountValues(ordered, p);
      CountValues(items, p);
      CountSort(items, EntryLe(), (e: Entry) => p(e.1));
    }
  }

  /** In a sorted list, a maximal run of ties from `a` to `b` has mid-rank (a + b) / 2n. */
  lemma TieGroupRank(vals: seq<real>, a: nat, b: nat)
    requires a < b <= |vals| && IsSorted(vals, RealLe())
    requires forall i :: a <= i < b ==> vals[i] == vals[a]
    requires a > 0 ==> vals[a - 1] != vals[a]
    requires b < |vals| ==> vals[b] != vals[a]
    ensures (((a + b - 1) as real) / 2.0 + 0.5) / |vals| as real == MidRank(vals, vals[a])
  {
    var v := vals[a];
    forall i | 0 <= i < |vals| ensures (vals[i] < v <==> i < a) && (vals[i] == v <==> a <= i < b) {
      assert i < a - 1 ==> RealLe()(vals[i], vals[a - 1]);
      assert a > 0 ==> RealLe()(vals[a - 1], vals[a]);
      assert a < i ==> RealLe()(vals[a], vals[i]);
      assert b < |vals| ==> RealLe()(vals[a], vals[b]);
      assert b < i ==> RealLe()(vals[b], vals[i]);
    }
    CountRange(vals, Below(v), 0, a);
    CountRange(vals, Tied(v), a, b);
  }

  lemma OrderedTable(items: seq<Entry>)
    ensures var ordered := Sort(items, EntryLe());
            && |Values(ordered)| == |ordered| && IsSorted(Values(ordered), RealLe())
            && (forall i :: 0 <= i < |ordered| ==> Values(ordered)[i] == ordered[i].1)
            && (forall e :: e in ordered <==> e in items)
  {
    hide Sort, Values;
    var ordered := Sort(items, EntryLe());
    EntryLeIsOrder();
    SortSorted(items, EntryLe());
    SortMembers(items, EntryLe());
    ValuesShape(ordered);
    forall i, j | 0 <= i < j < |ordered| ensures RealLe()(Values(ordered)[i], Values(ordered)[j]) {
      assert EntryLe()(ordered[i], ordered[j]);
    }
  }

  /** The scan of the source: sort, then give every member of a tie group the group's middle rank. */
  method TieGroupScan(items: seq<Entry>, zeroIsZero: bool) returns (result: map<string, real>)
    requires IsTable(items)
    ensures forall k :: k in result <==> exists e :: e in items && e.0 == k
    ensures forall e :: e in items ==> result[e.0] == if zeroIsZero && e.1 <= 0.0 then 0.0 else MidRank(Values(items), e.1)
  {
    hide *;
    var ordered := Sort(items, EntryLe());
    ghost var vals := Values(ordered);
    OrderedTable(items);
    result := map[];
    NothingAssigned(zeroIsZero, vals);
    var total := |ordered|;
    var index := 0;
    assert ordered[..0] == [];
    while index < total
      invariant 0 <= index <= total
      invariant 0 < index < total ==> ordered[index - 1].1 != ordered[index].1
      invariant Assigned(ordered[..index], result, zeroIsZero, vals)
    {
      var end := index + 1;
      while end < total && ordered[end].1 == ordered[index].1
        invariant index < end <= total
        invariant forall i :: index <= i < end ==> ordered[i].1 == ordered[index].1
      {
        end := end + 1;
      }
      var percentile := (((index + end - 1) as real) / 2.0 + 0.5) / total as real;
      TieGroupRank(vals, index, end);
      result := AssignGroup(items, ordered, index, end, percentile, zeroIsZero, vals, result);
      index := end;
    }
    assert ordered[..total] == ordered;
    AllAssigned(items, ordered, result, zeroIsZero);
  }

  /** The inner loop: every member of the group from `a` to `b` gets the group's percentile. */
  method AssignGroup(ghost items: seq<Entry>, ordered: seq<Entry>, a: nat, b: nat, percentile: real, zeroIsZero: bool,
                     ghost vals: seq<real>, before: map<string, real>)
    returns (result: map<string, real>)
    requires a < b <= |ordered| && IsTable(items) && forall e :: e in ordered <==> e in items
    requires forall i :: a <= i < b ==> ordered[i].1 == ordered[a].1
    requires percentile == MidRank(vals, ordered[a].1)
    requires Assigned(ordered[..a], before, zeroIsZero, vals)
    ensures Assigned(ordered[..b], result, zeroIsZero, vals)
  {
    hide MidRank, Assigned, IsTable;
    result := before;
    for i := a to b
      invariant Assigned(ordered[..i], result, zeroIsZero, vals)
    {
      var value := if zeroIsZero && ordered[i].1 <= 0.0 then 0.0 else percentile;
      AssignOne(ordered, items, i, result, zeroIsZero, vals, value);
      result := result[ordered[i].0 := value];
    }
  }

  lemma NothingAssigned(zeroIsZero: bool, vals: seq<real>)
    ensures Assigned([], map[], zeroIsZero, vals)
  {}

  lemma AllAssigned(items: seq<Entry>, ordered: seq<Entry>, result: map<string, real>, zeroIsZero: bool)
    requires ordered == Sort(items, EntryLe()) && Assigned(ordered, result, zeroIsZero, Values(ordered))
    ensures forall k :: k in result <==> exists e :: e in items && e.0 == k
    ensures forall e :: e in items ==>
              e.0 in result && result[e.0] == if zeroIsZero && e.1 <= 0.0 then 0.0 else MidRank(Values(items), e.1)
  {
    hide MidRank, Sort, Values;
    SortMembers(items, EntryLe());
    forall e | e in items
      ensures e.0 in result && result[e.0] == if zeroIsZero && e.1 <= 0.0 then 0.0 else MidRank(Values(items), e.1)
    {
      SortingKeepsRanks(items, e.1);
    }
  }

  /** The result holds exactly the listed keys, each with the percentile of its value. */
  ghost predicate Assigned(done: seq<Entry>, result: map<string, real>, zeroIsZero: bool, vals: seq<real>) {
    && (forall k :: k in result <==> exists e :: e in done && e.0 == k)
    && (forall e :: e in done ==> e.0 in result && result[e.0] == Percentile(zeroIsZero, vals, e.1))
  }

  lemma AssignOne(ordered: seq<Entry>, items: seq<Entry>, i: nat, result: map<string, real>, zeroIsZero: bool, vals: seq<real>, value: real)
    requires i < |ordered| && IsTable(items) && forall e :: e in ordered <==> e in items
    requires Assigned(ordered[..i], result, zeroIsZero, vals)
    requires value == Percentile(zeroIsZero, vals, ordered[i].1)
    ensures Assigned(ordered[..i + 1], result[ordered[i].0 := value], zeroIsZero, vals)
  {
    hide Percentile;
    var next, x := result[ordered[i].0 := value], ordered[i];
    assert forall e :: e in ordered[..i + 1] <==> e in ordered[..i] || e == x;
    forall e | e in ordered[..i + 1] ensures e.0 in next && next[e.0] == Percentile(zeroIsZero, vals, e.1) {
      assert e in items && x in items;
      if e.0 == x.0 {
        var a :| 0 <= a < |items| && items[a] == e;
        var b :| 0 <= b < |items| && items[b] == x;
        assert a == b;
      }
    }
    forall k ensures k in next <==> exists e :: e in ordered[..i + 1] && e.0 == k {
      if k == x.0 {
        assert x in ordered[..i + 1];
      }
    }
  }

  // ---- the counting form ---------------------------------------------------

  /** The asset scorer's percentile of a value against a list; a one-element list answers one half. */
  function CountingPercentile(vals: seq<real>, v: real): real
    requires vals != []
  {
    if |vals| == 1 then 0.5
    else (Count(vals, Below(v)) as real + 0.5 * Count(vals, Tied(v)) as real) / |vals| as real
  }

  /** Two implementations, one percentile: they agree unless the list is one value and another one is asked for. */
  lemma CountingAgrees(vals: seq<real>, v: real)
    requires vals != []
    ensures CountingPercentile(vals, v) == MidRank(vals, v) <==> (|vals| == 1 ==> v == vals[0])
  {
    if |vals| == 1 {
      assert Count(vals[1..], Below(v)) == 0 && Count(vals[1..], Tied(v)) == 0;
    }
  }

  function Least(vals: seq<real>): real
    requires vals != []
  {
    if |vals| == 1 || vals[0] <= Least(vals[1..]) then vals[0] else Least(vals[1..])
  }

  function Greatest(vals: seq<real>): real
    requires vals != []
  {
    if |vals| == 1 || vals[0] >= Greatest(vals[1..]) then vals[0] else Greatest(vals[1..])
  }

  function Clamp(v: real, low: real, high: real): real {
    var raised := if v < low then low else v;
    if raised > high then high else raised
  }

  /** What the asset scorer asks for: the value is first brought into the range of the list. */
  function BoundedPercentile(vals: seq<real>, v: real): real
    requires vals != []
  {
    CountingPercentile(vals, Clamp(v, Least(vals), Greatest(vals)))
  }

  /** In the scorer's own use the two implementations always agree. */
  lemma BoundedAgrees(vals: seq<real>, v: real)
    requires vals != []
    ensures BoundedPercentile(vals, v) == MidRank(vals, Clamp(v, Least(vals), Greatest(vals)))
  {
    CountingAgrees(vals, Clamp(v, Least(vals), Greatest(vals)));
  }

  lemma {:induction false} LeastIsLeast(vals: seq<real>)
    requires vals != []
    ensures Least(vals) in vals && Greatest(vals) in vals
    ensures forall v :: v in vals ==> Least(vals) <= v <= Greatest(vals)
  {
    if |vals| > 1 {
      LeastIsLeast(vals[1..]);
      assert vals == [vals[0]] + vals[1..];
    }
  }

  /** The scorer's percentile grows with the value and lies in [0, 1]; for a listed value it is that value's mid-rank. */
  lemma BoundedMonotone(vals: seq<real>, u: real, v: real)
    requires vals != [] && u <= v
    ensures 0.0 <= BoundedPercentile(vals, u) <= BoundedPercentile(vals, v) <= 1.0
    ensures u in vals ==> BoundedPercentile(vals, u) == MidRank(vals, u)
  {
    hide Least, Greatest, CountingPercentile, MidRank;
    LeastIsLeast(vals);
    var low, high := Least(vals), Greatest(vals);
    BoundedAgrees(vals, u);
    BoundedAgrees(vals, v);
    MidRankRange(vals, Clamp(u, low, high));
    MidRankRange(vals, Clamp(v, low, high));
    if Clamp(u, low, high) < Clamp(v, low, high) {
      MidRankMonotone(vals, Clamp(u, low, high), Clamp(v, low, high));
    }
  }

  // ---- clipping a cohort ---------------------------------------------------------

  /** The position that a fraction of the way through the sorted list truncates to. */
  function Position(count: nat, fraction: real): (i: nat)
    requires count > 0 && 0.0 <= fraction <= 1.0
    ensures i < count
  {
    assert 0.0 <= (count - 1) as real * fraction <= (count - 1) as real;
    ((count - 1) as real * fraction).Floor
  }

  function Clipped(vals: seq<real>, low: real, high: real): (r: seq<real>)
    ensures |r| == |vals| && forall i :: 0 <= i < |vals| ==> r[i] == Clamp(vals[i], low, high)
  {
    seq(|vals|, i requires 0 <= i < |vals| => Clamp(vals[i], low, high))
  }

  /** The asset scorer's winsorising: short lists are kept, longer ones clipped to two of their own order statistics. */
  function ClipCohort(vals: seq<real>, fraction: real): seq<real>
    requires 0.0 <= fraction <= 1.0
  {
    if |vals| < 20 then vals
    else
      SortContents(vals, RealLe());
      var ordered := Sort(vals, RealLe());
      Clipped(vals, ordered[Position(|ordered|, fraction)], ordered[Position(|ordered|, 1.0 - fraction)])
  }

  /** Clipping keeps the number and the order of the values and brings none outside the observed range; the clipping
      bounds, and with them every clipped value, are values of the list. */
  lemma ClipKeepsOrder(vals: seq<real>, fraction: real, i: nat, j: nat)
    requires 0.0 <= fraction <= 1.0 && i < |vals| && j < |vals|
    ensures |ClipCohort(vals, fraction)| == |vals|
    ensures vals[i] <= vals[j] ==> ClipCohort(vals, fraction)[i] <= ClipCohort(vals, fraction)[j]
    ensures ClipCohort(vals, fraction)[i] in vals
  {
    if |vals| >= 20 {
      SortMembers(vals, RealLe());
      SortContents(vals, RealLe());
      hide Sort, Position;
    }
  }

  /** The whole steps that a fraction of the way through a list of this length comes to. */
  ghost predicate StandsAt(a: nat, count: int, fraction: real) {
    a as real <= (count - 1) as real * fraction < (a + 1) as real
  }

  /** From twenty values on, each is moved between the two order statistics at the fraction and its complement, counted in
      whole steps of the sorted list; a shorter list stays. */
  lemma ClippedIs(vals: seq<real>, ordered: seq<real>, fraction: real, a: nat, b: nat, i: nat)
    requires 0.0 <= fraction <= 1.0 && i < |vals| && multiset(ordered) == multiset(vals) && IsSorted(ordered, RealLe())
    requires StandsAt(a, |vals|, fraction) && StandsAt(b, |vals|, 1.0 - fraction)
    ensures a < |ordered| && b < |ordered|
    ensures ClipCohort(vals, fraction)[i] ==
            if |vals| <= 19 then vals[i]
            else var raised := if vals[i] >= ordered[a] then vals[i] else ordered[a]; if raised <= ordered[b] then raised else ordered[b]
  {
    hide *;
    SameLength(vals, ordered);
    PositionIs(|vals|, fraction, a);
    PositionIs(|vals|, 1.0 - fraction, b);
    ClippedAt(vals, ordered, fraction, i);
  }

  lemma ClippedAt(vals: seq<real>, ordered: seq<real>, fraction: real, i: nat)
    requires 0.0 <= fraction <= 1.0 && i < |vals| == |ordered| && multiset(ordered) == multiset(vals) && IsSorted(ordered, RealLe())
    ensures var low, high := ordered[Position(|vals|, fraction)], ordered[Position(|vals|, 1.0 - fraction)];
            ClipCohort(vals, fraction)[i] ==
            if |vals| <= 19 then vals[i]
            else var raised := if vals[i] >= low then vals[i] else low; if raised <= high then raised else high
  {
    hide Position, Sort;
    SortContents(vals, RealLe());
    SortSorted(vals, RealLe());
    SortedUnique(ordered, Sort(vals, RealLe()), RealLe());
  }

  lemma SameLength(a: seq<real>, b: seq<real>)
    requires multiset(a) == multiset(b)
    ensures |a| == |b|
  {
    assert |multiset(a)| == |a| && |multiset(b)| == |b|;
  }

  lemma PositionIs(count: nat, fraction: real, a: nat)
    requires count > 0 && 0.0 <= fraction <= 1.0 && StandsAt(a, count, fraction)
    ensures Position(count, fraction) == a
  {}

  // ---- order, range and total ------------------------------------------------

  /** Ties are equal by definition; a larger value never ranks lower, and ranks strictly higher when either value occurs. */
  lemma MidRankMonotone(vals: seq<real>, u: real, v: real)
    requires vals != [] && u < v
    ensures MidRank(vals, u) <= MidRank(vals, v)
    ensures u in vals || v in vals ==> MidRank(vals, u) < MidRank(vals, v)
  {
    var lowU, tieU, lowV, tieV := Count(vals, Below(u)), Count(vals, Tied(u)), Count(vals, Below(v)), Count(vals, Tied(v));
    CountSplit(vals, Below(u), Tied(u), x => x <= u);
    CountImplied(vals, x => x <= u, Below(v));
    if u in vals {
      CountPositive(vals, Tied(u), u);
    }
    if v in vals {
      CountPositive(vals, Tied(v), v);
    }
    DivideMonotone(lowU as real + tieU as real / 2.0, lowV as real + tieV as real / 2.0, |vals| as real);
  }

  lemma DivideMonotone(a: real, b: real, n: real)
    requires n > 0.0
    ensures a <= b ==> a / n <= b / n
    ensures a < b ==> a / n < b / n
  {}

  lemma DivideWithin(a: real, n: real)
    requires n > 0.0 && 0.0 <= a <= n
    ensures 0.0 <= a / n <= 1.0
    ensures 0.0 < a < n ==> 0.0 < a / n < 1.0
  {}

  /** Percentiles lie in [0, 1], and strictly inside for a value that occurs. */
  lemma MidRankRange(vals: seq<real>, v: real)
    requires vals != []
    ensures 0.0 <= MidRank(vals, v) <= 1.0
    ensures v in vals ==> 0.0 < MidRank(vals, v) < 1.0
  {
    var low, tie := Count(vals, Below(v)) as real, Count(vals, Tied(v)) as real;
    CountSplit(vals, Below(v), Tied(v), x => x <= v);
    CountAtMost(vals, x => x <= v);
    if v in vals {
      CountPositive(vals, Tied(v), v);
    }
    DivideWithin(low + tie / 2.0, |vals| as real);
  }

  /** Mapping non-positive values to zero keeps the order. */
  lemma PercentileMonotone(zeroIsZero: bool, vals: seq<real>, u: real, v: real)
    requires vals != [] && u <= v
    ensures Percentile(zeroIsZero, vals, u) <= Percentile(zeroIsZero, vals, v)
    ensures 0.0 <= Percentile(zeroIsZero, vals, u) <= 1.0
  {
    hide MidRank;
    MidRankRange(vals, u);
    MidRankRange(vals, v);
    if u < v {
      MidRankMonotone(vals, u, v);
    }
  }

  function Half(vals: seq<real>, v: real): real {
    Count(vals, Below(v)) as real + Count(vals, Tied(v)) as real / 2.0
  }

  function TotalHalf(outer: seq<real>, vals: seq<real>): real {
    if outer == [] then 0.0 else TotalHalf(outer[..|outer| - 1], vals) + Half(vals, outer[|outer| - 1])
  }

  lemma HalfAppend(vals: seq<real>, w: real, v: real)
    ensures Half(vals + [w], v) == Half(vals, v) + (if w < v then 1.0 else if w == v then 0.5 else 0.0)
  {
    CountAppend(vals, [w], Below(v));
    CountAppend(vals, [w], Tied(v));
    assert Count([w], Below(v)) == (if w < v then 1 else 0) && Count([w], Tied(v)) == if w == v then 1 else 0;
  }

  /** Of two entries each gives the other one half in total. */
  lemma {:induction false} TotalHalfGrows(outer: seq<real>, vals: seq<real>, w: real)
    ensures TotalHalf(outer, vals + [w]) == TotalHalf(outer, vals) + |outer| as real - Half(outer, w)
  {
    if outer != [] {
      var rest, v := outer[..|outer| - 1], outer[|outer| - 1];
      TotalHalfGrows(rest, vals, w);
      HalfAppend(vals, w, v);
      HalfAppend(rest, v, w);
      assert outer == rest + [v];
    }
  }

  function HalfSquare(k: nat): real {
    k as real * k as real / 2.0
  }

  lemma HalfSquareGrows(k: nat)
    ensures HalfSquare(k + 1) == HalfSquare(k) + k as real + 0.5 && HalfSquare(0) == 0.0
  {
    var n := k as real;
    assert (k + 1) as real == n + 1.0;
    assert (n + 1.0) * (n + 1.0) == n * n + 2.0 * n + 1.0;
  }

  lemma {:induction false} TotalHalfIsHalfSquare(vals: seq<real>)
    ensures TotalHalf(vals, vals) == HalfSquare(|vals|)
  {
    hide HalfSquare, Half;
    if vals == [] {
      HalfSquareGrows(0);
    } else {
      var rest, w := vals[..|vals| - 1], vals[|vals| - 1];
      TotalHalfIsHalfSquare(rest);
      TotalHalfGrows(rest, rest, w);
      HalfAppend(rest, w, w);
      assert vals == rest + [w];
      HalfSquareGrows(|rest|);
    }
  }

  lemma {:induction false} SumOfMidRanks(items: seq<Entry>, keys: seq<string>, vals: seq<real>, n: real, f: string -> real)
    requires n > 0.0 && |keys| == |items|
    requires forall i :: 0 <= i < |items| ==> f(keys[i]) == Half(vals, items[i].1) / n
    ensures Sum(keys, f) == TotalHalf(Values(items), vals) / n
  {
    hide Half;
    ValuesShape(items);
    if items == [] {
      ZeroOver(n);
    } else {
      var last := |items| - 1;
      ValuesShape(items[..last]);
      assert Values(items)[..last] == Values(items[..last]);
      SumOfMidRanks(items[..last], keys[..last], vals, n, f);
      AddOver(TotalHalf(Values(items[..last]), vals), Half(vals, items[last].1), n);
    }
  }

  lemma ZeroOver(n: real)
    requires n > 0.0
    ensures 0.0 / n == 0.0
  {}

  lemma AddOver(a: real, b: real, n: real)
    requires n > 0.0
    ensures (a + b) / n == a / n + b / n
  {}

  lemma HalfSquareOver(k: nat)
    requires k > 0
    ensures HalfSquare(k) / k as real == k as real / 2.0
  {
    assert HalfSquare(k) == (k as real / 2.0) * k as real;
  }

  lemma TotalHalfOver(vals: seq<real>)
    requires vals != []
    ensures TotalHalf(vals, vals) / |vals| as real == |vals| as real / 2.0
  {
    hide TotalHalf, HalfSquare;
    TotalHalfIsHalfSquare(vals);
    HalfSquareOver(|vals|);
  }

  lemma UnrankedIsHalf(result: map<string, real>, k: string, vals: seq<real>, v: real)
    requires k in result && result[k] == Percentile(false, vals, v) && vals != []
    ensures Of(result)(k) == Half(vals, v) / |vals| as real
  {}

  /** The percentiles of a table of n entries sum to n / 2. */
  lemma PercentilesSumToHalf(items: seq<Entry>, keys: seq<string>, result: map<string, real>)
    requires items != [] && |keys| == |items| && forall i :: 0 <= i < |items| ==> keys[i] == items[i].0
    requires forall e :: e in items ==> e.0 in result && result[e.0] == Percentile(false, Values(items), e.1)
    ensures Sum(keys, Of(result)) == |items| as real / 2.0
  {
    hide *;
    var n, vals := |items| as real, Values(items);
    ValuesShape(items);
    forall i | 0 <= i < |items| ensures Of(result)(keys[i]) == Half(vals, items[i].1) / n {
      assert items[i] in items;
      UnrankedIsHalf(result, items[i].0, vals, items[i].1);
    }
    SumOfMidRanks(items, keys, vals, n, Of(result));
    TotalHalfOver(vals);
  }
}
