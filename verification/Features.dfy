/** Evidence deduplication, and peer percentiles shrunk towards the global cohort. */
module Features {
  import opened Sorting
  import opened Sums
  import opened Percentiles

  datatype Kind =
    | RoleAuthority | InstitutionStrength | FounderBoard | OutcomeTrackRecord | KnowledgeCreation
    | CivicLeadership | CapitalAccess | TrustedReach | VerifiedSocialReach

  const ALL_KINDS: seq<Kind> := [RoleAuthority, InstitutionStrength, FounderBoard, OutcomeTrackRecord,
    KnowledgeCreation, CivicLeadership, CapitalAccess, TrustedReach, VerifiedSocialReach]

  /** `value` is the effective value at the reference date; `detail` is what neither the key nor the rank looks at. */
  datatype Signal = Signal(person: string, kind: Kind, evidence: string, value: real, observedOn: int, quality: real, family: string,
                           detail: string)

  type Key = (string, Kind, string)

  function KeyOf(s: Signal): Key {
    (s.person, s.kind, s.evidence)
  }

  /** The tuple comparison that decides whether `a` replaces `b`. */
  predicate Outranks(a: Signal, b: Signal) {
    a.value > b.value || (a.value == b.value &&
      (a.observedOn > b.observedOn || (a.observedOn == b.observedOn &&
        (a.quality > b.quality || (a.quality == b.quality && !TextLe(a.family, b.family))))))
  }

  // ---- deduplication ---------------------------------------------------------

  lemma OutranksTransitive(a: Signal, b: Signal, c: Signal)
    requires Outranks(a, b) && Outranks(b, c)
    ensures Outranks(a, c)
  {
    TextLeTotal(b.family, a.family);
    if TextLe(b.family, a.family) && TextLe(a.family, c.family) {
      TextLeTransitive(b.family, a.family, c.family);
    }
  }

  /** One signal per key, which no signal of that key outranks. */
  ghost predicate IsDedup(signals: seq<Signal>, selected: map<Key, Signal>, order: seq<Key>) {
    && Distinct(order)
    && (forall k :: k in order <==> k in selected)
    && (forall s :: s in signals ==> KeyOf(s) in selected && !Outranks(s, selected[KeyOf(s)]))
    && (forall k :: k in selected ==> selected[k] in signals && KeyOf(selected[k]) == k)
  }

  lemma OutranksWeak(a: Signal, b: Signal, c: Signal)
    requires !Outranks(a, b) && Outranks(c, b)
    ensures Outranks(c, a)
  {
    TextLeTotal(a.family, b.family);
    TextLeTotal(c.family, a.family);
    if TextLe(c.family, a.family) && TextLe(a.family, b.family) {
      TextLeTransitive(c.family, a.family, b.family);
    }
  }

  /** The signal at `i` is the first of the best ones of its key: it outranks the earlier ones, and no later one outranks it. */
  ghost predicate IsFirstBest(signals: seq<Signal>, i: int) {
    && 0 <= i < |signals|
    && (forall j :: 0 <= j < i && KeyOf(signals[j]) == KeyOf(signals[i]) ==> Outranks(signals[i], signals[j]))
    && (forall j :: i < j < |signals| && KeyOf(signals[j]) == KeyOf(signals[i]) ==> !Outranks(signals[j], signals[i]))
  }

  ghost predicate FirstBestSelected(signals: seq<Signal>, selected: map<Key, Signal>) {
    forall k :: k in selected ==> exists i :: IsFirstBest(signals, i) && signals[i] == selected[k] && KeyOf(signals[i]) == k
  }

  /** The keys in the order of their first appearance. */
  function KeysInOrder(signals: seq<Signal>): seq<Key> {
    if signals == [] then []
    else
      var keys, k := KeysInOrder(signals[..|signals| - 1]), KeyOf(signals[|signals| - 1]);
      if k in keys then keys else keys + [k]
  }

  /** A further signal that does not outrank the selected one of its key changes no choice. */
  lemma FirstBestStays(signals: seq<Signal>, s: Signal, i: int)
    requires IsFirstBest(signals, i) && (KeyOf(s) == KeyOf(signals[i]) ==> !Outranks(s, signals[i]))
    ensures IsFirstBest(signals + [s], i)
  {
    hide Outranks, KeyOf;
  }

  /** A further signal that outranks the first best one becomes the first best one. */
  lemma FirstBestReplaced(signals: seq<Signal>, s: Signal, i: int)
    requires IsFirstBest(signals, i) && KeyOf(s) == KeyOf(signals[i]) && Outranks(s, signals[i])
    ensures IsFirstBest(signals + [s], |signals|)
  {
    hide KeyOf;
    forall j | 0 <= j < |signals| && KeyOf(signals[j]) == KeyOf(s) ensures Outranks(s, signals[j]) {
      if j < i {
        OutranksTransitive(s, signals[i], signals[j]);
      } else if i < j {
        OutranksWeak(signals[j], signals[i], s);
      }
    }
    hide Outranks;
  }

  lemma FirstOfKey(signals: seq<Signal>, s: Signal)
    requires forall t :: t in signals ==> KeyOf(t) != KeyOf(s)
    ensures IsFirstBest(signals + [s], |signals|)
  {
    hide Outranks, KeyOf;
  }

  /** The choice after one more signal. */
  lemma SelectionGrows(signals: seq<Signal>, selected: map<Key, Signal>, order: seq<Key>, s: Signal)
    requires IsDedup(signals, selected, order) && FirstBestSelected(signals, selected)
    ensures var replace := KeyOf(s) !in selected || Outranks(s, selected[KeyOf(s)]);
            FirstBestSelected(signals + [s], if replace then selected[KeyOf(s) := s] else selected)
  {
    var replace := KeyOf(s) !in selected || Outranks(s, selected[KeyOf(s)]);
    var after := if replace then selected[KeyOf(s) := s] else selected;
    var all := signals + [s];
    assert KeyOf(s) !in selected ==> forall t :: t in signals ==> KeyOf(t) != KeyOf(s);
    hide IsDedup, Outranks, KeyOf, IsFirstBest;
    forall k | k in after ensures exists i :: IsFirstBest(all, i) && all[i] == after[k] && KeyOf(all[i]) == k {
      Bounded(signals);
      if k in selected {
        var i :| IsFirstBest(signals, i) && signals[i] == selected[k] && KeyOf(signals[i]) == k;
        if replace && k == KeyOf(s) {
          FirstBestReplaced(signals, s, i);
          assert all[|signals|] == s;
        } else {
          FirstBestStays(signals, s, i);
          assert all[i] == signals[i];
        }
      } else {
        FirstOfKey(signals, s);
        assert all[|signals|] == s;
      }
    }
    Bounded(all);
  }

  lemma Bounded(signals: seq<Signal>)
    ensures forall i :: IsFirstBest(signals, i) ==> 0 <= i < |signals|
  {}

  method Deduplicate(signals: seq<Signal>) returns (selected: map<Key, Signal>, order: seq<Key>, duplicates: nat)
    ensures IsDedup(signals, selected, order) && FirstBestSelected(signals, selected)
    ensures order == KeysInOrder(signals)
    ensures duplicates + |order| == |signals|
  {
    hide *;
    selected, order, duplicates := map[], [], 0;
    NothingSelected();
    assert signals[..0] == [];
    for i := 0 to |signals|
      invariant IsDedup(signals[..i], selected, order) && FirstBestSelected(signals[..i], selected)
      invariant order == KeysInOrder(signals[..i])
      invariant duplicates + |order| == i
    {
      var s := signals[i];
      assert signals[..i + 1] == signals[..i] + [s];
      SelectionGrows(signals[..i], selected, order, s);
      DedupGrows(signals[..i], selected, order, s);
      KeysGrow(signals[..i], s);
      if KeyOf(s) !in selected {
        selected, order := selected[KeyOf(s) := s], order + [KeyOf(s)];
      } else {
        duplicates := duplicates + 1;
        if Outranks(s, selected[KeyOf(s)]) {
          selected := selected[KeyOf(s) := s];
        }
      }
    }
    assert signals[..|signals|] == signals;
  }

  /** Of two signals, the one of more value is better, then the newer, then the one of higher quality, then the one whose
      family comes later in the dictionary. */
  ghost predicate NoBetter(a: Signal, b: Signal) {
    && a.value <= b.value
    && (a.value == b.value ==>
          && a.observedOn <= b.observedOn
          && (a.observedOn == b.observedOn ==> a.quality <= b.quality && (a.quality == b.quality ==> TextLe(a.family, b.family))))
  }

  /** What survives of a key: a signal of the same person, kind and evidence, as good as any of them, and the first such. */
  lemma SurvivorIsBest(signals: seq<Signal>, selected: map<Key, Signal>, order: seq<Key>, j: nat)
    requires IsDedup(signals, selected, order) && FirstBestSelected(signals, selected) && j < |signals|
    ensures (signals[j].person, signals[j].kind, signals[j].evidence) in selected
    ensures var s := selected[(signals[j].person, signals[j].kind, signals[j].evidence)];
            && s in signals && s.person == signals[j].person && s.kind == signals[j].kind && s.evidence == signals[j].evidence
            && NoBetter(signals[j], s)
            && exists i :: 0 <= i < |signals| && signals[i] == s && (j < i ==> !NoBetter(s, signals[j]))
  {
    var k := KeyOf(signals[j]);
    assert signals[j] in signals;
    var s := selected[k];
    var i :| IsFirstBest(signals, i) && signals[i] == s && KeyOf(signals[i]) == k;
    TextLeTotal(signals[j].family, s.family);
    if j < i {
      assert Outranks(s, signals[j]);
    }
  }

  lemma NothingSelected()
    ensures IsDedup([], map[], []) && FirstBestSelected([], map[]) && KeysInOrder([]) == []
  {}

  lemma KeysGrow(signals: seq<Signal>, s: Signal)
    ensures KeysInOrder(signals + [s]) ==
            var keys := KeysInOrder(signals); if KeyOf(s) in keys then keys else keys + [KeyOf(s)]
  {
    assert (signals + [s])[..|signals|] == signals;
  }

  lemma DedupGrows(signals: seq<Signal>, selected: map<Key, Signal>, order: seq<Key>, s: Signal)
    requires IsDedup(signals, selected, order)
    ensures KeyOf(s) in order <==> KeyOf(s) in selected
    ensures KeyOf(s) !in selected ==> IsDedup(signals + [s], selected[KeyOf(s) := s], order + [KeyOf(s)])
    ensures KeyOf(s) in selected ==>
              IsDedup(signals + [s], if Outranks(s, selected[KeyOf(s)]) then selected[KeyOf(s) := s] else selected, order)
  {
    TextLeTotal(s.family, s.family);
    if KeyOf(s) in selected && Outranks(s, selected[KeyOf(s)]) {
      forall t | Outranks(t, s) ensures Outranks(t, selected[KeyOf(s)]) {
        OutranksTransitive(t, s, selected[KeyOf(s)]);
      }
    }
  }

  /** What one key adds to the total of a person and a kind. */
  function Part(selected: map<Key, Signal>, person: string, kind: Kind): Key -> real {
    k => if k in selected && k.0 == person && k.1 == kind then selected[k].value else 0.0
  }

  function Total(selected: map<Key, Signal>, order: seq<Key>, person: string, kind: Kind): real {
    Sum(order, Part(selected, person, kind))
  }

  /** A key's contribution is the largest value seen for it. */
  lemma SelectedIsMaximum(signals: seq<Signal>, selected: map<Key, Signal>, order: seq<Key>, k: Key, v: real)
    requires IsDedup(signals, selected, order) && k in selected
    ensures v == selected[k].value <==>
            (exists s :: s in signals && KeyOf(s) == k && s.value == v) && (forall s :: s in signals && KeyOf(s) == k ==> s.value <= v)
  {
    var best := selected[k];
    assert best in signals && KeyOf(best) == k;
  }

  /** Evidence cannot be multiplied: the totals are a function of the set of signals, so neither repeating nor
      reordering any of them changes a total. */
  lemma TotalsDependOnSignalSet(a: seq<Signal>, selA: map<Key, Signal>, ordA: seq<Key>,
                                b: seq<Signal>, selB: map<Key, Signal>, ordB: seq<Key>, person: string, kind: Kind)
    requires IsDedup(a, selA, ordA) && IsDedup(b, selB, ordB)
    requires forall s :: s in a <==> s in b
    ensures Total(selA, ordA, person, kind) == Total(selB, ordB, person, kind)
  {
    forall k ensures k in selA <==> k in selB {
      if k in selA { assert selA[k] in b; }
      if k in selB { assert selB[k] in a; }
    }
    forall k | k in selA ensures selA[k].value == selB[k].value {
      assert selA[k] in b && selB[k] in a;
    }
    hide IsDedup;
    SumAgree(ordA, Part(selA, person, kind), Part(selB, person, kind));
    SumOrderFree(ordA, ordB, Part(selB, person, kind)) by {
      DedupOrder(a, selA, ordA);
      DedupOrder(b, selB, ordB);
    }
  }

  lemma DedupOrder(signals: seq<Signal>, selected: map<Key, Signal>, order: seq<Key>)
    requires IsDedup(signals, selected, order)
    ensures Distinct(order) && forall k :: k in order <==> k in selected
  {}

  type Totals = map<(string, Kind), real>

  datatype TotalsResult = Ok(totals: Totals) | UnknownPeople

  /** The totals after the first keys of `order`: zero for every listed person and kind, plus what was added. */
  ghost predicate TotalsFor(totals: Totals, people: set<string>, selected: map<Key, Signal>, order: seq<Key>) {
    && (forall p, k :: (p, k) in totals <==> p in people)
    && (forall p, k :: (p, k) in totals ==> totals[(p, k)] == Total(selected, order, p, k))
  }

  lemma TotalsGrow(totals: Totals, people: set<string>, selected: map<Key, Signal>, order: seq<Key>, key: Key)
    requires TotalsFor(totals, people, selected, order) && key in selected && key.0 in people
    ensures (key.0, key.1) in totals
    ensures TotalsFor(totals[(key.0, key.1) := totals[(key.0, key.1)] + selected[key].value], people, selected, order + [key])
  {
    hide Sum;
    assert (key.0, key.1) in totals;
    var next := totals[(key.0, key.1) := totals[(key.0, key.1)] + selected[key].value];
    forall p, k | (p, k) in next ensures next[(p, k)] == Total(selected, order + [key], p, k) {
      SumAppend(order, key, Part(selected, p, k));
    }
  }

  lemma TotalsStart(people: set<string>, totals: Totals, selected: map<Key, Signal>)
    requires forall p, k :: (p, k) in totals <==> p in people
    requires forall x :: x in totals ==> totals[x] == 0.0
    ensures TotalsFor(totals, people, selected, [])
  {}

  /** Accumulate the selected signals into one total per person and kind. A signal about nobody in `people` is an error,
      but without any people no signal is looked at. */
  method BuildTotals(people: set<string>, signals: seq<Signal>)
    returns (r: TotalsResult, ghost selected: map<Key, Signal>, ghost order: seq<Key>)
    ensures people == {} ==> r == Ok(map[])
    ensures people != {} ==> IsDedup(signals, selected, order)
    ensures people != {} ==> (r.UnknownPeople? <==> exists s :: s in signals && s.person !in people)
    ensures people != {} && r.Ok? ==> TotalsFor(r.totals, people, selected, order)
  {
    hide *;
    if people == {} {
      return Ok(map[]), map[], [];
    }
    var chosen, keys, duplicates := Deduplicate(signals);
    selected, order := chosen, keys;
    PeopleOfKeys(signals, chosen, keys, people);
    if exists k :: k in keys && k.0 !in people {
      return UnknownPeople, selected, order;
    }
    var totals := ZeroTotals(people);
    TotalsStart(people, totals, chosen);
    for i := 0 to |keys|
      invariant TotalsFor(totals, people, chosen, keys[..i])
    {
      var key := keys[i];
      assert key in keys && keys[..i + 1] == keys[..i] + [key];
      TotalsGrow(totals, people, chosen, keys[..i], key);
      totals := totals[(key.0, key.1) := totals[(key.0, key.1)] + chosen[key].value];
    }
    assert keys[..|keys|] == keys;
    r := Ok(totals);
  }

  method ZeroTotals(people: set<string>) returns (totals: Totals)
    ensures forall p, k :: (p, k) in totals <==> p in people
    ensures forall x :: x in totals ==> totals[x] == 0.0
  {
    EveryKind();
    totals := map p, k | p in people && k in ALL_KINDS :: (p, k) := 0.0;
  }

  lemma PeopleOfKeys(signals: seq<Signal>, selected: map<Key, Signal>, order: seq<Key>, people: set<string>)
    requires IsDedup(signals, selected, order)
    ensures forall k :: k in order ==> k in selected
    ensures (exists k :: k in order && k.0 !in people) <==> (exists s :: s in signals && s.person !in people)
  {
    if k :| k in order && k.0 !in people {
      assert selected[k] in signals && selected[k].person == k.0;
    }
    if s :| s in signals && s.person !in people {
      assert KeyOf(s) in order && KeyOf(s).0 == s.person;
    }
  }

  lemma EveryKind()
    ensures forall k: Kind :: k in ALL_KINDS
  {
    forall k: Kind ensures k in ALL_KINDS {
      match k
      case RoleAuthority => assert ALL_KINDS[0] == k;
      case InstitutionStrength => assert ALL_KINDS[1] == k;
      case FounderBoard => assert ALL_KINDS[2] == k;
      case OutcomeTrackRecord => assert ALL_KINDS[3] == k;
      case KnowledgeCreation => assert ALL_KINDS[4] == k;
      case CivicLeadership => assert ALL_KINDS[5] == k;
      case CapitalAccess => assert ALL_KINDS[6] == k;
      case TrustedReach => assert ALL_KINDS[7] == k;
      case VerifiedSocialReach => assert ALL_KINDS[8] == k;
    }
  }

  // ---- winsorising -----------------------------------------------------------

  /** The interpolated quantile of a list. */
  function Quantile(values: seq<real>, p: real): real
    requires 0.0 <= p <= 1.0
  {
    if values == [] then 0.0
    else
      SortContents(values, RealLe());
      Interpolate(Sort(values, RealLe()), p)
  }

  function Interpolate(ordered: seq<real>, p: real): real
    requires ordered != [] && 0.0 <= p <= 1.0
  {
    if |ordered| == 1 then ordered[0]
    else
      var position := p * (|ordered| - 1) as real;
      PositionInside(p, |ordered| - 1);
      var lower := position.Floor;
      var upper := if |ordered| - 1 < lower + 1 then |ordered| - 1 else lower + 1;
      var fraction := position - lower as real;
      ordered[lower] * (1.0 - fraction) + ordered[upper] * fraction
  }

  lemma PositionInside(p: real, top: int)
    requires 0.0 <= p <= 1.0 && top >= 0
    ensures 0.0 <= p * top as real <= top as real
    ensures 0 <= (p * top as real).Floor <= top
  {
    assert p * top as real <= 1.0 * top as real;
  }

  lemma MixForm(a: real, b: real, f: real)
    ensures a * (1.0 - f) + b * f == a + (b - a) * f
  {}

  lemma Mix(a: real, b: real, f: real)
    requires a <= b && 0.0 <= f <= 1.0
    ensures a <= a * (1.0 - f) + b * f <= b
  {
    MixForm(a, b, f);
    ScaleBetween(b - a, 0.0, f);
    ScaleBetween(b - a, f, 1.0);
  }

  lemma ScaleBetween(c: real, f: real, g: real)
    requires c >= 0.0 && f <= g
    ensures c * f <= c * g
  {}

  lemma MixMonotone(a: real, b: real, f: real, g: real)
    requires a <= b && 0.0 <= f <= g <= 1.0
    ensures a * (1.0 - f) + b * f <= a * (1.0 - g) + b * g
  {
    MixForm(a, b, f);
    MixForm(a, b, g);
    ScaleBetween(b - a, f, g);
  }

  /** The cell of the sorted list that a position falls into brackets the interpolated value. */
  lemma InterpolateBracket(ordered: seq<real>, p: real, lower: int, fraction: real)
    requires |ordered| > 1 && 0.0 <= p <= 1.0 && IsSorted(ordered, RealLe())
    requires lower == (p * (|ordered| - 1) as real).Floor && fraction == p * (|ordered| - 1) as real - lower as real
    ensures 0 <= lower <= |ordered| - 1 && 0.0 <= fraction < 1.0
    ensures var upper := if |ordered| - 1 < lower + 1 then |ordered| - 1 else lower + 1;
            && ordered[lower] <= Interpolate(ordered, p) <= ordered[upper]
            && Interpolate(ordered, p) == ordered[lower] * (1.0 - fraction) + ordered[upper] * fraction
  {
    PositionInside(p, |ordered| - 1);
    var upper := if |ordered| - 1 < lower + 1 then |ordered| - 1 else lower + 1;
    assert ordered[lower] <= ordered[upper] by {
      assert lower < upper ==> RealLe()(ordered[lower], ordered[upper]);
    }
    Mix(ordered[lower], ordered[upper], fraction);
  }

  /** Quantiles grow with the probability. */
  lemma InterpolateMonotone(ordered: seq<real>, p: real, q: real)
    requires ordered != [] && IsSorted(ordered, RealLe()) && 0.0 <= p <= q <= 1.0
    ensures Interpolate(ordered, p) <= Interpolate(ordered, q)
  {
    if |ordered| > 1 {
      var top := |ordered| - 1;
      var x, y := p * top as real, q * top as real;
      assert x <= y;
      var i, j := x.Floor, y.Floor;
      InterpolateBracket(ordered, p, i, x - i as real);
      InterpolateBracket(ordered, q, j, y - j as real);
      if i == j {
        var upper := if top < i + 1 then top else i + 1;
        assert i < upper ==> RealLe()(ordered[i], ordered[upper]);
        MixMonotone(ordered[i], ordered[upper], x - i as real, y - j as real);
      } else {
        assert i + 1 <= j;
        assert i + 1 < j ==> RealLe()(ordered[i + 1], ordered[j]);
      }
    }
  }

  /** A quantile lies between the smallest and the largest value. */
  lemma QuantileRange(values: seq<real>, p: real, low: real, high: real)
    requires values != [] && 0.0 <= p <= 1.0 && Within(values, low, high)
    ensures low <= Quantile(values, p) <= high
  {
    var ordered := Sort(values, RealLe());
    SortMembers(values, RealLe());
    SortContents(values, RealLe());
    SortSorted(values, RealLe());
    forall i | 0 <= i < |ordered| ensures low <= ordered[i] <= high {
      assert ordered[i] in ordered;
    }
    if |ordered| > 1 {
      var x := p * (|ordered| - 1) as real;
      InterpolateBracket(ordered, p, x.Floor, x - x.Floor as real);
    }
  }

  lemma QuantileMonotone(values: seq<real>, p: real, q: real)
    requires 0.0 <= p <= q <= 1.0
    ensures Quantile(values, p) <= Quantile(values, q)
  {
    if values != [] {
      SortContents(values, RealLe());
      SortSorted(values, RealLe());
      InterpolateMonotone(Sort(values, RealLe()), p, q);
    }
  }

  function ClampAll(items: seq<Entry>, floor: real, ceiling: real): (r: seq<Entry>)
    ensures |r| == |items| && forall i :: 0 <= i < |items| ==> r[i] == (items[i].0, Clamp(items[i].1, floor, ceiling))
  {
    seq(|items|, i requires 0 <= i < |items| => (items[i].0, Clamp(items[i].1, floor, ceiling)))
  }

  const LOWER_TAIL := 0.01
  const UPPER_TAIL := 0.99

  function Winsorize(items: seq<Entry>): seq<Entry> {
    ClampAll(items, Quantile(Values(items), LOWER_TAIL), Quantile(Values(items), UPPER_TAIL))
  }

  ghost predicate Within(values: seq<real>, low: real, high: real) {
    forall v :: v in values ==> low <= v <= high
  }

  /** Winsorising keeps the keys and the order of values, and moves nothing outside the observed range. */
  lemma WinsorizeKeepsOrder(items: seq<Entry>, i: nat, j: nat)
    requires i < |items| && j < |items| && items[i].1 <= items[j].1
    ensures Winsorize(items)[i].1 <= Winsorize(items)[j].1
    ensures Winsorize(items)[i].0 == items[i].0
    ensures forall low, high :: Within(Values(items), low, high) ==> low <= Winsorize(items)[i].1 <= high
  {
    hide Quantile, Values;
    var vals := Values(items);
    ValuesShape(items);
    QuantileMonotone(vals, LOWER_TAIL, UPPER_TAIL);
    assert vals[i] in vals;
    forall low, high | Within(vals, low, high) ensures low <= Winsorize(items)[i].1 <= high {
      QuantileRange(vals, LOWER_TAIL, low, high);
      QuantileRange(vals, UPPER_TAIL, low, high);
    }
  }

  /** The quantile is the piecewise linear curve through the sorted values, at equal steps: between the k-th and the next
      one it runs straight, whichever sorting of the values is taken. */
  lemma QuantileIs(values: seq<real>, ordered: seq<real>, p: real, k: nat)
    requires 0.0 <= p <= 1.0 && multiset(ordered) == multiset(values) && IsSorted(ordered, RealLe())
    requires k + 1 < |ordered| && k as real <= p * (|ordered| - 1) as real <= (k + 1) as real
    ensures Quantile(values, p) == ordered[k] + (ordered[k + 1] - ordered[k]) * (p * (|ordered| - 1) as real - k as real)
  {
    QuantileOfSorted(values, ordered, p);
    hide Quantile, Interpolate;
    StraightPiece(ordered, p, k);
  }

  lemma QuantileOfFew(v: real, p: real)
    requires 0.0 <= p <= 1.0
    ensures Quantile([], p) == 0.0 && Quantile([v], p) == v
  {
    SortContents([v], RealLe());
    assert |multiset([v])| == 1;
    assert |multiset(Sort([v], RealLe()))| == |Sort([v], RealLe())|;
    assert Sort([v], RealLe())[0] in multiset([v]);
  }

  lemma QuantileOfSorted(values: seq<real>, ordered: seq<real>, p: real)
    requires 0.0 <= p <= 1.0 && multiset(ordered) == multiset(values) && IsSorted(ordered, RealLe()) && ordered != []
    ensures Quantile(values, p) == Interpolate(ordered, p)
  {
    hide Interpolate;
    assert |multiset(ordered)| == |ordered| && |multiset(values)| == |values|;
    SortSorted(values, RealLe());
    SortContents(values, RealLe());
    SortedUnique(ordered, Sort(values, RealLe()), RealLe());
  }

  lemma StraightPiece(ordered: seq<real>, p: real, k: nat)
    requires 0.0 <= p <= 1.0 && k + 1 < |ordered| && k as real <= p * (|ordered| - 1) as real <= (k + 1) as real
    ensures Interpolate(ordered, p) == ordered[k] + (ordered[k + 1] - ordered[k]) * (p * (|ordered| - 1) as real - k as real)
  {
    var x := p * (|ordered| - 1) as real;
    PositionInside(p, |ordered| - 1);
    if x == (k + 1) as real {
      assert x.Floor == k + 1;
    } else {
      assert x.Floor == k;
      MixForm(ordered[k], ordered[k + 1], x - k as real);
    }
  }

  /** Winsorising moves what lies beyond the 0.01 and 0.99 quantiles onto them, and nothing else. */
  lemma WinsorizedIs(items: seq<Entry>, i: nat)
    requires i < |items|
    ensures var low, high := Quantile(Values(items), 0.01), Quantile(Values(items), 0.99);
            var (key, v) := items[i];
            low <= high && Winsorize(items)[i] == (key, if v < low then low else if v > high then high else v)
  {
    hide Quantile, Values;
    QuantileMonotone(Values(items), 0.01, 0.99);
  }

  // ---- lane shrinkage ----------------------------------------------------------

  type Lane = string

  datatype Context = Context(person: string, lane: Lane)

  datatype LaneResult = Scores(scores: map<string, real>) | KeyError

  ghost predicate DistinctPeople(contexts: seq<Context>) {
    forall i, j :: 0 <= i < j < |contexts| ==> contexts[i].person != contexts[j].person
  }

  ghost predicate HasKey(items: seq<Entry>, k: string) {
    exists e :: e in items && e.0 == k
  }

  /** Dictionary lookup with the default zero. */
  function Lookup(items: seq<Entry>, k: string): real {
    if items == [] then 0.0 else if items[0].0 == k then items[0].1 else Lookup(items[1..], k)
  }

  lemma {:induction false} LookupIs(items: seq<Entry>, i: nat)
    requires IsTable(items) && i < |items|
    ensures Lookup(items, items[i].0) == items[i].1
  {
    if i > 0 {
      assert items[1..][i - 1] == items[i];
      LookupIs(items[1..], i - 1);
    }
  }

  function Members(contexts: seq<Context>, lane: Lane): seq<string> {
    if contexts == [] then []
    else
      var before := Members(contexts[..|contexts| - 1], lane);
      if contexts[|contexts| - 1].lane == lane then before + [contexts[|contexts| - 1].person] else before
  }

  ghost predicate Belongs(contexts: seq<Context>, lane: Lane, p: string) {
    Context(p, lane) in contexts
  }

  lemma MembersAppend(contexts: seq<Context>, c: Context, lane: Lane)
    ensures Members(contexts + [c], lane) == if c.lane == lane then Members(contexts, lane) + [c.person] else Members(contexts, lane)
  {
    assert (contexts + [c])[..|contexts|] == contexts;
  }

  lemma {:induction false} MembersAre(contexts: seq<Context>, lane: Lane)
    requires DistinctPeople(contexts)
    ensures Distinct(Members(contexts, lane))
    ensures forall p :: p in Members(contexts, lane) <==> Belongs(contexts, lane, p)
  {
    if contexts != [] {
      var rest, last := contexts[..|contexts| - 1], contexts[|contexts| - 1];
      MembersAre(rest, lane);
      assert contexts == rest + [last];
      MembersAppend(rest, last, lane);
      assert last.person !in Members(rest, lane) by {
        assert forall c :: c in rest ==> c.person != last.person;
      }
    }
  }

  function LaneValues(winsorized: seq<Entry>, members: seq<string>): (r: seq<Entry>)
    ensures |r| == |members| && forall i :: 0 <= i < |members| ==> r[i] == (members[i], Lookup(winsorized, members[i]))
  {
    seq(|members|, i requires 0 <= i < |members| => (members[i], Lookup(winsorized, members[i])))
  }

  function Blend(laneSize: nat, shrinkage: real, lane: real, global: real): real
    requires shrinkage >= 0.0 && laneSize > 0
  {
    var weight := laneSize as real / (laneSize as real + shrinkage);
    weight * lane + (1.0 - weight) * global
  }

  /** A person's score: the percentile among lane peers, shrunk towards the global one by lane size. */
  function Shrunk(totals: seq<Entry>, contexts: seq<Context>, shrinkage: real, c: Context): real
    requires shrinkage >= 0.0
  {
    var w := Winsorize(totals);
    var members := Members(contexts, c.lane);
    var lane := Values(LaneValues(w, members));
    if members == [] then 0.0
    else Blend(|members|, shrinkage, Percentile(true, lane, Lookup(w, c.person)), Percentile(true, Values(w), Lookup(w, c.person)))
  }

  lemma BlendWithin(n: nat, k: real, a: real, b: real)
    requires n > 0 && k >= 0.0 && 0.0 <= a <= 1.0 && 0.0 <= b <= 1.0
    ensures 0.0 <= Blend(n, k, a, b) <= 1.0
  {
    BlendMonotone(n, k, 0.0, a, 0.0, b);
    BlendMonotone(n, k, a, 1.0, b, 1.0);
  }

  lemma BlendMonotone(n: nat, k: real, a: real, a': real, b: real, b': real)
    requires n > 0 && k >= 0.0 && a <= a' && b <= b'
    ensures Blend(n, k, a, b) <= Blend(n, k, a', b')
    ensures Blend(n, k, a, a) == a
  {
    var w := n as real / (n as real + k);
    DivideWithin(n as real, n as real + k);
    ScaleBetween(w, a, a');
    ScaleBetween(1.0 - w, b, b');
    MixForm(a, a, w);
  }

  lemma ShrunkParts(totals: seq<Entry>, contexts: seq<Context>, c: Context)
    requires DistinctPeople(contexts) && c in contexts && HasKey(totals, c.person)
    ensures Members(contexts, c.lane) != [] && Values(LaneValues(Winsorize(totals), Members(contexts, c.lane))) != []
    ensures Values(Winsorize(totals)) != []
  {
    hide Values, Members, Winsorize;
    MembersAre(contexts, c.lane);
    var members := Members(contexts, c.lane);
    assert Belongs(contexts, c.lane, c.person) && c.person in members;
    ValuesShape(LaneValues(Winsorize(totals), members));
    ValuesShape(Winsorize(totals));
    WinsorizeShape(totals);
  }

  lemma WinsorizeShape(items: seq<Entry>)
    ensures |Winsorize(items)| == |items| && forall i :: 0 <= i < |items| ==> Winsorize(items)[i].0 == items[i].0
  {}

  /** The people of a lane. */
  function Peers(contexts: seq<Context>, lane: Lane): set<string> {
    set c | c in contexts && c.lane == lane :: c.person
  }

  lemma {:induction false} DistinctSize(s: seq<string>)
    requires Distinct(s)
    ensures |set x | x in s| == |s|
  {
    if s != [] {
      DistinctSize(s[1..]);
      assert s == [s[0]] + s[1..];
      assert (set x | x in s) == {s[0]} + (set x | x in s[1..]);
      assert s[0] !in s[1..];
    }
  }

  lemma MembersArePeers(contexts: seq<Context>, lane: Lane)
    requires DistinctPeople(contexts)
    ensures |Members(contexts, lane)| == |Peers(contexts, lane)|
  {
    hide Members;
    MembersAre(contexts, lane);
    DistinctSize(Members(contexts, lane));
    forall p ensures p in Peers(contexts, lane) <==> p in Members(contexts, lane) {
      assert Belongs(contexts, lane, p) <==> Context(p, lane) in contexts;
    }
    assert Peers(contexts, lane) == set p | p in Members(contexts, lane);
  }

  /** Where a winsorised total stands in a list: its mid-rank, or zero when it is not positive. */
  function Standing(values: seq<real>, v: real): real {
    if v <= 0.0 then 0.0 else MidRank(values, v)
  }

  /** Among the lane's people. */
  function OwnStanding(totals: seq<Entry>, contexts: seq<Context>, c: Context): real {
    var w := Winsorize(totals);
    Standing(Values(LaneValues(w, Members(contexts, c.lane))), Lookup(w, c.person))
  }

  /** Among everybody. */
  function GlobalStanding(totals: seq<Entry>, c: Context): real {
    var w := Winsorize(totals);
    Standing(Values(w), Lookup(w, c.person))
  }

  /** The score weighs the standing among the lane's people by their number, and the one among everybody by the shrinkage. */
  ghost predicate Weighed(score: real, totals: seq<Entry>, contexts: seq<Context>, shrinkage: real, c: Context) {
    var n := |Peers(contexts, c.lane)| as real;
    n + shrinkage > 0.0 && score * (n + shrinkage) == n * OwnStanding(totals, contexts, c) + shrinkage * GlobalStanding(totals, c)
  }

  lemma BlendWeighs(n: nat, k: real, a: real, b: real)
    requires n > 0 && k >= 0.0
    ensures Blend(n, k, a, b) * (n as real + k) == n as real * a + k * b
  {
    var t := n as real + k;
    var w := n as real / t;
    assert w * t == n as real;
    assert (w * a) * t == (w * t) * a;
    assert ((1.0 - w) * b) * t == (t - w * t) * b;
  }

  lemma ShrunkWeighs(totals: seq<Entry>, contexts: seq<Context>, shrinkage: real, c: Context)
    requires DistinctPeople(contexts) && c in contexts && HasKey(totals, c.person) && shrinkage >= 0.0
    ensures Weighed(Shrunk(totals, contexts, shrinkage, c), totals, contexts, shrinkage, c)
  {
    hide Values, Members, Winsorize, Blend, Lookup, MidRank, Peers, LaneValues;
    ShrunkParts(totals, contexts, c);
    MembersArePeers(contexts, c.lane);
    var w, members := Winsorize(totals), Members(contexts, c.lane);
    var v := Lookup(w, c.person);
    BlendWeighs(|members|, shrinkage, Percentile(true, Values(LaneValues(w, members)), v), Percentile(true, Values(w), v));
  }

  lemma Balance(n: real, k: real, score: real, own: real, all: real)
    requires n >= 0.0 && k >= 0.0 && score * (n + k) == n * own + k * all
    ensures Abs(score - own) * (n + k) == k * Abs(all - own)
    ensures Abs(score - all) * (n + k) == n * Abs(all - own)
  {
    assert (score - own) * (n + k) == k * (all - own);
    assert (score - all) * (n + k) == n * (own - all);
    AbsProduct(score - own, n + k);
    AbsProduct(score - all, n + k);
    AbsProduct(all - own, k);
    AbsProduct(own - all, n);
  }

  lemma AbsProduct(x: real, c: real)
    requires c >= 0.0
    ensures Abs(x * c) == Abs(x) * c && Abs(c * x) == c * Abs(x)
  {
    if x >= 0.0 {
      ScaleBetween(c, 0.0, x);
    } else {
      ScaleBetween(c, x, 0.0);
    }
  }

  /** Shrinkage: the distance to the lane's own percentile is to the distance to the global one as the shrinkage is to
      the number of the lane's people, so large lanes keep their own percentile and small ones get the global one. */
  lemma ShrunkBalance(totals: seq<Entry>, contexts: seq<Context>, shrinkage: real, c: Context)
    requires DistinctPeople(contexts) && c in contexts && HasKey(totals, c.person) && shrinkage >= 0.0
    ensures var n, score := |Peers(contexts, c.lane)| as real, Shrunk(totals, contexts, shrinkage, c);
            var own, all := OwnStanding(totals, contexts, c), GlobalStanding(totals, c);
            && Abs(score - own) * (n + shrinkage) == shrinkage * Abs(all - own)
            && Abs(score - all) * (n + shrinkage) == n * Abs(all - own)
  {
    hide Shrunk, OwnStanding, GlobalStanding, Peers;
    ShrunkWeighs(totals, contexts, shrinkage, c);
    Balance(|Peers(contexts, c.lane)| as real, shrinkage, Shrunk(totals, contexts, shrinkage, c),
            OwnStanding(totals, contexts, c), GlobalStanding(totals, c));
  }

  /** Scores stay in [0, 1]. */
  lemma ShrunkWithin(totals: seq<Entry>, contexts: seq<Context>, shrinkage: real, c: Context)
    requires DistinctPeople(contexts) && c in contexts && HasKey(totals, c.person) && shrinkage >= 0.0
    ensures 0.0 <= Shrunk(totals, contexts, shrinkage, c) <= 1.0
  {
    hide Values, Members, Winsorize, Percentile, Blend, Lookup;
    ShrunkParts(totals, contexts, c);
    var w, members := Winsorize(totals), Members(contexts, c.lane);
    var v := Lookup(w, c.person);
    PercentileMonotone(true, Values(LaneValues(w, members)), v, v);
    PercentileMonotone(true, Values(w), v, v);
    BlendWithin(|members|, shrinkage, Percentile(true, Values(LaneValues(w, members)), v), Percentile(true, Values(w), v));
  }

  lemma WinsorizedLookup(totals: seq<Entry>, p: string, q: string)
    requires IsTable(totals) && HasKey(totals, p) && HasKey(totals, q) && Lookup(totals, p) <= Lookup(totals, q)
    ensures Lookup(Winsorize(totals), p) <= Lookup(Winsorize(totals), q)
  {
    hide Winsorize, Lookup;
    var x :| x in totals && x.0 == p;
    var y :| y in totals && y.0 == q;
    var i :| 0 <= i < |totals| && totals[i] == x;
    var j :| 0 <= j < |totals| && totals[j] == y;
    WinsorizeShape(totals);
    LookupIs(totals, i);
    LookupIs(totals, j);
    LookupIs(Winsorize(totals), i);
    LookupIs(Winsorize(totals), j);
    WinsorizeKeepsOrder(totals, i, j);
  }

  /** Within a lane, a larger total never gets a smaller score. */
  lemma ShrunkMonotone(totals: seq<Entry>, contexts: seq<Context>, shrinkage: real, c: Context, d: Context)
    requires IsTable(totals) && DistinctPeople(contexts) && shrinkage >= 0.0
    requires c in contexts && d in contexts && c.lane == d.lane && HasKey(totals, c.person) && HasKey(totals, d.person)
    requires Lookup(totals, c.person) <= Lookup(totals, d.person)
    ensures Shrunk(totals, contexts, shrinkage, c) <= Shrunk(totals, contexts, shrinkage, d)
  {
    hide Values, Members, Winsorize, Percentile, Blend, Lookup;
    ShrunkParts(totals, contexts, c);
    var w, members := Winsorize(totals), Members(contexts, c.lane);
    var lane := Values(LaneValues(w, members));
    var u, v := Lookup(w, c.person), Lookup(w, d.person);
    WinsorizedLookup(totals, c.person, d.person);
    PercentileMonotone(true, lane, u, v);
    PercentileMonotone(true, Values(w), u, v);
    BlendMonotone(|members|, shrinkage, Percentile(true, lane, u), Percentile(true, lane, v),
      Percentile(true, Values(w), u), Percentile(true, Values(w), v));
  }

  // ---- the lane loops ------------------------------------------------------------

  ghost predicate Grouped(groups: map<Lane, seq<string>>, lanes: seq<Lane>, contexts: seq<Context>) {
    && (forall l :: l in groups <==> l in lanes)
    && (forall l :: l in lanes <==> Members(contexts, l) != [])
    && (forall l :: l in groups ==> groups[l] == Members(contexts, l))
  }

  lemma GroupOne(groups: map<Lane, seq<string>>, lanes: seq<Lane>, contexts: seq<Context>, c: Context)
    requires Grouped(groups, lanes, contexts)
    ensures c.lane in groups ==> Grouped(groups[c.lane := groups[c.lane] + [c.person]], lanes, contexts + [c])
    ensures c.lane !in groups ==> Grouped(groups[c.lane := [c.person]], lanes + [c.lane], contexts + [c])
  {
    forall lane ensures Members(contexts + [c], lane) ==
                        if c.lane == lane then Members(contexts, lane) + [c.person] else Members(contexts, lane)
    {
      MembersAppend(contexts, c, lane);
    }
    hide Members;
    assert c.lane !in groups ==> Members(contexts, c.lane) + [c.person] == [c.person];
  }

  lemma NothingGrouped()
    ensures Grouped(map[], [], [])
  {}

  method GroupByLane(contexts: seq<Context>) returns (groups: map<Lane, seq<string>>, lanes: seq<Lane>)
    ensures Grouped(groups, lanes, contexts)
  {
    hide Members;
    groups, lanes := map[], [];
    NothingGrouped();
    for i := 0 to |contexts|
      invariant Grouped(groups, lanes, contexts[..i])
    {
      var c := contexts[i];
      assert contexts[..i + 1] == contexts[..i] + [c];
      GroupOne(groups, lanes, contexts[..i], c);
      hide Grouped;
      if c.lane !in groups {
        lanes := lanes + [c.lane];
        groups := groups[c.lane := [c.person]];
      } else {
        groups := groups[c.lane := groups[c.lane] + [c.person]];
      }
    }
    assert contexts[..|contexts|] == contexts;
  }

  ghost predicate GlobalRanks(globals: map<string, real>, totals: seq<Entry>) {
    var w := Winsorize(totals);
    && (forall k :: k in globals <==> HasKey(totals, k))
    && (forall k :: k in globals ==> globals[k] == Percentile(true, Values(w), Lookup(w, k)))
  }

  lemma WinsorizeTable(totals: seq<Entry>)
    requires IsTable(totals)
    ensures IsTable(Winsorize(totals)) && forall k :: HasKey(Winsorize(totals), k) <==> HasKey(totals, k)
  {
    hide Winsorize;
    var w := Winsorize(totals);
    WinsorizeShape(totals);
    forall k ensures HasKey(w, k) <==> HasKey(totals, k) {
      if HasKey(w, k) {
        var i :| 0 <= i < |w| && w[i].0 == k;
        assert totals[i] in totals;
      }
      if HasKey(totals, k) {
        var i :| 0 <= i < |totals| && totals[i].0 == k;
        assert w[i] in w;
      }
    }
  }

  lemma LookupFinds(items: seq<Entry>, e: Entry)
    requires IsTable(items) && e in items
    ensures Lookup(items, e.0) == e.1
  {
    var i :| 0 <= i < |items| && items[i] == e;
    LookupIs(items, i);
  }

  lemma RankedGlobally(globals: map<string, real>, totals: seq<Entry>)
    requires IsTable(totals)
    requires forall k :: k in globals <==> exists e :: e in Winsorize(totals) && e.0 == k
    requires forall e :: e in Winsorize(totals) ==> globals[e.0] == if e.1 <= 0.0 then 0.0 else MidRank(Values(Winsorize(totals)), e.1)
    ensures GlobalRanks(globals, totals)
  {
    hide Winsorize, Lookup, MidRank, Values;
    var w := Winsorize(totals);
    WinsorizeTable(totals);
    forall k ensures k in globals <==> HasKey(totals, k) {
      assert k in globals <==> HasKey(w, k);
    }
    forall k | k in globals ensures globals[k] == Percentile(true, Values(w), Lookup(w, k)) {
      var e :| e in w && e.0 == k;
      LookupFinds(w, e);
    }
  }

  lemma LaneTable(winsorized: seq<Entry>, contexts: seq<Context>, lane: Lane)
    requires DistinctPeople(contexts)
    ensures IsTable(LaneValues(winsorized, Members(contexts, lane)))
    ensures forall p :: p in Members(contexts, lane) ==> (p, Lookup(winsorized, p)) in LaneValues(winsorized, Members(contexts, lane))
  {
    hide Members, Lookup;
    MembersAre(contexts, lane);
    var members := Members(contexts, lane);
    forall p | p in members ensures (p, Lookup(winsorized, p)) in LaneValues(winsorized, members) {
      var i :| 0 <= i < |members| && members[i] == p;
      assert LaneValues(winsorized, members)[i] == (p, Lookup(winsorized, p));
    }
  }

  /** One pass of the lane loop. A member without a global percentile is a missing key. */
  method ScoreLane(totals: seq<Entry>, ghost contexts: seq<Context>, shrinkage: real, winsorized: seq<Entry>,
                   globals: map<string, real>, ghost lane: Lane, members: seq<string>)
    returns (found: bool, scores: map<string, real>)
    requires DistinctPeople(contexts) && shrinkage >= 0.0 && members == Members(contexts, lane) && members != []
    requires winsorized == Winsorize(totals) && GlobalRanks(globals, totals)
    ensures found <==> forall p :: p in members ==> HasKey(totals, p)
    ensures found ==> forall p :: p in scores <==> p in members
    ensures found ==> forall p :: p in members ==> scores[p] == Shrunk(totals, contexts, shrinkage, Context(p, lane))
  {
    hide Members, Lookup, MidRank, Values, Winsorize, Blend, HasKey;
    LaneTable(winsorized, contexts, lane);
    var inLane := TieGroupScan(LaneValues(winsorized, members), true);
    scores := map[];
    if exists p :: p in members && p !in globals {
      return false, scores;
    }
    forall p | p in members ensures p in inLane {
      assert (p, Lookup(winsorized, p)) in LaneValues(winsorized, members);
    }
    scores := map p | p in members :: Blend(|members|, shrinkage, inLane[p], globals[p]);
    found := true;
    forall p | p in members ensures scores[p] == Shrunk(totals, contexts, shrinkage, Context(p, lane)) {
      assert (p, Lookup(winsorized, p)) in LaneValues(winsorized, members);
    }
  }

  /** Scores of everybody in the first lanes, and of nobody else. */
  ghost predicate ScoredLanes(result: map<string, real>, totals: seq<Entry>, contexts: seq<Context>, shrinkage: real, lanes: seq<Lane>)
    requires shrinkage >= 0.0
  {
    && (forall p :: p in result <==> exists c :: c in contexts && c.lane in lanes && c.person == p)
    && (forall c :: c in contexts && c.lane in lanes ==>
          HasKey(totals, c.person) && c.person in result && result[c.person] == Shrunk(totals, contexts, shrinkage, c))
  }

  lemma LaneScored(result: map<string, real>, scores: map<string, real>, totals: seq<Entry>, contexts: seq<Context>,
                   shrinkage: real, lanes: seq<Lane>, lane: Lane)
    requires shrinkage >= 0.0 && DistinctPeople(contexts)
    requires ScoredLanes(result, totals, contexts, shrinkage, lanes)
    requires forall p :: p in scores <==> p in Members(contexts, lane)
    requires forall p :: p in scores ==> HasKey(totals, p) && scores[p] == Shrunk(totals, contexts, shrinkage, Context(p, lane))
    ensures ScoredLanes(result + scores, totals, contexts, shrinkage, lanes + [lane])
  {
    hide Shrunk, Members, HasKey;
    MembersAre(contexts, lane);
    forall c | c in contexts && c.lane in lanes + [lane]
      ensures HasKey(totals, c.person) && c.person in result + scores
      ensures (result + scores)[c.person] == Shrunk(totals, contexts, shrinkage, c)
    {
      if c.lane == lane {
        assert c == Context(c.person, lane) && Belongs(contexts, lane, c.person);
      } else {
        assert c.lane in lanes;
        if c.person in scores {
          SamePerson(contexts, c.person, lane, c);
        }
      }
    }
    forall p ensures p in result + scores <==> exists c :: c in contexts && c.lane in lanes + [lane] && c.person == p {
      if p in result {
        var c :| c in contexts && c.lane in lanes && c.person == p;
        assert c.lane in lanes + [lane];
      }
    }
  }

  lemma SamePerson(contexts: seq<Context>, person: string, lane: Lane, c: Context)
    requires DistinctPeople(contexts) && person in Members(contexts, lane) && c in contexts && c.person == person
    ensures c.lane == lane
  {
    hide Members;
    MembersAre(contexts, lane);
    var d := Context(person, lane);
    assert Belongs(contexts, lane, person);
    var i :| 0 <= i < |contexts| && contexts[i] == c;
    var j :| 0 <= j < |contexts| && contexts[j] == d;
  }

  lemma GroupFacts(groups: map<Lane, seq<string>>, lanes: seq<Lane>, contexts: seq<Context>, lane: Lane)
    requires Grouped(groups, lanes, contexts) && lane in lanes
    ensures lane in groups && groups[lane] == Members(contexts, lane) && groups[lane] != []
  {}

  lemma MissingMember(totals: seq<Entry>, contexts: seq<Context>, lane: Lane, p: string)
    requires DistinctPeople(contexts) && p in Members(contexts, lane) && !HasKey(totals, p)
    ensures exists c :: c in contexts && !HasKey(totals, c.person)
  {
    hide HasKey;
    MembersAre(contexts, lane);
    assert Context(p, lane) in contexts;
  }

  lemma EveryLaneListed(groups: map<Lane, seq<string>>, contexts: seq<Context>, lanes: seq<Lane>)
    requires DistinctPeople(contexts) && Grouped(groups, lanes, contexts)
    ensures forall c :: c in contexts ==> c.lane in lanes
  {
    hide Members;
    forall c | c in contexts ensures c.lane in lanes {
      MembersAre(contexts, c.lane);
      assert Belongs(contexts, c.lane, c.person);
    }
  }

  lemma AllLanes(result: map<string, real>, groups: map<Lane, seq<string>>, totals: seq<Entry>, contexts: seq<Context>, shrinkage: real, lanes: seq<Lane>)
    requires shrinkage >= 0.0 && DistinctPeople(contexts) && Grouped(groups, lanes, contexts) && ScoredLanes(result, totals, contexts, shrinkage, lanes)
    ensures forall p :: p in result <==> exists c :: c in contexts && c.person == p
    ensures forall c :: c in contexts ==> HasKey(totals, c.person)
    ensures forall c :: c in contexts ==> c.person in result && result[c.person] == Shrunk(totals, contexts, shrinkage, c)
  {
    hide Shrunk, Members, HasKey, Grouped;
    EveryLaneListed(groups, contexts, lanes);
  }

  lemma NoLanes(totals: seq<Entry>, contexts: seq<Context>, shrinkage: real)
    requires shrinkage >= 0.0
    ensures ScoredLanes(map[], totals, contexts, shrinkage, [])
  {}

  method LaneShrunkPercentiles(totals: seq<Entry>, contexts: seq<Context>, shrinkage: real) returns (r: LaneResult)
    requires IsTable(totals) && DistinctPeople(contexts) && shrinkage >= 0.0
    ensures r.KeyError? <==> exists c :: c in contexts && !HasKey(totals, c.person)
    ensures r.Scores? ==> forall p :: p in r.scores <==> exists c :: c in contexts && c.person == p
    ensures r.Scores? ==> forall c :: c in contexts ==> r.scores[c.person] == Shrunk(totals, contexts, shrinkage, c)
    ensures r.Scores? ==> forall c :: c in contexts ==> Weighed(r.scores[c.person], totals, contexts, shrinkage, c)
  {
    hide *;
    var winsorized := Winsorize(totals);
    WinsorizeTable(totals);
    var globals := TieGroupScan(winsorized, true);
    RankedGlobally(globals, totals);
    var groups, lanes := GroupByLane(contexts);
    var result: map<string, real> := map[];
    NoLanes(totals, contexts, shrinkage);
    for i := 0 to |lanes|
      invariant ScoredLanes(result, totals, contexts, shrinkage, lanes[..i])
    {
      var lane := lanes[i];
      assert lanes[..i + 1] == lanes[..i] + [lane];
      GroupFacts(groups, lanes, contexts, lane);
      var members := groups[lane];
      var found, scores := ScoreLane(totals, contexts, shrinkage, winsorized, globals, lane, members);
      if !found {
        ghost var p :| p in members && !HasKey(totals, p);
        MissingMember(totals, contexts, lane, p);
        return KeyError;
      }
      LaneScored(result, scores, totals, contexts, shrinkage, lanes[..i], lane);
      result := result + scores;
    }
    assert lanes[..|lanes|] == lanes;
    AllLanes(result, groups, totals, contexts, shrinkage, lanes);
    forall c | c in contexts ensures Weighed(result[c.person], totals, contexts, shrinkage, c) {
      ShrunkWeighs(totals, contexts, shrinkage, c);
    }
    r := Scores(result);
  }
}
