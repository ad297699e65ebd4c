/** Everybody who writes the hotel table: result transactions, website evidence, and the virtual machines' upsert; what
    all of them keep, and what a replay meets after them. */
module HotelWriters {
  import opened Collapse
  import opened HotelSave
  import opened Options

  // ---- website evidence --------------------------------------------------------------------

  const EVIDENCE_FIELDS: set<Field> := {Phone, Address, Zip, State, Website}
  const EVIDENCE_NOTES := {"website_enrichment", "website_field_fills"}

  /** Evidence fills columns that are blank and is noted in the raw data; it is no sighting, so the row keeps its time. */
  function EnrichRow(h: Hotel, fills: map<Field, string>, notes: map<string, string>): Hotel {
    h.(fields := Restrict(fills, EVIDENCE_FIELDS) + h.fields,
       raw := h.raw + (map k | k in notes && k in EVIDENCE_NOTES :: notes[k]))
  }

  /** Evidence is written to the one row its record resolves to; without a row, or with several, nothing is written. */
  ghost function Enriched(s: Store, r: Record, fills: map<Field, string>, notes: map<string, string>): Store {
    match Target(s.hotels, r)
    case None => s
    case Some(id) => if |Matches(s.hotels, r)| > 1 then s else s.(hotels := s.hotels[id := EnrichRow(s.hotels[id], fills, notes)])
  }

  // ---- a virtual machine's sighting -----------------------------------------------------------

  /** What a machine has seen; `cid` is the CID inside its raw data. */
  datatype Sighting = Sighting(key: string, place: Option<string>, source: string, fields: map<Field, string>,
                               raw: Option<map<string, string>>, cid: Option<string>, queryZip: string)

  const PLACE_FIELDS: set<Field> := {Rating, RatingsTotal, PriceLevel, Phone, Website, MapsUri, Address}

  /** New raw data replaces the old, and with it the CID. */
  function Replaced(h: Hotel, m: Sighting, now: int): Hotel {
    h.(sources := h.sources + {m.source},
       raw := if m.raw.Some? then m.raw.value else h.raw,
       cid := if m.raw.Some? then m.cid else h.cid,
       lastSeen := now)
  }

  function MergedByKey(h: Hotel, m: Sighting, now: int): Hotel {
    Replaced(h, m, now).(
      place := OrElse(h.place, m.place),
      fields := h.fields + m.fields + Restrict(h.fields, {OsmId}),
      queryZip := if h.queryZip != "" then h.queryZip else m.queryZip)
  }

  function MergedByPlace(h: Hotel, m: Sighting, now: int): Hotel {
    Replaced(h, m, now).(fields := h.fields + Restrict(m.fields, PLACE_FIELDS))
  }

  function NewSighting(m: Sighting, now: int): Hotel {
    Hotel(m.key, m.place, if m.raw.Some? then m.cid else None, {m.source}, m.fields,
          if m.raw.Some? then m.raw.value else map[], m.queryZip, now)
  }

  ghost predicate HasPlace(t: Table, id: nat, place: Option<string>) {
    id in t && place.Some? && t[id].place == place
  }

  /** The update by place id, after the unique index on place ids rejected the upsert by key. */
  ghost function AtPlace(s: Store, m: Sighting, now: int): Store {
    if exists id :: HasPlace(s.hotels, id, m.place) then
      var id :| HasPlace(s.hotels, id, m.place);
      s.(hotels := s.hotels[id := MergedByPlace(s.hotels[id], m, now)])
    else s
  }

  ghost predicate HasKey(t: Table, id: nat, key: string) {
    id in t && t[id].key == key
  }

  /** The update of the row with the sighting's key. */
  ghost function AtKey(s: Store, id: nat, m: Sighting, now: int): Store
    requires id in s.hotels
  {
    var h := MergedByKey(s.hotels[id], m, now);
    if exists j :: j != id && HasPlace(s.hotels, j, h.place) then AtPlace(s, m, now) else s.(hotels := s.hotels[id := h])
  }

  ghost function Upserted(s: Store, m: Sighting, now: int): Store {
    if m.key == "" then s
    else if exists id :: HasKey(s.hotels, id, m.key) then
      var id :| HasKey(s.hotels, id, m.key);
      AtKey(s, id, m, now)
    else if exists j :: HasPlace(s.hotels, j, m.place) then AtPlace(s, m, now)
    else Store(s.hotels[s.nextId := NewSighting(m, now)], s.nextId + 1)
  }

  // ---- what every writer keeps ------------------------------------------------------------------

  datatype Write =
    | Save(x: Transaction)
    | Evidence(r: Record, fills: map<Field, string>, notes: map<string, string>)
    | Sight(m: Sighting, now: int)

  ghost function AfterWrite(s: Store, w: Write): Store {
    match w
    case Save(x) => AfterTransaction(s, x)
    case Evidence(r, fills, notes) => Enriched(s, r, fills, notes)
    case Sight(m, now) => Upserted(s, m, now)
  }

  ghost function AfterWrites(s: Store, ws: seq<Write>): Store {
    if ws == [] then s else AfterWrite(AfterWrites(s, ws[..|ws| - 1]), ws[|ws| - 1])
  }

  /** Rows stay, their keys never change, and a place id once set never changes. */
  ghost predicate IdentitiesKept(before: Table, after: Table) {
    forall id :: id in before ==>
      id in after && after[id].key == before[id].key && (before[id].place.Some? ==> after[id].place == before[id].place)
  }

  /** The same rows with the same identities and times; known fields stand, and only blank ones were filled. */
  ghost predicate OnlyFilled(before: Table, after: Table) {
    && after.Keys == before.Keys
    && forall id :: id in before ==>
         && after[id].(fields := before[id].fields, raw := before[id].raw) == before[id]
         && (forall f :: f in before[id].fields ==> f in after[id].fields && after[id].fields[f] == before[id].fields[f])
         && (forall k :: k in before[id].raw && k !in EVIDENCE_NOTES ==> k in after[id].raw && after[id].raw[k] == before[id].raw[k])
  }

  lemma TargetIsRow(t: Table, r: Record)
    ensures Target(t, r).Some? ==> Target(t, r).value in t
  {}

  /** Website evidence changes no identity and no known value. */
  lemma EvidenceOnlyFills(s: Store, r: Record, fills: map<Field, string>, notes: map<string, string>)
    ensures OnlyFilled(s.hotels, Enriched(s, r, fills, notes).hotels)
    ensures Enriched(s, r, fills, notes).nextId == s.nextId
  {
    TargetIsRow(s.hotels, r);
    hide Target, Matches;
  }

  lemma FilledKeeps(s: Store, s': Store)
    requires ValidStore(s) && OnlyFilled(s.hotels, s'.hotels) && s'.nextId == s.nextId
    ensures ValidStore(s') && IdentitiesKept(s.hotels, s'.hotels)
  {
    hide EVIDENCE_NOTES;
    forall id | id in s.hotels
      ensures s'.hotels[id].key == s.hotels[id].key && s'.hotels[id].place == s.hotels[id].place
    {
      assert s'.hotels[id].(fields := s.hotels[id].fields, raw := s.hotels[id].raw) == s.hotels[id];
    }
  }

  lemma UpdateKeeps(s: Store, id: nat, h: Hotel)
    requires ValidStore(s) && id in s.hotels && h.key == s.hotels[id].key
    requires s.hotels[id].place.Some? ==> h.place == s.hotels[id].place
    requires h.place != s.hotels[id].place ==> forall j :: j != id ==> !HasPlace(s.hotels, j, h.place)
    ensures ValidStore(s.(hotels := s.hotels[id := h])) && IdentitiesKept(s.hotels, s.hotels[id := h])
  {
    forall j | j in s.hotels && j != id
      ensures s.hotels[j].key != h.key && (h.place.Some? ==> s.hotels[j].place != h.place)
    {
      assert HasPlace(s.hotels, j, h.place) <==> h.place.Some? && s.hotels[j].place == h.place;
    }
  }

  lemma InsertKeeps(s: Store, h: Hotel)
    requires ValidStore(s) && !Conflict(s.hotels, h)
    ensures var after := Store(s.hotels[s.nextId := h], s.nextId + 1); ValidStore(after) && IdentitiesKept(s.hotels, after.hotels)
  {}

  lemma AtPlaceKeeps(s: Store, m: Sighting, now: int)
    requires ValidStore(s)
    ensures ValidStore(AtPlace(s, m, now)) && IdentitiesKept(s.hotels, AtPlace(s, m, now).hotels)
    ensures AtPlace(s, m, now).nextId == s.nextId
  {
    if exists id :: HasPlace(s.hotels, id, m.place) {
      var id :| HasPlace(s.hotels, id, m.place) && AtPlace(s, m, now) == s.(hotels := s.hotels[id := MergedByPlace(s.hotels[id], m, now)]);
      UpdateKeeps(s, id, MergedByPlace(s.hotels[id], m, now));
    }
  }

  lemma MergedRow(h: Hotel, m: Sighting, now: int)
    ensures MergedByKey(h, m, now).key == h.key && MergedByKey(h, m, now).place == OrElse(h.place, m.place)
    ensures h.place.Some? ==> OrElse(h.place, m.place) == h.place
  {}

  lemma AtKeyIs(s: Store, id: nat, m: Sighting, now: int)
    requires id in s.hotels
    ensures var h := MergedByKey(s.hotels[id], m, now);
            (AtKey(s, id, m, now) == AtPlace(s, m, now)) ||
            ((forall j :: j != id ==> !HasPlace(s.hotels, j, h.place)) && AtKey(s, id, m, now) == s.(hotels := s.hotels[id := h]))
  {
    hide AtPlace, MergedByKey, HasPlace;
  }

  lemma AtKeyKeeps(s: Store, id: nat, m: Sighting, now: int)
    requires ValidStore(s) && id in s.hotels
    ensures ValidStore(AtKey(s, id, m, now)) && IdentitiesKept(s.hotels, AtKey(s, id, m, now).hotels)
    ensures AtKey(s, id, m, now).nextId == s.nextId
  {
    hide *;
    var h := MergedByKey(s.hotels[id], m, now);
    AtPlaceKeeps(s, m, now);
    MergedRow(s.hotels[id], m, now);
    AtKeyIs(s, id, m, now);
    if forall j :: j != id ==> !HasPlace(s.hotels, j, h.place) {
      UpdateKeeps(s, id, h);
    }
  }

  /** A machine's upsert keeps keys and place ids unique, whichever of its paths it takes, and keeps every identity. */
  lemma UpsertKeeps(s: Store, m: Sighting, now: int)
    requires ValidStore(s)
    ensures ValidStore(Upserted(s, m, now)) && IdentitiesKept(s.hotels, Upserted(s, m, now).hotels)
    ensures s.nextId <= Upserted(s, m, now).nextId
  {
    hide AtPlace, AtKey, NewSighting, ValidStore, IdentitiesKept;
    AtPlaceKeeps(s, m, now);
    KeepsItself(s);
    NewRowIdentity(m, now);
    forall id | HasKey(s.hotels, id, m.key)
      ensures ValidStore(AtKey(s, id, m, now)) && IdentitiesKept(s.hotels, AtKey(s, id, m, now).hotels)
      ensures AtKey(s, id, m, now).nextId == s.nextId
    {
      AtKeyKeeps(s, id, m, now);
    }
    if !(exists id :: HasKey(s.hotels, id, m.key)) && !(exists j :: HasPlace(s.hotels, j, m.place)) {
      NoConflict(s.hotels, m, now);
      InsertKeeps(s, NewSighting(m, now));
    }
  }

  lemma NoConflict(t: Table, m: Sighting, now: int)
    requires !(exists id :: HasKey(t, id, m.key)) && !(exists j :: HasPlace(t, j, m.place))
    ensures !Conflict(t, NewSighting(m, now))
  {
    forall id | id in t ensures t[id].key != m.key && (m.place.Some? ==> t[id].place != m.place) {
      assert !HasKey(t, id, m.key) && !HasPlace(t, id, m.place);
    }
  }

  lemma KeepsItself(s: Store)
    ensures IdentitiesKept(s.hotels, s.hotels)
  {}

  lemma NewRowIdentity(m: Sighting, now: int)
    ensures NewSighting(m, now).key == m.key && NewSighting(m, now).place == m.place
  {}

  lemma CommitKeeps(s: Store, records: seq<Record>, zip: string, now: int)
    requires ValidStore(s) && Unambiguous(s.hotels, records) && DistinctKeys(records) && DistinctPlaces(records)
    ensures ValidStore(Committed(s, records, zip, now)) && IdentitiesKept(s.hotels, Committed(s, records, zip, now).hotels)
    ensures s.nextId <= Committed(s, records, zip, now).nextId
  {
    SaveKeepsUnique(s, records, zip, now);
    forall id | id in s.hotels
      ensures id in Committed(s, records, zip, now).hotels
      ensures Committed(s, records, zip, now).hotels[id] == TouchAll(s.hotels, records, |records|, now)[id]
      ensures var h := TouchAll(s.hotels, records, |records|, now)[id];
              h.key == s.hotels[id].key && (s.hotels[id].place.Some? ==> h.place == s.hotels[id].place)
    {
      TouchAllShape(s.hotels, records, |records|, now, id);
    }
    hide Committed, TouchAll, ValidStore;
  }

  /** No writer breaks the unique columns, removes a row, or changes an identity that is set. */
  lemma WriteKeeps(s: Store, w: Write)
    requires ValidStore(s)
    ensures ValidStore(AfterWrite(s, w)) && IdentitiesKept(s.hotels, AfterWrite(s, w).hotels)
    ensures s.nextId <= AfterWrite(s, w).nextId
  {
    hide ValidStore, Committed, Collapsed, Enriched, Upserted, Unambiguous, DistinctKeys, DistinctPlaces, OnlyFilled;
    match w
    case Save(x) =>
      if Accepted(s.hotels, Collapsed(x.scraped), x.cap) {
        CollapsedIsDistinct(x.scraped);
        AcceptedUnambiguous(s.hotels, Collapsed(x.scraped), x.cap);
        CommitKeeps(s, Collapsed(x.scraped), x.zip, x.now);
      }
    case Evidence(r, fills, notes) =>
      EvidenceOnlyFills(s, r, fills, notes);
      FilledKeeps(s, Enriched(s, r, fills, notes));
    case Sight(m, now) => UpsertKeeps(s, m, now);
  }

  lemma {:induction false} WritesKeep(s: Store, ws: seq<Write>)
    requires ValidStore(s)
    ensures ValidStore(AfterWrites(s, ws)) && IdentitiesKept(s.hotels, AfterWrites(s, ws).hotels)
    ensures s.nextId <= AfterWrites(s, ws).nextId
  {
    hide ValidStore, AfterWrite;
    if ws != [] {
      WritesKeep(s, ws[..|ws| - 1]);
      WriteKeeps(AfterWrites(s, ws[..|ws| - 1]), ws[|ws| - 1]);
    }
  }

  // ---- what each writer leaves in the rows ------------------------------------------------------

  /** Evidence in a row: the five columns are filled where they are blank, the two notes are taken, and all else stays. */
  lemma EvidenceInRow(s: Store, r: Record, fills: map<Field, string>, notes: map<string, string>, id: nat)
    requires |Matches(s.hotels, r)| <= 1 && Target(s.hotels, r) == Some(id) && id in s.hotels
    ensures var after := Enriched(s, r, fills, notes);
            && after == s.(hotels := s.hotels[id := after.hotels[id]])
            && var (h, g) := (s.hotels[id], after.hotels[id]);
               && g == h.(fields := g.fields, raw := g.raw)
               && (forall f :: Known(g.fields, f) ==
                     if f in {Phone, Address, Zip, State, Website} && f !in h.fields then Known(fills, f) else Known(h.fields, f))
               && (forall k :: Known(g.raw, k) ==
                     if k in {"website_enrichment", "website_field_fills"} && k in notes then Known(notes, k) else Known(h.raw, k))
  {
    hide Target, Matches;
    var h := s.hotels[id];
    forall f ensures Known(EnrichRow(h, fills, notes).fields, f) ==
                     if f in {Phone, Address, Zip, State, Website} && f !in h.fields then Known(fills, f) else Known(h.fields, f)
    {
      EvidenceField(f);
      hide EVIDENCE_FIELDS, EVIDENCE_NOTES;
    }
    forall k ensures Known(EnrichRow(h, fills, notes).raw, k) ==
                     if k in {"website_enrichment", "website_field_fills"} && k in notes then Known(notes, k) else Known(h.raw, k)
    {
      hide Restrict, EVIDENCE_FIELDS;
    }
    hide EnrichRow, Known;
    assert Enriched(s, r, fills, notes).hotels[id] == EnrichRow(h, fills, notes);
    RowShape(h, fills, notes);
  }

  lemma RowShape(h: Hotel, fills: map<Field, string>, notes: map<string, string>)
    ensures var g := EnrichRow(h, fills, notes); g == h.(fields := g.fields, raw := g.raw)
  {}

  lemma EvidenceField(f: Field)
    ensures f in EVIDENCE_FIELDS <==> f in {Phone, Address, Zip, State, Website}
  {}

  /** Evidence about an unknown hotel, or one that several rows claim, is not written. */
  lemma EvidenceWithoutRow(s: Store, r: Record, fills: map<Field, string>, notes: map<string, string>)
    requires |Matches(s.hotels, r)| != 1
    ensures Enriched(s, r, fills, notes) == s
  {
    if Matches(s.hotels, r) != {} {
      hide Matches;
    }
  }

  /** What every sighting leaves: its source is added, raw data and CID are replaced if there is raw data, and the time is
      now; the key stays. */
  ghost predicate Seen(h: Hotel, m: Sighting, g: Hotel, now: int) {
    && g.key == h.key && g.sources == h.sources + {m.source} && g.lastSeen == now
    && (m.raw.Some? ==> g.raw == m.raw.value && g.cid == m.cid) && (m.raw.None? ==> g.raw == h.raw && g.cid == h.cid)
  }

  /** A sighting of a known key merges into its row, unless its place id belongs to another one: new values win, except
      for the place id, the OSM id and the ZIP it was found by. */
  lemma SightingMerges(s: Store, m: Sighting, now: int, id: nat)
    requires ValidStore(s) && m.key != "" && id in s.hotels && s.hotels[id].key == m.key
    requires s.hotels[id].place.None? && m.place.Some? ==> forall j :: j in s.hotels ==> s.hotels[j].place != m.place
    ensures var after := Upserted(s, m, now);
            && after == s.(hotels := s.hotels[id := after.hotels[id]])
            && var (h, g) := (s.hotels[id], after.hotels[id]);
               && Seen(h, m, g, now)
               && g.place == (if h.place.Some? then h.place else m.place)
               && g.queryZip == (if h.queryZip == "" then m.queryZip else h.queryZip)
               && (forall f :: Known(g.fields, f) ==
                     if f in m.fields && (f != OsmId || f !in h.fields) then Known(m.fields, f) else Known(h.fields, f))
  {
    var h := MergedByKey(s.hotels[id], m, now);
    forall j | j != id ensures !HasPlace(s.hotels, j, h.place) {}
    assert HasKey(s.hotels, id, m.key);
    forall j | HasKey(s.hotels, j, m.key) ensures j == id {}
    MergedValues(s.hotels[id], m, now);
    hide MergedByKey, AtPlace, HasPlace, HasKey, ValidStore, Seen, Known;
  }

  lemma MergedValues(h: Hotel, m: Sighting, now: int)
    ensures var g := MergedByKey(h, m, now);
            && Seen(h, m, g, now)
            && g.place == (if h.place.Some? then h.place else m.place)
            && g.queryZip == (if h.queryZip == "" then m.queryZip else h.queryZip)
            && (forall f :: Known(g.fields, f) ==
                  if f in m.fields && (f != OsmId || f !in h.fields) then Known(m.fields, f) else Known(h.fields, f))
  {}

  /** A sighting whose place id belongs to a row, and whose key does not or to a row without a place id, goes to that row:
      seven columns take the new values. */
  lemma SightingByPlace(s: Store, m: Sighting, now: int, id: nat)
    requires ValidStore(s) && m.key != "" && id in s.hotels && m.place.Some? && s.hotels[id].place == m.place
    requires forall j :: j in s.hotels && s.hotels[j].key == m.key ==> s.hotels[j].place.None?
    ensures var after := Upserted(s, m, now);
            && after == s.(hotels := s.hotels[id := after.hotels[id]])
            && var (h, g) := (s.hotels[id], after.hotels[id]);
               && Seen(h, m, g, now) && g.place == h.place && g.queryZip == h.queryZip
               && (forall f :: Known(g.fields, f) ==
                     if f in {Rating, RatingsTotal, PriceLevel, Phone, Website, MapsUri, Address} && f in m.fields then Known(m.fields, f)
                     else Known(h.fields, f))
  {
    assert HasPlace(s.hotels, id, m.place);
    forall j | HasPlace(s.hotels, j, m.place) ensures j == id {}
    PlaceValues(s.hotels[id], m, now);
    hide MergedByPlace, ValidStore, Seen, Known, PLACE_FIELDS;
    assert AtPlace(s, m, now) == s.(hotels := s.hotels[id := MergedByPlace(s.hotels[id], m, now)]);
    if exists k :: HasKey(s.hotels, k, m.key) {
      forall k | HasKey(s.hotels, k, m.key) ensures AtKey(s, k, m, now) == AtPlace(s, m, now) {
        assert MergedByKey(s.hotels[k], m, now).place == m.place;
        assert k != id && HasPlace(s.hotels, id, MergedByKey(s.hotels[k], m, now).place);
      }
    }
    hide AtPlace, AtKey, HasPlace;
  }

  lemma PlaceValues(h: Hotel, m: Sighting, now: int)
    ensures var g := MergedByPlace(h, m, now);
            && Seen(h, m, g, now) && g.place == h.place && g.queryZip == h.queryZip
            && (forall f :: Known(g.fields, f) ==
                  if f in {Rating, RatingsTotal, PriceLevel, Phone, Website, MapsUri, Address} && f in m.fields then Known(m.fields, f)
                  else Known(h.fields, f))
  {
    forall f ensures f in PLACE_FIELDS <==> f in {Rating, RatingsTotal, PriceLevel, Phone, Website, MapsUri, Address} {}
    hide PLACE_FIELDS;
  }

  /** A sighting of a new key and a new place id, or none, becomes a row of its own; one without a key changes nothing. */
  lemma SightingIsNew(s: Store, m: Sighting, now: int)
    requires forall j :: j in s.hotels ==> s.hotels[j].key != m.key && (m.place.Some? ==> s.hotels[j].place != m.place)
    ensures Upserted(s, m, now) ==
            if m.key == "" then s
            else Store(s.hotels[s.nextId := Hotel(m.key, m.place, if m.raw.Some? then m.cid else None, {m.source}, m.fields,
                                                  if m.raw.Some? then m.raw.value else map[], m.queryZip, now)], s.nextId + 1)
  {}

  // ---- replay among other writers ------------------------------------------------------------------

  /** A record and a row share a key or a place id, which no writer takes away again. */
  ghost predicate Anchored(t: Table, r: Record, id: nat) {
    id in t && (t[id].key == r.key || (r.place.Some? && t[id].place == r.place))
  }

  /** The record resolves to a row that knows it by CID alone. */
  ghost predicate KnownByCidAlone(t: Table, r: Record) {
    Target(t, r).Some? && !Anchored(t, r, Target(t, r).value)
  }

  lemma AnchorHolds(before: Table, after: Table, r: Record, id: nat)
    requires IdentitiesKept(before, after) && Anchored(before, r, id)
    ensures Anchored(after, r, id)
  {}

  lemma AnchorResolves(t: Table, r: Record, id: nat)
    requires Anchored(t, r, id)
    ensures Target(t, r).Some? && id in Matches(t, r)
  {
    assert id in Matches(t, r);
  }

  /** After its commit every record is anchored at a row, unless it was known by CID alone. */
  lemma CommitAnchors(s: Store, records: seq<Record>, zip: string, now: int, i: nat) returns (id: nat)
    requires ValidStore(s) && Unambiguous(s.hotels, records) && DistinctKeys(records) && DistinctPlaces(records)
    requires i < |records| && !KnownByCidAlone(s.hotels, records[i])
    ensures Anchored(Committed(s, records, zip, now).hotels, records[i], id)
  {
    match Target(s.hotels, records[i])
    case None =>
      SaveKeepsUnique(s, records, zip, now);
      id := NewId(s.hotels, s.nextId, records, i);
    case Some(row) =>
      id := row;
      CommitKeeps(s, records, zip, now);
      hide Committed;
      AnchorHolds(s.hotels, Committed(s, records, zip, now).hotels, records[i], row);
  }

  /** As long as identities are kept, each record that was not known by CID alone still finds a row. */
  lemma StillFound(s: Store, records: seq<Record>, zip: string, now: int, t: Store, i: nat)
    requires ValidStore(s) && Unambiguous(s.hotels, records) && DistinctKeys(records) && DistinctPlaces(records)
    requires i < |records| && !KnownByCidAlone(s.hotels, records[i])
    requires IdentitiesKept(Committed(s, records, zip, now).hotels, t.hotels)
    ensures Target(t.hotels, records[i]).Some?
  {
    hide *;
    var id := CommitAnchors(s, records, zip, now, i);
    AnchorHolds(Committed(s, records, zip, now).hotels, t.hotels, records[i], id);
    AnchorResolves(t.hotels, records[i], id);
  }

  /** A save whose records all find a row adds no hotel. */
  lemma AddsNothing(s: Store, records: seq<Record>, zip: string, now: int)
    requires forall i :: 0 <= i < |records| ==> Target(s.hotels, records[i]).Some?
    ensures NewCount(s.hotels, records, |records|) == 0
    ensures Committed(s, records, zip, now).nextId == s.nextId && Committed(s, records, zip, now).hotels.Keys == s.hotels.Keys
  {
    hide *;
    NothingNew(s.hotels, records, |records|);
    NothingInserted(s.hotels, Store(TouchAll(s.hotels, records, |records|, now), s.nextId), records, |records|, zip, now);
    CommittedIs(s, records, zip, now);
  }

  /** Replay among other writers: after any result transactions, website evidence and machine upserts in between, a
      replay of the batch adds no hotel, unless some record was known by CID alone. */
  lemma ReplayAmongOthers(s: Store, records: seq<Record>, zip: string, now: int, ws: seq<Write>, later: int)
    requires ValidStore(s) && Unambiguous(s.hotels, records) && DistinctKeys(records) && DistinctPlaces(records)
    requires forall i :: 0 <= i < |records| ==> !KnownByCidAlone(s.hotels, records[i])
    ensures var t := AfterWrites(Committed(s, records, zip, now), ws);
            && NewCount(t.hotels, records, |records|) == 0
            && Committed(t, records, zip, later).nextId == t.nextId && Committed(t, records, zip, later).hotels.Keys == t.hotels.Keys
  {
    hide *;
    var t := AfterWrites(Committed(s, records, zip, now), ws);
    CommitKeeps(s, records, zip, now);
    WritesKeep(Committed(s, records, zip, now), ws);
    forall i | 0 <= i < |records| ensures Target(t.hotels, records[i]).Some? {
      StillFound(s, records, zip, now, t, i);
    }
    AddsNothing(t, records, zip, later);
  }

  const OSM_SIGHTING := Sighting("k", None, "osm", map[], Some(map["type" := "node"]), None, "z")
  const BY_CID := Record("l", None, Some("old"), 1, {"places"}, map[], map[])

  lemma KnownOnlyByCid()
    ensures var t: Table := map[0 := STORED]; Matches(t, BY_CID) == {0} && Target(t, BY_CID) == Some(0) && KnownByCidAlone(t, BY_CID)
  {
    var t: Table := map[0 := STORED];
    assert Matches(t, BY_CID) == {0};
    OnlyTarget(t, BY_CID, 0);
  }

  lemma OneIsAccepted(t: Table, r: Record)
    requires |Matches(t, r)| <= 1
    ensures Accepted(t, [r], 0) && Unambiguous(t, [r])
    ensures NewCount(t, [r], 1) == if Matches(t, r) == {} then 1 else 0
  {
    hide Matches;
    assert [r][0] == r;
    assert NewCount(t, [r], 0) == 0;
  }

  lemma CommitOfKnown()
    ensures var t: Table := map[0 := STORED];
            Committed(Store(t, 1), [BY_CID], "z", 2) == Store(map[0 := STORED.(lastSeen := 2)], 1)
  {
    var t: Table := map[0 := STORED];
    KnownOnlyByCid();
    hide Matches, Target;
    assert [BY_CID][0] == BY_CID;
    var touched := Store(map[0 := STORED.(lastSeen := 2)], 1);
    assert Touch(STORED, BY_CID, 2) == STORED.(lastSeen := 2);
    NothingDone(t, touched, [BY_CID], "z", 2);
    TouchStep(t, [BY_CID], 0, 2);
    InsertOneStep(t, touched, [BY_CID], 0, "z", 2);
    CommittedIs(Store(t, 1), [BY_CID], "z", 2);
    hide TouchAll, InsertAll, Committed, Touch;
    assert TouchAll(t, [BY_CID], 1, 2) == touched.hotels;
  }

  lemma SightingErases()
    ensures var t := Upserted(Store(map[0 := STORED.(lastSeen := 2)], 1), OSM_SIGHTING, 3);
            Matches(t.hotels, BY_CID) == {}
  {
    var s := Store(map[0 := STORED.(lastSeen := 2)], 1);
    assert HasKey(s.hotels, 0, OSM_SIGHTING.key);
    assert MergedByKey(s.hotels[0], OSM_SIGHTING, 3).cid == None && MergedByKey(s.hotels[0], OSM_SIGHTING, 3).key == "k";
    hide MergedByKey, AtPlace;
  }

  /** The condition is needed: a machine's upsert replaces the raw data and with it the CID, and a record known by that
      CID alone is then inserted as a second hotel by its replay. */
  lemma MachineErasesCid()
    ensures var s := Store(map[0 := STORED], 1);
            var t := Upserted(Committed(s, [BY_CID], "z", 2), OSM_SIGHTING, 3);
            && HasSource(BY_CID) && ValidStore(s) && Accepted(s.hotels, [BY_CID], 0) && KnownByCidAlone(s.hotels, BY_CID)
            && Accepted(t.hotels, [BY_CID], 0) && NewCount(t.hotels, [BY_CID], 1) == 1
  {
    hide Matches, Committed, Upserted, Accepted, NewCount, KnownByCidAlone;
    var s := Store(map[0 := STORED], 1);
    KnownOnlyByCid();
    OneIsAccepted(s.hotels, BY_CID);
    CommitOfKnown();
    SightingErases();
    OneIsAccepted(Upserted(Committed(s, [BY_CID], "z", 2), OSM_SIGHTING, 3).hotels, BY_CID);
  }
}
