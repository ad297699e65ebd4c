/** The durable local outbox: one table of batches, each pending until it is delivered or quarantined. */
module Outbox {
  import opened Collapse
  import opened Options
  import opened Sorting

  datatype Payload = Payload(runId: string, zip: string, records: seq<Record>, metadata: string)

  /** A terminal state carries its time and its acknowledgement. */
  datatype Status = Pending | Delivered(at: int, metadata: string) | Quarantined(at: int, reason: string, evidence: string)

  datatype Batch = Batch(payload: Payload, createdAt: int, status: Status)

  type Rows = map<string, Batch>

  /** What encoding to JSON and decoding again makes of a value: dates become text and tuples lists, for instance.
      None is a value that cannot be encoded. */
  datatype Json = Json(records: seq<Record> -> Option<seq<Record>>, text: string -> Option<string>) {
    /** The stored image of a payload. */
    function Image(p: Payload): Option<Payload> {
      match (records(p.records), text(p.metadata))
      case (Some(r), Some(m)) => Some(p.(records := r, metadata := m))
      case _ => None
    }

    /** The stored image of an acknowledgement. */
    function AckImage(ack: Status): Option<Status> {
      match ack
      case Pending => None
      case Delivered(at, m) => if text(m).Some? then Some(Delivered(at, text(m).value)) else None
      case Quarantined(at, r, e) => if text(e).Some? then Some(Quarantined(at, r, text(e).value)) else None
    }
  }

  datatype Error = Invalid | NotFound | Conflict | WrongState

  datatype Result = Ok(batch: Batch) | Err(error: Error)

  predicate IsAlphanumeric(c: char) {
    'A' <= c <= 'Z' || 'a' <= c <= 'z' || '0' <= c <= '9'
  }

  predicate IsIdentifier(s: string) {
    1 <= |s| <= 128 && IsAlphanumeric(s[0]) &&
    forall i :: 1 <= i < |s| ==> IsAlphanumeric(s[i]) || s[i] in "._:-"
  }

  predicate IsZip(s: string) {
    |s| == 5 && forall i :: 0 <= i < 5 ==> '0' <= s[i] <= '9'
  }

  predicate IsReason(s: string) {
    1 <= |s| <= 2000 && forall i :: 0 <= i < |s| ==> s[i] != '\0'
  }

  predicate IsValidPayload(p: Payload) {
    IsIdentifier(p.runId) && IsZip(p.zip) && p.records != []
  }

  /** Two acknowledgements agree when they name the same state and the same evidence; the time is not compared. */
  predicate SameAck(a: Status, b: Status) {
    match (a, b)
    case (Delivered(_, m), Delivered(_, n)) => m == n
    case (Quarantined(_, r, e), Quarantined(_, r', e')) => r == r' && e == e'
    case _ => false
  }

  predicate SameKind(a: Status, b: Status) {
    (a.Delivered? && b.Delivered?) || (a.Quarantined? && b.Quarantined?)
  }

  predicate Old(b: Batch, cutoff: int) {
    !b.status.Pending? && b.status.at < cutoff
  }

  // ---- the operations as functions --------------------------------------------------

  /** The image is stored; a batch that exists already is compared with the payload as it was given. */
  function Enqueued(rows: Rows, id: string, payload: Payload, image: Option<Payload>, now: int): (Result, Rows) {
    if !IsIdentifier(id) || !IsValidPayload(payload) || image.None? then (Err(Invalid), rows)
    else if id in rows then (if rows[id].payload == payload then Ok(rows[id]) else Err(Conflict), rows)
    else var b := Batch(image.value, now, Pending); (Ok(b), rows[id := b])
  }

  function Transitioned(rows: Rows, id: string, target: Status, image: Status): (Result, Rows)
    requires SameKind(target, image)
  {
    if id !in rows then (Err(NotFound), rows)
    else if SameKind(rows[id].status, target) then
      (if SameAck(rows[id].status, target) then Ok(rows[id]) else Err(Conflict), rows)
    else if !rows[id].status.Pending? then (Err(WrongState), rows)
    else var b := rows[id].(status := image); (Ok(b), rows[id := b])
  }

  function Pruned(rows: Rows, cutoff: int): Rows {
    map id | id in rows && !Old(rows[id], cutoff) :: rows[id]
  }

  /** FIFO order: by creation time, then by id. */
  predicate Before(rows: Rows, a: string, b: string)
    requires a in rows && b in rows
  {
    rows[a].createdAt < rows[b].createdAt || (rows[a].createdAt == rows[b].createdAt && TextLe(a, b))
  }

  ghost predicate IsOldestPending(rows: Rows, id: string) {
    && id in rows && rows[id].status.Pending?
    && forall b :: b in rows && rows[b].status.Pending? ==> Before(rows, id, b)
  }

  class LocalOutbox {
    const json: Json
    var rows: Rows

    constructor (json: Json)
      ensures this.json == json && rows == map[]
    {
      this.json := json;
      rows := map[];
    }

    method Enqueue(id: string, payload: Payload, now: int) returns (r: Result)
      modifies this
      ensures (r, rows) == Enqueued(old(rows), id, payload, json.Image(payload), now)
    {
      if !IsIdentifier(id) || !IsValidPayload(payload) {
        return Err(Invalid);
      }
      var image := json.Image(payload);
      if image.None? {
        return Err(Invalid);
      }
      if id in rows {
        if rows[id].payload == payload {
          return Ok(rows[id]);
        }
        return Err(Conflict);
      }
      rows := rows[id := Batch(image.value, now, Pending)];
      r := Ok(rows[id]);
    }

    method Get(id: string) returns (r: Result)
      ensures r == if !IsIdentifier(id) then Err(Invalid) else if id in rows then Ok(rows[id]) else Err(NotFound)
    {
      if !IsIdentifier(id) {
        return Err(Invalid);
      }
      r := if id in rows then Ok(rows[id]) else Err(NotFound);
    }

    /** The head of the queue. */
    method OldestPending() returns (id: Option<string>)
      ensures id.None? <==> forall b :: b in rows ==> !rows[b].status.Pending?
      ensures id.Some? ==> IsOldestPending(rows, id.value)
      ensures id.Some? ==> id.value in rows && forall b :: b in rows && rows[b].status.Pending? ==>
                rows[id.value].createdAt < rows[b].createdAt || (rows[id.value].createdAt == rows[b].createdAt && TextLe(id.value, b))
    {
      var todo := set b | b in rows && rows[b].status.Pending?;
      id := None;
      while todo != {}
        invariant forall b :: b in todo ==> b in rows && rows[b].status.Pending?
        invariant id.Some? ==> id.value in rows && rows[id.value].status.Pending?
        invariant forall b :: b in rows && rows[b].status.Pending? && b !in todo ==> id.Some? && Before(rows, id.value, b)
      {
        var b :| b in todo;
        todo := todo - {b};
        TextLeTotal(b, b);
        if id.None? || !Before(rows, id.value, b) {
          forall c | c in rows && id.Some? && Before(rows, id.value, c) ensures Before(rows, b, c) {
            BeforeTransitive(rows, b, id.value, c);
          }
          id := Some(b);
        }
      }
    }

    /** The one way to a terminal state. Repeating an acknowledgement returns the batch unchanged; a different one is an error. */
    method Transition(id: string, target: Status, image: Status) returns (r: Result)
      requires SameKind(target, image)
      modifies this
      ensures (r, rows) == Transitioned(old(rows), id, target, image)
    {
      if id !in rows {
        return Err(NotFound);
      }
      var existing := rows[id];
      if SameKind(existing.status, target) {
        if !SameAck(existing.status, target) {
          return Err(Conflict);
        }
        return Ok(existing);
      }
      if !existing.status.Pending? {
        return Err(WrongState);
      }
      rows := rows[id := existing.(status := image)];
      r := Ok(rows[id]);
    }

    method MarkDelivered(id: string, metadata: string, now: int) returns (r: Result)
      modifies this
      ensures var ack := Delivered(now, metadata);
              if IsIdentifier(id) && json.AckImage(ack).Some? then
                (r, rows) == Transitioned(old(rows), id, ack, json.AckImage(ack).value)
              else r == Err(Invalid) && rows == old(rows)
    {
      var image := json.AckImage(Delivered(now, metadata));
      if !IsIdentifier(id) || image.None? {
        return Err(Invalid);
      }
      r := Transition(id, Delivered(now, metadata), image.value);
    }

    method MarkQuarantined(id: string, reason: string, evidence: string, now: int) returns (r: Result)
      modifies this
      ensures var ack := Quarantined(now, reason, evidence);
              if IsIdentifier(id) && 0 < |reason| < 2001 && '\0' !in reason && json.AckImage(ack).Some? then
                (r, rows) == Transitioned(old(rows), id, ack, json.AckImage(ack).value)
              else r == Err(Invalid) && rows == old(rows)
    {
      var image := json.AckImage(Quarantined(now, reason, evidence));
      if !IsIdentifier(id) || !IsReason(reason) || image.None? {
        return Err(Invalid);
      }
      r := Transition(id, Quarantined(now, reason, evidence), image.value);
    }

    method PruneTerminal(cutoff: int) returns (removed: nat)
      modifies this
      ensures rows == Pruned(old(rows), cutoff)
      ensures removed + |rows| == |old(rows)|
    {
      var doomed := set id | id in rows && Old(rows[id], cutoff);
      removed := |doomed|;
      assert Pruned(rows, cutoff) == rows - doomed;
      assert (rows - doomed).Keys == rows.Keys - doomed;
      rows := rows - doomed;
    }
  }

  lemma BeforeTransitive(rows: Rows, a: string, b: string, c: string)
    requires a in rows && b in rows && c in rows && !Before(rows, b, a) && Before(rows, b, c)
    ensures Before(rows, a, c)
  {
    TextLeTotal(a, b);
    if rows[a].createdAt == rows[c].createdAt {
      TextLeTransitive(a, b, c);
    }
  }

  // ---- what every operation keeps ------------------------------------------------------

  /** Nothing changes about a batch except that a pending one may become terminal; only terminal batches disappear. */
  ghost predicate Evolves(before: Rows, after: Rows) {
    forall id :: id in before ==>
      && (id !in after ==> !before[id].status.Pending?)
      && (id in after ==> after[id] == before[id] || (before[id].status.Pending? && after[id] == before[id].(status := after[id].status)))
  }

  lemma OperationsEvolve(rows: Rows, id: string, payload: Payload, stored: Option<Payload>, target: Status, image: Status, cutoff: int, now: int)
    requires SameKind(target, image)
    ensures Evolves(rows, Enqueued(rows, id, payload, stored, now).1)
    ensures Evolves(rows, Transitioned(rows, id, target, image).1)
    ensures Evolves(rows, Pruned(rows, cutoff))
    ensures forall b :: b in rows && b !in Pruned(rows, cutoff) <==> b in rows && !rows[b].status.Pending? && rows[b].status.at < cutoff
  {}

  /** Enqueueing a new batch again is idempotent if and only if the payload is its own JSON image; otherwise the batch
      conflicts with itself. No further enqueue of its id ever changes anything. */
  lemma EnqueueAgain(json: Json, rows: Rows, id: string, payload: Payload, other: Payload, now: int, later: int)
    requires id !in rows && Enqueued(rows, id, payload, json.Image(payload), now).0.Ok?
    ensures var (r, after) := Enqueued(rows, id, payload, json.Image(payload), now);
            && (Enqueued(after, id, payload, json.Image(payload), later) == (r, after) <==> json.Image(payload) == Some(payload))
            && (Enqueued(after, id, payload, json.Image(payload), later) == (Err(Conflict), after) <==> json.Image(payload) != Some(payload))
            && Enqueued(after, id, other, json.Image(other), later).1 == after
            && (Enqueued(after, id, other, json.Image(other), later).0.Ok? ==> json.Image(payload) == Some(other))
  {}

  /** Acknowledging a pending batch again is idempotent if and only if the evidence is its own JSON image; any
      acknowledgement that differs from the stored image is an error, and none changes anything. */
  lemma AcknowledgeAgain(json: Json, rows: Rows, id: string, ack: Status, other: Status)
    requires id in rows && rows[id].status.Pending? && json.AckImage(ack).Some? && json.AckImage(other).Some?
    ensures var (r, after) := Transitioned(rows, id, ack, json.AckImage(ack).value);
            && (Transitioned(after, id, ack, json.AckImage(ack).value) == (r, after) <==> json.AckImage(ack) == Some(ack))
            && Transitioned(after, id, other, json.AckImage(other).value).1 == after
            && (Transitioned(after, id, other, json.AckImage(other).value).0.Ok? <==> SameAck(json.AckImage(ack).value, other))
  {}

  // ---- what every operation answers ----------------------------------------------------

  const DIGITS := "0123456789"
  const CAPITALS := "ABCDEFGHIJKLMNOPQRSTUVWXYZ"
  const SMALL := "abcdefghijklmnopqrstuvwxyz"

  lemma DigitsAre(c: char)
    ensures c in DIGITS <==> '0' <= c <= '9'
  {
    if '0' <= c <= '9' {
      assert DIGITS[c as int - '0' as int] == c;
    }
  }

  lemma CapitalsAre(c: char)
    ensures c in CAPITALS <==> 'A' <= c <= 'Z'
  {
    if 'A' <= c <= 'Z' {
      assert CAPITALS[c as int - 'A' as int] == c;
    }
  }

  lemma SmallAre(c: char)
    ensures c in SMALL <==> 'a' <= c <= 'z'
  {
    if 'a' <= c <= 'z' {
      assert SMALL[c as int - 'a' as int] == c;
    }
  }

  const ALPHANUMERIC := CAPITALS + SMALL + DIGITS

  /** An identifier is a letter or digit and up to 127 letters, digits, dots, underscores, colons or hyphens. */
  lemma IdentifierIff(s: string)
    ensures IsIdentifier(s) <==>
            0 < |s| < 129 && s[0] in ALPHANUMERIC && forall i :: 0 < i < |s| ==> s[i] in ALPHANUMERIC + "._:-"
  {
    forall i | 0 <= i < |s|
      ensures IsAlphanumeric(s[i]) <==> s[i] in ALPHANUMERIC
      ensures s[i] in ALPHANUMERIC + "._:-" <==> s[i] in ALPHANUMERIC || s[i] in "._:-"
    {
      CapitalsAre(s[i]);
      SmallAre(s[i]);
      DigitsAre(s[i]);
      hide CAPITALS, SMALL, DIGITS;
    }
    hide ALPHANUMERIC, IsAlphanumeric;
  }

  /** A payload may be stored when its run has an identifier, its ZIP five digits, and it has records. */
  lemma PayloadIff(p: Payload)
    ensures IsValidPayload(p) <==> IsIdentifier(p.runId) && |p.zip| == 5 && (forall c :: c in p.zip ==> c in DIGITS) && |p.records| > 0
  {
    hide IsIdentifier, DIGITS;
    forall c: char ensures c in DIGITS <==> '0' <= c <= '9' {
      DigitsAre(c);
    }
    forall i | 0 <= i < |p.zip| ensures p.zip[i] in p.zip {}
  }

  /** What becomes of a batch that is enqueued. */
  lemma EnqueueOutcome(json: Json, rows: Rows, id: string, p: Payload, now: int)
    ensures var (r, after) := Enqueued(rows, id, p, json.Image(p), now);
            var (records, metadata) := (json.records(p.records), json.text(p.metadata));
            if !IsIdentifier(id) || !IsValidPayload(p) || records.None? || metadata.None? then r == Err(Invalid) && after == rows
            else if id in rows then
              after == rows && (r == Ok(rows[id]) <==> rows[id].payload == p) && (r == Err(Conflict) <==> rows[id].payload != p)
            else
              var stored := Batch(Payload(p.runId, p.zip, records.value, metadata.value), now, Pending);
              r == Ok(stored) && after == rows[id := stored]
  {
    hide IsIdentifier, IsValidPayload;
  }

  /** What becomes of a delivery that is reported. */
  lemma DeliveryOutcome(json: Json, rows: Rows, id: string, metadata: string, now: int)
    requires json.text(metadata).Some?
    ensures var ack := Delivered(now, metadata);
            var stored := Delivered(now, json.text(metadata).value);
            && json.AckImage(ack) == Some(stored)
            && var (r, after) := Transitioned(rows, id, ack, stored);
               if id !in rows then r == Err(NotFound) && after == rows
               else match rows[id].status
                    case Pending => after == rows[id := rows[id].(status := stored)] && r == Ok(after[id])
                    case Delivered(_, m) => after == rows && r == if m == metadata then Ok(rows[id]) else Err(Conflict)
                    case Quarantined(_, _, _) => after == rows && r == Err(WrongState)
  {}

  /** What becomes of a quarantine that is reported; a different reason or different evidence conflicts. */
  lemma QuarantineOutcome(json: Json, rows: Rows, id: string, reason: string, evidence: string, now: int)
    requires json.text(evidence).Some?
    ensures var ack := Quarantined(now, reason, evidence);
            var stored := Quarantined(now, reason, json.text(evidence).value);
            && json.AckImage(ack) == Some(stored)
            && var (r, after) := Transitioned(rows, id, ack, stored);
               if id !in rows then r == Err(NotFound) && after == rows
               else match rows[id].status
                    case Pending => after == rows[id := rows[id].(status := stored)] && r == Ok(after[id])
                    case Quarantined(_, why, e) => after == rows && r == if why == reason && e == evidence then Ok(rows[id]) else Err(Conflict)
                    case Delivered(_, _) => after == rows && r == Err(WrongState)
  {}
}
