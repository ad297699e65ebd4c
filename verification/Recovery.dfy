/** The read-only startup inspection of the outbox file, against what the worker itself would accept for replay. */
module Recovery {

  /** A JSON column as it decodes: absent, not JSON, an array with the "is an object" flag of each element,
      an object with its database target, or any other value. */
  datatype Json = Absent | Malformed | Array(objects: seq<bool>) | Object(target: string) | Other

  /** A stored row; the two terminal JSON columns are empty while the row is pending. */
  datatype Row = Row(id: string, status: string, recordCount: int, records: Json, metadata: Json, delivery: Json, evidence: Json)

  const STATUSES := ["pending", "delivered", "quarantined"]

  datatype State = Absent | Unavailable | Corrupt | Ready

  datatype Problem = UnknownStatus(status: string) | MalformedBatch(id: string)

  datatype Report = Report(state: State, problems: seq<Problem>, pending: nat, listed: seq<string>)

  // ---- what the worker accepts ------------------------------------------------------

  predicate IsObjectOrAbsent(j: Json) {
    j.Object? || j.Absent?
  }

  /** The outbox's own decoding of a row succeeds. */
  predicate Decodes(r: Row) {
    && r.records.Array? && r.records.objects != [] && (forall b :: b in r.records.objects ==> b)
    && r.recordCount == |r.records.objects|
    && r.metadata.Object? && IsObjectOrAbsent(r.delivery) && IsObjectOrAbsent(r.evidence)
    && r.status in STATUSES
  }

  /** A replay would accept the batch: it decodes, and it is bound to the current database. */
  predicate WouldReplay(r: Row, target: string) {
    Decodes(r) && r.metadata.target == target
  }

  /** The table's own checks: known states only, and no terminal evidence on a pending row. */
  ghost predicate SchemaHolds(rows: seq<Row>) {
    forall r :: r in rows ==> r.status in STATUSES && (r.status == "pending" ==> r.delivery.Absent? && r.evidence.Absent?)
  }

  // ---- what the inspector checks -----------------------------------------------------

  function AppendLimited<T>(items: seq<T>, item: T, limit: nat): seq<T> {
    if |items| < limit then items + [item] else items
  }

  /** The pending ids in the order of the rows. */
  function PendingIds(rows: seq<Row>): seq<string> {
    if rows == [] then []
    else
      var last := rows[|rows| - 1];
      PendingIds(rows[..|rows| - 1]) + (if last.status == "pending" then [last.id] else [])
  }

  /** The pending rows that fail, in the order of the rows. */
  function Failing(rows: seq<Row>, target: string): seq<string> {
    if rows == [] then []
    else
      var last := rows[|rows| - 1];
      Failing(rows[..|rows| - 1], target) + (if last.status == "pending" && PayloadFails(last, target) then [last.id] else [])
  }

  /** The states that are not known. */
  function Unknown(rows: seq<Row>): set<string> {
    set r | r in rows && r.status !in STATUSES :: r.status
  }

  /** What the limit leaves of a list of `n` entries. */
  function Kept(n: nat, limit: nat): nat {
    if n < limit then n else limit
  }

  /** The problems are the unknown states, each once, and then the failing pending rows in order, cut off at the limit. */
  ghost predicate Reported(problems: seq<Problem>, unknown: set<string>, failing: seq<string>, limit: nat) {
    && |problems| == Kept(|unknown| + |failing|, limit)
    && (forall i :: 0 <= i < |problems| && i < |unknown| ==> problems[i].UnknownStatus? && problems[i].status in unknown)
    && (forall i, j :: 0 <= i < j < |problems| && j < |unknown| ==> problems[i] != problems[j])
    && (forall i :: |unknown| <= i < |problems| ==> problems[i] == MalformedBatch(failing[i - |unknown|]))
  }

  /** All pending rows are counted, and the first of them listed. */
  ghost predicate Listed(pending: nat, listed: seq<string>, ids: seq<string>, limit: nat) {
    pending == |ids| && |listed| == Kept(|ids|, limit) && listed == ids[..|listed|]
  }

  lemma UnknownMore(problems: seq<Problem>, done: set<string>, s: string, limit: nat)
    requires Reported(problems, done, [], limit) && s !in done
    ensures Reported(AppendLimited(problems, UnknownStatus(s), limit), done + {s}, [], limit)
  {
    assert |done + {s}| == |done| + 1;
  }

  lemma FailingMore(problems: seq<Problem>, unknown: set<string>, failing: seq<string>, id: string, limit: nat)
    requires Reported(problems, unknown, failing, limit)
    ensures Reported(AppendLimited(problems, MalformedBatch(id), limit), unknown, failing + [id], limit)
  {}

  lemma {:induction false} NothingFails(rows: seq<Row>, target: string)
    ensures Failing(rows, target) == [] <==> forall r :: r in rows && r.status == "pending" ==> !PayloadFails(r, target)
  {
    hide PayloadFails;
    if rows != [] {
      NothingFails(rows[..|rows| - 1], target);
      assert rows == rows[..|rows| - 1] + [rows[|rows| - 1]];
    }
  }

  lemma NothingUnknown(rows: seq<Row>)
    ensures Unknown(rows) == {} <==> forall r :: r in rows ==> r.status in ["pending", "delivered", "quarantined"]
  {
    if Unknown(rows) == {} {
      forall r | r in rows ensures r.status in STATUSES {
        assert r.status !in STATUSES ==> r.status in Unknown(rows);
      }
    }
  }

  /** A payload passes exactly when it is a non-empty array of objects, as many as counted, bound to the current database. */
  lemma PayloadPasses(r: Row, target: string)
    ensures !PayloadFails(r, target) <==>
            && r.metadata == Object(target) && r.records.Array? && |r.records.objects| > 0
            && r.recordCount == |r.records.objects| && forall i :: 0 <= i < |r.records.objects| ==> r.records.objects[i]
  {
    if r.records.Array? {
      forall i | 0 <= i < |r.records.objects| ensures r.records.objects[i] in r.records.objects {}
    }
  }

  /** The inspector's independent look at a pending payload. */
  predicate PayloadFails(r: Row, target: string) {
    || !r.records.Array? || r.records.objects == [] || (exists b :: b in r.records.objects && !b)
    || r.recordCount != |r.records.objects|
    || !r.metadata.Object? || r.metadata.target != target
  }

  /** The bounded report is as strict as the worker: whatever the limit, an existing outbox is reported ready exactly
      when every pending row would be accepted for replay. */
  lemma ReadyMeansReplayable(rows: seq<Row>, target: string)
    requires SchemaHolds(rows)
    ensures (forall r :: r in rows ==> r.status in ["pending", "delivered", "quarantined"] && (r.status == "pending" ==> !PayloadFails(r, target))) <==>
            (forall r :: r in rows && r.status == "pending" ==> WouldReplay(r, target))
  {}

  /** Unknown states first, one entry a state; then the pending rows. Both lists are cut off at the limit, the count of
      pending rows is not. */
  method InspectOutbox(exists': bool, isFile: bool, readable: bool, rows: seq<Row>, target: string, limit: nat) returns (report: Report)
    requires limit >= 1
    ensures !exists' ==> report == Report(State.Absent, [], 0, [])
    ensures exists' && !(isFile && readable) ==> report == Report(Unavailable, [], 0, [])
    ensures exists' && isFile && readable ==>
      && (report.state == Ready || report.state == Corrupt)
      && (report.state == Ready <==>
            forall r :: r in rows ==>
              && r.status in ["pending", "delivered", "quarantined"] && (r.status == "pending" ==> !PayloadFails(r, target)))
      && (SchemaHolds(rows) ==> (report.state == Ready <==> forall r :: r in rows && r.status == "pending" ==> WouldReplay(r, target)))
      && Listed(report.pending, report.listed, PendingIds(rows), limit)
      && Reported(report.problems, Unknown(rows), Failing(rows, target), limit)
  {
    hide *;
    if !exists' {
      return Report(State.Absent, [], 0, []);
    }
    if !isFile || !readable {
      return Report(Unavailable, [], 0, []);
    }
    var problems: seq<Problem> := [];
    var unknown := Unknown(rows);
    var todo := unknown;
    NothingReported(limit, target);
    assert unknown - todo == {};
    while todo != {}
      invariant todo <= unknown && Reported(problems, unknown - todo, [], limit)
    {
      var s :| s in todo;
      UnknownMore(problems, unknown - todo, s, limit);
      assert unknown - (todo - {s}) == unknown - todo + {s};
      problems := AppendLimited(problems, UnknownStatus(s), limit);
      todo := todo - {s};
    }
    assert unknown - todo == unknown;
    var pending: nat, listed: seq<string> := 0, [];
    for i := 0 to |rows|
      invariant Listed(pending, listed, PendingIds(rows[..i]), limit)
      invariant Reported(problems, unknown, Failing(rows[..i], target), limit)
    {
      RowsGrow(rows[..i], rows[i], target);
      assert rows[..i + 1] == rows[..i] + [rows[i]];
      ListedMore(pending, listed, PendingIds(rows[..i]), rows[i].id, limit);
      FailingMore(problems, unknown, Failing(rows[..i], target), rows[i].id, limit);
      if rows[i].status == "pending" {
        pending := pending + 1;
        listed := AppendLimited(listed, rows[i].id, limit);
        if PayloadFails(rows[i], target) {
          problems := AppendLimited(problems, MalformedBatch(rows[i].id), limit);
        }
      }
    }
    assert rows[..|rows|] == rows;
    NothingFails(rows, target);
    NothingUnknown(rows);
    EmptyReport(problems, unknown, Failing(rows, target), limit);
    if SchemaHolds(rows) {
      ReadyMeansReplayable(rows, target);
    }
    report := Report(if problems == [] then Ready else Corrupt, problems, pending, listed);
  }

  lemma NothingReported(limit: nat, target: string)
    ensures Reported([], {}, [], limit) && Failing([], target) == [] && Listed(0, [], PendingIds([]), limit)
  {}

  lemma ListedMore(pending: nat, listed: seq<string>, ids: seq<string>, id: string, limit: nat)
    requires Listed(pending, listed, ids, limit)
    ensures Listed(pending + 1, AppendLimited(listed, id, limit), ids + [id], limit)
  {}

  lemma RowsGrow(rows: seq<Row>, r: Row, target: string)
    ensures PendingIds(rows + [r]) == if r.status == "pending" then PendingIds(rows) + [r.id] else PendingIds(rows)
    ensures Failing(rows + [r], target) ==
            if r.status == "pending" && PayloadFails(r, target) then Failing(rows, target) + [r.id] else Failing(rows, target)
  {
    hide PayloadFails;
    assert (rows + [r])[..|rows|] == rows;
  }

  lemma EmptyReport(problems: seq<Problem>, unknown: set<string>, failing: seq<string>, limit: nat)
    requires limit >= 1 && Reported(problems, unknown, failing, limit)
    ensures problems == [] <==> unknown == {} && failing == []
  {}
}
