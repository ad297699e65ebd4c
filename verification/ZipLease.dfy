/** ZIP claims as fenced leases: many workers, operators and virtual machines share one table of ZIP rows, and a browser
    result is accepted only from the worker whose token the row carries. */
module ZipLease {
  import opened Options

  type Code = string
  type Worker = int
  type Token = int

  datatype Status = Pending | InProgress | Done | Error | Quarantined

  /** The row's last_error column: empty, a browser lease token, or any other text. */
  datatype Mark = Empty | Lease(token: Token) | Text(reason: string)

  datatype Row = Row(status: Status, mark: Mark, updatedAt: int, lastScraped: Option<int>)

  type Rows = map<Code, Row>
  type Claims = map<Code, Token>

  const LEASE_SECONDS := 30 * 60

  predicate Leased(row: Row, token: Token) {
    row.status == InProgress && row.mark == Lease(token)
  }

  predicate Expired(row: Row, now: int) {
    row.status == InProgress && row.mark.Lease? && row.updatedAt < now - LEASE_SECONDS
  }

  /** Expired browser leases go back to pending. */
  function Recovered(rows: Rows, now: int): Rows {
    map z | z in rows :: if Expired(rows[z], now) then rows[z].(status := Pending, mark := Empty, updatedAt := now) else rows[z]
  }

  /** A pending ZIP may be claimed; when none is pending, so may one whose last scrape is older than the cutoff. */
  predicate Claimable(rows: Rows, z: Code, refresh: Option<int>) {
    z in rows && (rows[z].status == Pending ||
                  ((forall y :: y in rows ==> rows[y].status != Pending) && refresh.Some? && rows[z].status == Done &&
                   (rows[z].lastScraped.None? || rows[z].lastScraped.value < refresh.value)))
  }

  function Take(rows: Rows, z: Code, token: Token, now: int): Rows
    requires z in rows
  {
    rows[z := rows[z].(status := InProgress, mark := Lease(token), updatedAt := now)]
  }

  predicate Holds(rows: Rows, claims: Claims, z: Code) {
    z in claims && z in rows && Leased(rows[z], claims[z])
  }

  function Beaten(rows: Rows, claims: Claims, now: int): Rows {
    map z | z in rows :: if Holds(rows, claims, z) then rows[z].(updatedAt := now) else rows[z]
  }

  function Released(rows: Rows, claims: Claims, now: int): Rows {
    map z | z in rows :: if Holds(rows, claims, z) then rows[z].(status := Pending, mark := Empty, updatedAt := now) else rows[z]
  }

  /** The claimed row's outcome: done, parked as an error, or quarantined, and no longer leased. */
  function Settle(rows: Rows, z: Code, status: Status, mark: Mark, scraped: Option<int>, now: int): Rows
    requires z in rows
  {
    rows[z := Row(status, mark, now, OrElse(scraped, rows[z].lastScraped))]
  }

  predicate Outcome(status: Status, mark: Mark) {
    (status == Done || status == Error || status == Quarantined) && !mark.Lease?
  }

  /** Failed rows are put back for another attempt. */
  function Retried(rows: Rows, now: int): Rows {
    map z | z in rows ::
      if rows[z].status == Error || rows[z].status == Quarantined then rows[z].(status := Pending, mark := Empty, updatedAt := now)
      else rows[z]
  }

  function Renewed(row: Row, now: int): Row {
    row.(status := Pending, mark := Empty, updatedAt := now)
  }

  /** The operator queues ZIPs, whatever their state and whoever holds them; a known ZIP without a row gets one. */
  function Requeued(rows: Rows, zips: set<Code>, now: int): Rows {
    map z | z in rows.Keys + zips ::
      if z !in zips then rows[z] else if z in rows then Renewed(rows[z], now) else Row(Pending, Empty, now, None)
  }

  // ---- virtual machines: they claim rows of the same table, and never touch the mark of a row they claim or recover

  function VmTaken(rows: Rows, z: Code, now: int): Rows
    requires z in rows
  {
    rows[z := rows[z].(status := InProgress, updatedAt := now)]
  }

  predicate Stuck(row: Row, now: int) {
    row.status == InProgress && row.updatedAt < now - LEASE_SECONDS
  }

  function VmRecovered(rows: Rows, now: int): Rows {
    map z | z in rows :: if Stuck(rows[z], now) then rows[z].(status := Pending, updatedAt := now) else rows[z]
  }

  // ---- one worker against the shared table ------------------------------------------

  class ZipTable {
    var rows: Rows
    var nextToken: Token

    /** Queue the given ZIPs one after the other. */
    method Requeue(zips: set<Code>, now: int)
      modifies this`rows
      ensures rows == Requeued(old(rows), zips, now)
      ensures rows.Keys == old(rows).Keys + zips
      ensures forall z :: z in rows ==>
                rows[z] == if z !in zips then old(rows)[z] else Row(Pending, Empty, now, if z in old(rows) then old(rows)[z].lastScraped else None)
    {
      var todo := zips;
      while todo != {}
        invariant todo <= zips
        invariant rows == Requeued(old(rows), zips - todo, now)
      {
        var z :| z in todo;
        todo := todo - {z};
        rows := rows[z := if z in rows then Renewed(rows[z], now) else Row(Pending, Empty, now, None)];
      }
      assert zips - todo == zips;
    }

    /** A full recrawl. */
    method RequeueAll(now: int) returns (count: nat)
      modifies this`rows
      ensures var behind := set z | z in old(rows) && old(rows)[z].status != Pending;
              rows == Requeued(old(rows), behind, now) && count == |behind|
    {
      var behind := set z | z in rows && rows[z].status != Pending;
      rows := map z | z in rows :: if z in behind then Renewed(rows[z], now) else rows[z];
      count := |behind|;
    }
  }

  class ZipWorker {
    const table: ZipTable
    var claims: Claims

    constructor (table: ZipTable)
      ensures this.table == table && claims == map[]
    {
      this.table := table;
      claims := map[];
    }

    /** Recover expired leases, then claim one eligible ZIP under a new token. */
    method ClaimNextZip(now: int, refresh: Option<int>) returns (z: Option<Code>)
      modifies this, table
      ensures var rows := Recovered(old(table.rows), now);
              match z
              case None =>
                && table.rows == rows && claims == old(claims) && table.nextToken == old(table.nextToken)
                && (forall y :: y in rows ==> !Claimable(rows, y, refresh))
              case Some(code) =>
                && code in rows
                && (rows[code].status == Pending ||
                    ((forall y :: y in rows ==> rows[y].status != Pending) && rows[code].status == Done && refresh.Some?
                     && (rows[code].lastScraped.None? || rows[code].lastScraped.value < refresh.value)))
                && table.nextToken == old(table.nextToken) + 1
                && table.rows == Take(rows, code, old(table.nextToken), now)
                && claims == old(claims)[code := old(table.nextToken)]
    {
      var rows := Recovered(table.rows, now);
      table.rows := rows;
      hide Claimable, Recovered;
      var eligible := set y | y in rows && Claimable(rows, y, refresh);
      if eligible == {} {
        assert forall y :: y in rows && Claimable(rows, y, refresh) ==> y in eligible;
        return None;
      }
      var code :| code in eligible;
      var token := table.nextToken;
      table.nextToken := table.nextToken + 1;
      table.rows := Take(rows, code, token, now);
      claims := claims[code := token];
      z := Some(code);
    }

    /** The row lock that every result or state write takes first. */
    method LockOwnedZip(z: Code) returns (owned: bool)
      requires z in table.rows
      ensures owned <==> Holds(table.rows, claims, z)
    {
      if z !in claims {
        return false;
      }
      owned := !(table.rows[z].status != InProgress || table.rows[z].mark != Lease(claims[z]));
    }

    method SetZipState(z: Code, status: Status, mark: Mark, scraped: Option<int>, now: int) returns (accepted: bool)
      requires z in table.rows && Outcome(status, mark)
      modifies this, table
      ensures accepted <==> old(Holds(table.rows, claims, z))
      ensures accepted ==> table.rows == Settle(old(table.rows), z, status, mark, scraped, now) && claims == old(claims) - {z}
      ensures !accepted ==> table.rows == old(table.rows) && claims == old(claims)
      ensures table.nextToken == old(table.nextToken)
    {
      accepted := LockOwnedZip(z);
      if accepted {
        table.rows := Settle(table.rows, z, status, mark, scraped, now);
        claims := claims - {z};
      }
    }

    /** Re-claim the ZIP of a pending outbox batch, under the token stored with the batch if there is one. */
    method ClaimOutboxZip(z: Code, stored: Option<Token>, now: int) returns (claimed: bool)
      requires z in table.rows
      modifies this, table
      ensures var token := if stored.Some? then stored.value else old(table.nextToken);
              && (claimed <==> !(old(table.rows)[z].status == InProgress && old(table.rows)[z].mark != Lease(token)))
              && (claimed ==> table.rows == Take(old(table.rows), z, token, now) && claims == old(claims)[z := token])
              && (!claimed ==> table.rows == old(table.rows) && claims == old(claims))
      ensures table.nextToken == old(table.nextToken) + (if stored.Some? then 0 else 1)
    {
      var token := table.nextToken;
      if stored.Some? {
        token := stored.value;
      } else {
        table.nextToken := table.nextToken + 1;
      }
      if table.rows[z].status == InProgress && table.rows[z].mark != Lease(token) {
        return false;
      }
      table.rows := Take(table.rows, z, token, now);
      claims := claims[z := token];
      claimed := true;
    }

    /** Refresh every lease this worker still holds. */
    method HeartbeatClaims(now: int)
      modifies table`rows
      ensures table.rows == Beaten(old(table.rows), claims, now)
      ensures table.rows.Keys == old(table.rows).Keys
      ensures forall z :: z in table.rows ==>
                var row := old(table.rows)[z];
                table.rows[z] == if z in claims && row.status == InProgress && row.mark == Lease(claims[z]) then row.(updatedAt := now) else row
    {
      var todo := claims.Keys;
      while todo != {}
        invariant todo <= claims.Keys && table.rows.Keys == old(table.rows).Keys
        invariant forall z :: z in table.rows ==>
          table.rows[z] == (if z in todo then old(table.rows)[z] else Beaten(old(table.rows), claims, now)[z])
      {
        var z :| z in todo;
        todo := todo - {z};
        if z in table.rows && Leased(table.rows[z], claims[z]) {
          table.rows := table.rows[z := table.rows[z].(updatedAt := now)];
        }
      }
    }

    /** Give back every lease this worker still holds and forget all claims. */
    method ReleaseZipClaims(now: int)
      modifies this, table`rows
      ensures table.rows == Released(old(table.rows), old(claims), now) && claims == map[]
      ensures table.rows.Keys == old(table.rows).Keys
      ensures forall z :: z in table.rows ==>
                var row, held := old(table.rows)[z], old(claims);
                table.rows[z] == if z in held && row.status == InProgress && row.mark == Lease(held[z]) then Row(Pending, Empty, now, row.lastScraped) else row
    {
      var todo := claims.Keys;
      while todo != {}
        invariant claims == old(claims)
        invariant todo <= claims.Keys && table.rows.Keys == old(table.rows).Keys
        invariant forall z :: z in table.rows ==>
          table.rows[z] == (if z in todo then old(table.rows)[z] else Released(old(table.rows), claims, now)[z])
      {
        var z :| z in todo;
        todo := todo - {z};
        if z in table.rows && Leased(table.rows[z], claims[z]) {
          table.rows := table.rows[z := table.rows[z].(status := Pending, mark := Empty, updatedAt := now)];
        }
      }
      claims := map[];
    }
  }

  // ---- all workers together ------------------------------------------------------------

  /** The shared rows, each worker's claims in memory, and the tokens kept in each worker's durable outbox. */
  datatype State = State(rows: Rows, claims: map<Worker, Claims>, stored: map<Worker, set<(Code, Token)>>, nextToken: Token)

  datatype Step =
    | Claim(w: Worker, z: Code, refresh: Option<int>)
    | ClaimNothing(w: Worker)
    | Store(w: Worker, z: Code)
    | OutboxClaim(w: Worker, z: Code, token: Option<Token>)
    | Write(w: Worker, z: Code, status: Status, mark: Mark, scraped: Option<int>)
    | Heartbeat(w: Worker)
    | Release(w: Worker)
    | Crash(w: Worker)
    | RetryFailed
    | Requeue(zips: set<Code>)
    | VmClaim(z: Code, refresh: Option<int>)
    | VmRecover
    | VmDone(z: Code)
    | VmError(z: Code, reason: string)
    | Elsewhere               // a step of the system that leaves the leases alone

  /** The browser worker that takes the step; operators and virtual machines are not workers. */
  predicate TakenBy(step: Step, w: Worker) {
    (step.Claim? || step.ClaimNothing? || step.Store? || step.OutboxClaim? || step.Write? || step.Heartbeat? || step.Release? || step.Crash?)
    && step.w == w
  }

  function ClaimsOf(s: State, w: Worker): Claims {
    if w in s.claims then s.claims[w] else map[]
  }

  function StoredOf(s: State, w: Worker): set<(Code, Token)> {
    if w in s.stored then s.stored[w] else {}
  }

  function OutboxToken(s: State, step: Step): Token
    requires step.OutboxClaim?
  {
    if step.token.Some? then step.token.value else s.nextToken
  }

  predicate Enabled(s: State, step: Step, now: int) {
    match step
    case Claim(w, z, refresh) => Claimable(Recovered(s.rows, now), z, refresh)
    case Store(w, z) => z in ClaimsOf(s, w)
    case OutboxClaim(w, z, token) =>
      && z in s.rows && (token.Some? ==> (z, token.value) in StoredOf(s, w))
      && !(s.rows[z].status == InProgress && s.rows[z].mark != Lease(OutboxToken(s, step)))
    case Write(w, z, status, mark, scraped) => Holds(s.rows, ClaimsOf(s, w), z) && Outcome(status, mark)
    case VmClaim(z, refresh) => Claimable(s.rows, z, refresh)
    case VmDone(z) => z in s.rows
    case VmError(z, reason) => z in s.rows
    case _ => true
  }

  function Apply(s: State, step: Step, now: int): State
    requires Enabled(s, step, now)
  {
    match step
    case Claim(w, z, refresh) =>
      s.(rows := Take(Recovered(s.rows, now), z, s.nextToken, now),
         claims := s.claims[w := ClaimsOf(s, w)[z := s.nextToken]], nextToken := s.nextToken + 1)
    case ClaimNothing(w) => s.(rows := Recovered(s.rows, now))
    case Store(w, z) => s.(stored := s.stored[w := StoredOf(s, w) + {(z, ClaimsOf(s, w)[z])}])
    case OutboxClaim(w, z, token) =>
      var t := OutboxToken(s, step);
      s.(rows := Take(s.rows, z, t, now), claims := s.claims[w := ClaimsOf(s, w)[z := t]],
         nextToken := if token.Some? then s.nextToken else s.nextToken + 1)
    case Write(w, z, status, mark, scraped) =>
      s.(rows := Settle(s.rows, z, status, mark, scraped, now), claims := s.claims[w := ClaimsOf(s, w) - {z}])
    case Heartbeat(w) => s.(rows := Beaten(s.rows, ClaimsOf(s, w), now))
    case Release(w) => s.(rows := Released(s.rows, ClaimsOf(s, w), now), claims := s.claims[w := map[]])
    case RetryFailed => s.(rows := Retried(s.rows, now))
    case Crash(w) => s.(claims := s.claims[w := map[]])
    case Requeue(zips) => s.(rows := Requeued(s.rows, zips, now))
    case VmClaim(z, refresh) => s.(rows := VmTaken(s.rows, z, now))
    case VmRecover => s.(rows := VmRecovered(s.rows, now))
    case VmDone(z) => s.(rows := s.rows[z := Row(Done, Empty, now, Some(now))])
    case VmError(z, reason) => s.(rows := s.rows[z := s.rows[z].(status := Error, mark := Text(reason), updatedAt := now)])
    case Elsewhere => s
  }

  /** A worker knows a token, in memory or in its outbox, for a ZIP. */
  ghost predicate Knows(s: State, w: Worker, z: Code, t: Token) {
    (z in ClaimsOf(s, w) && ClaimsOf(s, w)[z] == t) || (z, t) in StoredOf(s, w)
  }

  /** Every token in use was issued, and is known to one worker for one ZIP only. */
  ghost predicate TokensOwned(s: State) {
    && (forall w, z, t :: Knows(s, w, z, t) ==> t < s.nextToken)
    && (forall z :: z in s.rows && s.rows[z].mark.Lease? ==> s.rows[z].mark.token < s.nextToken)
    && (forall w, z, w', z', t :: Knows(s, w, z, t) && Knows(s, w', z', t) ==> w == w' && z == z')
  }

  ghost predicate HoldsZip(s: State, w: Worker, z: Code) {
    Holds(s.rows, ClaimsOf(s, w), z)
  }

  /** What a step can teach: only a claim gives a worker a token, and then either a new one or one it already had. */
  lemma StepKnowledge(s: State, step: Step, now: int, w: Worker, z: Code, t: Token)
    requires Enabled(s, step, now) && Knows(Apply(s, step, now), w, z, t)
    ensures Knows(s, w, z, t) || (t == s.nextToken && s.nextToken < Apply(s, step, now).nextToken &&
                                  ((step.Claim? || step.OutboxClaim?) && step.w == w && step.z == z))
  {
    hide Recovered, Take, Settle, Beaten, Released, Retried, Holds, Claimable, Outcome;
  }

  lemma StepTokens(s: State, step: Step, now: int, z: Code)
    requires Enabled(s, step, now) && TokensOwned(s)
    ensures s.nextToken <= Apply(s, step, now).nextToken
    ensures var rows := Apply(s, step, now).rows;
            z in rows && rows[z].mark.Lease? ==> rows[z].mark.token < Apply(s, step, now).nextToken
  {
    if step.OutboxClaim? && step.token.Some? {
      assert Knows(s, step.w, step.z, step.token.value);
    }
    hide Knows, TokensOwned, Claimable;
  }

  /** Tokens stay unshared over every step. */
  lemma StepKeepsTokensOwned(s: State, step: Step, now: int)
    requires Enabled(s, step, now) && TokensOwned(s)
    ensures TokensOwned(Apply(s, step, now))
  {
    var s' := Apply(s, step, now);
    hide Knows, Apply, Enabled;
    forall w, z, t | Knows(s', w, z, t) ensures t < s'.nextToken {
      StepKnowledge(s, step, now, w, z, t);
      StepTokens(s, step, now, z);
    }
    forall z | z in s'.rows && s'.rows[z].mark.Lease? ensures s'.rows[z].mark.token < s'.nextToken {
      StepTokens(s, step, now, z);
    }
    forall w, z, w', z', t | Knows(s', w, z, t) && Knows(s', w', z', t) ensures w == w' && z == z' {
      StepKnowledge(s, step, now, w, z, t);
      StepKnowledge(s, step, now, w', z', t);
    }
  }

  /** A ZIP never has two holders. */
  lemma OneHolder(s: State, z: Code)
    requires TokensOwned(s)
    ensures forall w, w' :: HoldsZip(s, w, z) && HoldsZip(s, w', z) ==> w == w'
  {
    forall w, w' | HoldsZip(s, w, z) && HoldsZip(s, w', z) ensures w == w' {
      assert Knows(s, w, z, ClaimsOf(s, w)[z]) && Knows(s, w', z, ClaimsOf(s, w)[z]);
    }
  }

  /** The step is this worker's own claim of this ZIP. */
  predicate IsClaimOf(step: Step, w: Worker, z: Code) {
    (step.Claim? || step.OutboxClaim?) && step.w == w && step.z == z
  }

  /** A virtual machine claims a row that still carries the token of a worker, and so makes that token match again. */
  predicate Rearms(s: State, step: Step, w: Worker, z: Code) {
    step.VmClaim? && step.z == z && z in s.rows && z in ClaimsOf(s, w) && s.rows[z].mark == Lease(ClaimsOf(s, w)[z])
  }

  /** A claim gives its worker the ZIP and nobody else anything. */
  lemma GainsByClaim(s: State, step: Step, now: int, w: Worker, z: Code)
    requires TokensOwned(s) && Enabled(s, step, now) && !HoldsZip(s, w, z) && (step.Claim? || step.OutboxClaim?)
    ensures HoldsZip(Apply(s, step, now), w, z) <==> IsClaimOf(step, w, z)
  {
    var s' := Apply(s, step, now);
    if HoldsZip(s', w, z) {
      assert Knows(s', w, z, ClaimsOf(s', w)[z]);
      StepKnowledge(s, step, now, w, z, ClaimsOf(s', w)[z]);
    }
    assert step.OutboxClaim? && step.token.Some? ==> Knows(s, step.w, step.z, step.token.value);
    assert z in ClaimsOf(s, w) ==> Knows(s, w, z, ClaimsOf(s, w)[z]);
    hide Knows, TokensOwned;
  }

  /** Other steps give nobody a ZIP, but for a machine's claim of a row with a stale token. */
  lemma GainsOtherwise(s: State, step: Step, now: int, w: Worker, z: Code)
    requires Enabled(s, step, now) && !HoldsZip(s, w, z) && !step.Claim? && !step.OutboxClaim?
    ensures HoldsZip(Apply(s, step, now), w, z) <==> Rearms(s, step, w, z)
  {}

  /** Exactly how a worker comes to hold a ZIP: by its own claim, or by a virtual machine's claim of a row that still
      carries its token. */
  lemma GainsIff(s: State, step: Step, now: int, w: Worker, z: Code)
    requires TokensOwned(s) && Enabled(s, step, now) && !HoldsZip(s, w, z)
    ensures HoldsZip(Apply(s, step, now), w, z) <==> IsClaimOf(step, w, z) || Rearms(s, step, w, z)
  {
    hide TokensOwned, Enabled, Apply, HoldsZip;
    if step.Claim? || step.OutboxClaim? {
      GainsByClaim(s, step, now, w, z);
    } else {
      GainsOtherwise(s, step, now, w, z);
    }
  }

  /** A claim by somebody else ends the lease at once. */
  lemma ClaimEvicts(s: State, step: Step, now: int, w: Worker)
    requires TokensOwned(s) && Enabled(s, step, now) && (step.Claim? || step.OutboxClaim?) && step.w != w
    ensures HoldsZip(Apply(s, step, now), step.w, step.z) && !HoldsZip(Apply(s, step, now), w, step.z)
  {
    StepKeepsTokensOwned(s, step, now);
    OneHolder(Apply(s, step, now), step.z);
    hide TokensOwned, Claimable, Knows;
    assert HoldsZip(Apply(s, step, now), step.w, step.z);
  }

  /** What ends a lease from outside: recovery when it is older than thirty minutes, an operator who queues the ZIP
      again, or a virtual machine that reports the ZIP as finished or failed. */
  predicate Ends(s: State, step: Step, now: int, z: Code)
    requires z in s.rows
  {
    || ((step.Claim? || step.ClaimNothing? || step.VmRecover?) && Expired(s.rows[z], now))
    || (step.Requeue? && z in step.zips)
    || ((step.VmDone? || step.VmError?) && step.z == z)
  }

  lemma RecoveredRow(rows: Rows, now: int, z: Code)
    requires z in rows && rows[z].status == InProgress
    ensures z in Recovered(rows, now) && Recovered(rows, now)[z] == if Expired(rows[z], now) then Renewed(rows[z], now) else rows[z]
    ensures !Expired(rows[z], now) ==> forall y, refresh :: Claimable(Recovered(rows, now), y, refresh) ==> y != z
    ensures forall y, refresh :: Claimable(rows, y, refresh) ==> y != z
  {}

  /** Another worker's claim ends the lease only by recovering it. */
  lemma EndsByClaim(s: State, step: Step, now: int, w: Worker, z: Code)
    requires TokensOwned(s) && Enabled(s, step, now) && HoldsZip(s, w, z) && !TakenBy(step, w)
    requires step.Claim? || step.ClaimNothing? || step.OutboxClaim?
    ensures !HoldsZip(Apply(s, step, now), w, z) <==> Ends(s, step, now, z)
  {
    assert step.OutboxClaim? && step.token.Some? ==> Knows(s, step.w, step.z, step.token.value);
    assert Knows(s, w, z, ClaimsOf(s, w)[z]) && ClaimsOf(s, w)[z] < s.nextToken;
    assert step.OutboxClaim? && step.token.Some? ==> step.token.value != ClaimsOf(s, w)[z];
    hide TokensOwned, Knows, Claimable, Recovered, Expired;
    RecoveredRow(s.rows, now, z);
  }

  /** No other step of a worker ends the lease of another one. */
  lemma EndsByWorker(s: State, step: Step, now: int, w: Worker, z: Code)
    requires TokensOwned(s) && Enabled(s, step, now) && HoldsZip(s, w, z) && !TakenBy(step, w)
    requires step.Store? || step.Write? || step.Heartbeat? || step.Release? || step.Crash?
    ensures HoldsZip(Apply(s, step, now), w, z)
  {
    OneHolder(s, z);
    assert step.Write? || step.Heartbeat? || step.Release? ==> !HoldsZip(s, step.w, z);
    hide TokensOwned;
  }

  lemma EndsFromOutside(s: State, step: Step, now: int, w: Worker, z: Code)
    requires Enabled(s, step, now) && HoldsZip(s, w, z)
    requires step.RetryFailed? || step.Requeue? || step.VmClaim? || step.VmRecover? || step.VmDone? || step.VmError? || step.Elsewhere?
    ensures !HoldsZip(Apply(s, step, now), w, z) <==> Ends(s, step, now, z)
  {}

  lemma EndsIs(s: State, step: Step, now: int, w: Worker, z: Code)
    requires HoldsZip(s, w, z)
    ensures Ends(s, step, now, z) <==>
            || ((step.Claim? || step.ClaimNothing? || step.VmRecover?) && s.rows[z].updatedAt + 1800 < now)
            || (step.Requeue? && z in step.zips) || ((step.VmDone? || step.VmError?) && step.z == z)
  {}

  /** Exactly when a step of somebody else ends a lease. */
  lemma LeaseEndsIff(s: State, step: Step, now: int, w: Worker, z: Code)
    requires TokensOwned(s) && Enabled(s, step, now) && HoldsZip(s, w, z)
    requires step.Claim? || step.ClaimNothing? || step.Store? || step.OutboxClaim? || step.Write? || step.Heartbeat? || step.Release? || step.Crash?
             ==> step.w != w
    ensures !HoldsZip(Apply(s, step, now), w, z) <==>
            || ((step.Claim? || step.ClaimNothing? || step.VmRecover?) && s.rows[z].updatedAt + 1800 < now)
            || (step.Requeue? && z in step.zips) || ((step.VmDone? || step.VmError?) && step.z == z)
  {
    EndsIs(s, step, now, w, z);
    hide TokensOwned, Enabled, Apply;
    if step.Claim? || step.ClaimNothing? || step.OutboxClaim? {
      EndsByClaim(s, step, now, w, z);
    } else if step.Store? || step.Write? || step.Heartbeat? || step.Release? || step.Crash? {
      EndsByWorker(s, step, now, w, z);
    } else {
      EndsFromOutside(s, step, now, w, z);
    }
  }

  // ---- whole runs -------------------------------------------------------------------------

  ghost predicate Initial(s: State) {
    s.claims == map[] && s.stored == map[] && forall z :: z in s.rows ==> !s.rows[z].mark.Lease?
  }

  /** Any interleaving of the workers' steps, at any times. */
  ghost predicate Run(states: seq<State>, steps: seq<Step>, times: seq<int>) {
    && |states| == |steps| + 1 && |times| == |steps|
    && Initial(states[0])
    && forall i :: 0 <= i < |steps| ==> Enabled(states[i], steps[i], times[i]) && states[i + 1] == Apply(states[i], steps[i], times[i])
  }

  lemma {:induction false} RunKeepsTokensOwned(states: seq<State>, steps: seq<Step>, times: seq<int>, i: nat)
    requires Run(states, steps, times) && i < |states|
    ensures TokensOwned(states[i])
  {
    hide TokensOwned, Enabled, Apply;
    if i == 0 {
      InitialOwned(states[0]);
    } else {
      RunKeepsTokensOwned(states, steps, times, i - 1);
      StepKeepsTokensOwned(states[i - 1], steps[i - 1], times[i - 1]);
    }
  }

  lemma InitialOwned(s: State)
    requires Initial(s)
    ensures TokensOwned(s)
  {}

  /** Fencing. In every run an accepted write is made by the one worker that holds the row's current token. If that
      worker was not holding the ZIP at some earlier point, then in between it claimed the ZIP again, or a virtual
      machine claimed a row that still carried its token. */
  lemma WritesAreFenced(states: seq<State>, steps: seq<Step>, times: seq<int>, i: nat, j: nat)
    requires Run(states, steps, times) && i <= j < |steps| && steps[j].Write?
    ensures HoldsZip(states[j], steps[j].w, steps[j].z)
    ensures forall w :: HoldsZip(states[j], w, steps[j].z) ==> w == steps[j].w
    ensures !HoldsZip(states[i], steps[j].w, steps[j].z) ==>
            exists k :: i <= k < j && (IsClaimOf(steps[k], steps[j].w, steps[j].z) || Rearms(states[k], steps[k], steps[j].w, steps[j].z))
  {
    var w, z := steps[j].w, steps[j].z;
    RunKeepsTokensOwned(states, steps, times, j);
    assert HoldsZip(states[j], w, z);
    OneHolder(states[j], z);
    hide HoldsZip, TokensOwned;
    if !HoldsZip(states[i], w, z) {
      GainedBetween(states, steps, times, i, j, w, z);
    }
  }

  lemma {:induction false} GainedBetween(states: seq<State>, steps: seq<Step>, times: seq<int>, i: nat, j: nat, w: Worker, z: Code)
    requires Run(states, steps, times) && i <= j < |states|
    requires !HoldsZip(states[i], w, z) && HoldsZip(states[j], w, z)
    ensures exists k :: i <= k < j && (IsClaimOf(steps[k], w, z) || Rearms(states[k], steps[k], w, z))
    decreases j - i
  {
    hide HoldsZip, TokensOwned, Enabled, Apply, IsClaimOf, Rearms;
    if HoldsZip(states[i + 1], w, z) {
      RunKeepsTokensOwned(states, steps, times, i);
      GainsIff(states[i], steps[i], times[i], w, z);
    } else {
      GainedBetween(states, steps, times, i + 1, j, w, z);
    }
  }

  // ---- what becomes of the rows ---------------------------------------------------------------

  /** Recovery resets exactly the rows in progress under a browser lease that is older than thirty minutes. */
  lemma RecoveryIs(s: State, w: Worker, now: int, z: Code)
    requires z in s.rows
    ensures var row, after := s.rows[z], Apply(s, ClaimNothing(w), now).rows;
            z in after && after[z] == if row.status == InProgress && row.mark.Lease? && row.updatedAt + 1800 < now
                                      then Row(Pending, Empty, now, row.lastScraped) else row
  {}

  /** A machine's recovery takes any row in progress that is as old, and leaves the mark. */
  lemma MachineRecoveryIs(s: State, now: int, z: Code)
    requires z in s.rows
    ensures var row, after := s.rows[z], Apply(s, VmRecover, now).rows;
            z in after && after[z] == if row.status == InProgress && row.updatedAt + 1800 < now then Row(Pending, row.mark, now, row.lastScraped) else row
  {}

  /** A release gives each held ZIP back: it carries no token and anybody may claim it. Other rows stay. */
  lemma ReleaseFrees(s: State, w: Worker, now: int, z: Code)
    requires z in s.rows
    ensures ClaimsOf(Apply(s, Release(w), now), w) == map[]
    ensures var after := Apply(s, Release(w), now);
            if HoldsZip(s, w, z) then
              !CarriesToken(after, z) && forall x, refresh, later :: Enabled(after, Claim(x, z, refresh), later)
            else z in after.rows && after.rows[z] == s.rows[z]
  {
    var after := Apply(s, Release(w), now);
    if HoldsZip(s, w, z) {
      forall x, refresh, later ensures Enabled(after, Claim(x, z, refresh), later) {
        assert Recovered(after.rows, later)[z].status == Pending;
      }
    }
  }

  /** A retry puts exactly the failed and quarantined ZIPs back: anybody may claim them. */
  lemma RetryFrees(s: State, now: int, z: Code)
    requires z in s.rows
    ensures var after := Apply(s, RetryFailed, now);
            if s.rows[z].status in {Error, Quarantined} then
              z in after.rows && after.rows[z] == Row(Pending, Empty, now, s.rows[z].lastScraped)
              && forall x, refresh, later :: Enabled(after, Claim(x, z, refresh), later)
            else z in after.rows && after.rows[z] == s.rows[z]
  {
    var after := Apply(s, RetryFailed, now);
    if s.rows[z].status in {Error, Quarantined} {
      forall x, refresh, later ensures Enabled(after, Claim(x, z, refresh), later) {
        assert Recovered(after.rows, later)[z].status == Pending;
      }
    }
  }

  /** A finished ZIP is closed: nobody claims it again before a refresh asks for scrapes as old as its own. */
  lemma DoneIsClosed(s: State, w: Worker, z: Code, at: int, now: int, refresh: Option<int>, later: int)
    requires Enabled(s, Write(w, z, Done, Empty, Some(at)), now)
    ensures var after := Apply(s, Write(w, z, Done, Empty, Some(at)), now);
            && after.rows == s.rows[z := Row(Done, Empty, now, Some(at))] && z !in ClaimsOf(after, w)
            && forall x :: Enabled(after, Claim(x, z, refresh), later) ==> refresh.Some? && at < refresh.value
  {}

  /** A parked ZIP keeps the time of its last scrape, and nobody claims it before it is put back. */
  lemma ParkedIsClosed(s: State, w: Worker, z: Code, status: Status, reason: string, now: int, refresh: Option<int>, later: int)
    requires (status == Error || status == Quarantined) && Enabled(s, Write(w, z, status, Text(reason), None), now)
    ensures var after := Apply(s, Write(w, z, status, Text(reason), None), now);
            && after.rows == s.rows[z := Row(status, Text(reason), now, s.rows[z].lastScraped)] && z !in ClaimsOf(after, w)
            && forall x :: !Enabled(after, Claim(x, z, refresh), later)
  {}

  /** A stored batch survives a crash with its claim: after the restart its worker takes the ZIP again under the same
      token and can write. */
  lemma StoredClaimSurvives(s: State, w: Worker, z: Code, stored: int, crashed: int, now: int)
    requires HoldsZip(s, w, z)
    ensures var t := ClaimsOf(s, w)[z];
            var kept := Apply(s, Store(w, z), stored);
            var restarted := Apply(kept, Crash(w), crashed);
            && ClaimsOf(restarted, w) == map[] && restarted.rows == s.rows
            && Enabled(restarted, OutboxClaim(w, z, Some(t)), now)
            && HoldsZip(Apply(restarted, OutboxClaim(w, z, Some(t)), now), w, z)
  {}

  // ---- how long a lease lasts -----------------------------------------------------------------

  /** A heartbeat of its holder, or a claim, stamps a lease with the present time. */
  predicate Stamps(s: State, step: Step, w: Worker, z: Code) {
    (step == Heartbeat(w) && z in ClaimsOf(s, w) && z in s.rows && s.rows[z].status == InProgress && s.rows[z].mark == Lease(ClaimsOf(s, w)[z]))
    || ((step.Claim? || step.OutboxClaim?) && step.w == w && step.z == z)
  }

  lemma StampsRow(s: State, step: Step, now: int, w: Worker, z: Code)
    requires Enabled(s, step, now) && Stamps(s, step, w, z)
    ensures HoldsZip(Apply(s, step, now), w, z) && Apply(s, step, now).rows[z].updatedAt == now
  {}

  /** No step moves a row's time back behind the present. */
  lemma TimeMovesOn(s: State, step: Step, now: int, z: Code, t: int)
    requires Enabled(s, step, now) && z in s.rows && s.rows[z].updatedAt >= t && now >= t
    ensures z in Apply(s, step, now).rows && Apply(s, step, now).rows[z].updatedAt >= t
  {}

  lemma {:induction false} StampStays(states: seq<State>, steps: seq<Step>, times: seq<int>, i: nat, j: nat, w: Worker, z: Code)
    requires Run(states, steps, times) && i < j <= |steps| && Stamps(states[i], steps[i], w, z)
    requires forall k :: i <= k < j ==> times[k] >= times[i]
    ensures z in states[j].rows && states[j].rows[z].updatedAt >= times[i]
    decreases j
  {
    hide Enabled, Apply, Stamps;
    if i + 1 == j {
      StampsRow(states[i], steps[i], times[i], w, z);
      assert HoldsZip(states[j], w, z);
    } else {
      StampStays(states, steps, times, i, j - 1, w, z);
      TimeMovesOn(states[j - 1], steps[j - 1], times[j - 1], z, times[i]);
    }
  }

  lemma RecoveryOutcome(s: State, step: Step, now: int, w: Worker, z: Code)
    requires TokensOwned(s) && Enabled(s, step, now) && HoldsZip(s, w, z) && !(step.Claim? && step.w == w && step.z == z)
    requires step.Claim? || step.ClaimNothing? || step.VmRecover?
    ensures HoldsZip(Apply(s, step, now), w, z) <==> now <= s.rows[z].updatedAt + 1800
  {
    assert Knows(s, w, z, ClaimsOf(s, w)[z]) && ClaimsOf(s, w)[z] < s.nextToken;
    hide TokensOwned, Knows, Claimable, Recovered, VmRecovered;
    RecoveredRow(s.rows, now, z);
    VmRecoveredRow(s.rows, now, z);
  }

  lemma VmRecoveredRow(rows: Rows, now: int, z: Code)
    requires z in rows && rows[z].status == InProgress
    ensures z in VmRecovered(rows, now) && (VmRecovered(rows, now)[z].status == InProgress <==> now <= rows[z].updatedAt + 1800)
    ensures now <= rows[z].updatedAt + 1800 ==> VmRecovered(rows, now)[z] == rows[z]
  {}

  /** A lease lasts: no worker and no machine recovers it within thirty minutes of a heartbeat or claim. */
  lemma FreshLeaseLasts(states: seq<State>, steps: seq<Step>, times: seq<int>, i: nat, j: nat, w: Worker, z: Code)
    requires Run(states, steps, times) && i < j < |steps| && Stamps(states[i], steps[i], w, z)
    requires forall k :: i <= k < j ==> times[k] >= times[i]
    requires HoldsZip(states[j], w, z) && (steps[j].Claim? || steps[j].ClaimNothing? || steps[j].VmRecover?)
    requires times[j] <= times[i] + 1800
    ensures HoldsZip(states[j + 1], w, z)
  {
    hide Enabled, Apply, Stamps, TokensOwned;
    StampStays(states, steps, times, i, j, w, z);
    RunKeepsTokensOwned(states, steps, times, j);
    ClaimStamps(states[j], steps[j], w, z);
    if Stamps(states[j], steps[j], w, z) {
      StampsRow(states[j], steps[j], times[j], w, z);
    } else {
      RecoveryOutcome(states[j], steps[j], times[j], w, z);
    }
  }

  lemma ClaimStamps(s: State, step: Step, w: Worker, z: Code)
    ensures step.Claim? && step.w == w && step.z == z ==> Stamps(s, step, w, z)
  {}

  /** A row that stays held and is not stamped again keeps its time. */
  lemma UnstampedRow(s: State, step: Step, now: int, w: Worker, z: Code)
    requires TokensOwned(s) && Enabled(s, step, now) && HoldsZip(s, w, z) && !Stamps(s, step, w, z)
    requires HoldsZip(Apply(s, step, now), w, z)
    ensures Apply(s, step, now).rows[z].updatedAt == s.rows[z].updatedAt
  {
    OneHolder(s, z);
    assert Knows(s, w, z, ClaimsOf(s, w)[z]) && ClaimsOf(s, w)[z] < s.nextToken;
    assert step.OutboxClaim? && step.token.Some? ==> Knows(s, step.w, step.z, step.token.value);
    assert step.Heartbeat? && step.w != w ==> !HoldsZip(s, step.w, z);
    hide TokensOwned, Knows, Claimable;
    RecoveredRow(s.rows, now, z);
    hide Recovered;
  }

  lemma {:induction false} LastStamp(states: seq<State>, steps: seq<Step>, times: seq<int>, i: nat, j: nat, w: Worker, z: Code)
    requires Run(states, steps, times) && i < j <= |steps| && Stamps(states[i], steps[i], w, z)
    requires forall k :: i < k < j ==> !Stamps(states[k], steps[k], w, z)
    requires forall k :: i < k <= j ==> HoldsZip(states[k], w, z)
    ensures z in states[j].rows && states[j].rows[z].updatedAt == times[i]
    decreases j
  {
    hide Enabled, Apply, Stamps, TokensOwned;
    if i + 1 == j {
      StampsRow(states[i], steps[i], times[i], w, z);
    } else {
      LastStamp(states, steps, times, i, j - 1, w, z);
      RunKeepsTokensOwned(states, steps, times, j - 1);
      assert Enabled(states[j - 1], steps[j - 1], times[j - 1]) && states[j] == Apply(states[j - 1], steps[j - 1], times[j - 1]);
      assert HoldsZip(states[j - 1], w, z) && HoldsZip(states[j], w, z);
      UnstampedRow(states[j - 1], steps[j - 1], times[j - 1], w, z);
    }
  }

  /** Exactly when a recovery ends a lease: thirty minutes after the last heartbeat or claim. A worker that keeps beating
      keeps its ZIP, and one that stopped loses it to whoever looks next. */
  lemma RecoveryEndsIff(states: seq<State>, steps: seq<Step>, times: seq<int>, i: nat, j: nat, w: Worker, z: Code)
    requires Run(states, steps, times) && i < j < |steps| && Stamps(states[i], steps[i], w, z)
    requires forall k :: i < k <= j ==> HoldsZip(states[k], w, z) && !Stamps(states[k], steps[k], w, z)
    requires steps[j].Claim? || steps[j].ClaimNothing? || steps[j].VmRecover?
    ensures !HoldsZip(states[j + 1], w, z) <==> times[j] > times[i] + 1800
  {
    LastStamp(states, steps, times, i, j, w, z);
    RunKeepsTokensOwned(states, steps, times, j);
    ClaimStamps(states[j], steps[j], w, z);
    hide Enabled, Apply, Stamps, TokensOwned, HoldsZip;
    RecoveryOutcome(states[j], steps[j], times[j], w, z);
  }

  predicate CarriesToken(s: State, z: Code) {
    z in s.rows && s.rows[z].mark.Lease?
  }

  predicate ClaimsZip(step: Step, z: Code) {
    (step.Claim? || step.OutboxClaim?) && step.z == z
  }

  /** Only a worker's claim of the ZIP puts a token on a row. */
  lemma TokenFromClaim(s: State, step: Step, now: int, z: Code)
    requires Enabled(s, step, now) && !CarriesToken(s, z) && CarriesToken(Apply(s, step, now), z)
    ensures ClaimsZip(step, z)
  {}

  lemma {:induction false} TokenFromClaimBetween(states: seq<State>, steps: seq<Step>, times: seq<int>, i: nat, j: nat, z: Code)
    requires Run(states, steps, times) && i <= j < |states| && !CarriesToken(states[i], z) && CarriesToken(states[j], z)
    ensures exists k :: i <= k < j && ClaimsZip(steps[k], z)
    decreases j - i
  {
    hide CarriesToken, ClaimsZip, Enabled, Apply;
    if CarriesToken(states[i + 1], z) {
      TokenFromClaim(states[i], steps[i], times[i], z);
    } else {
      TokenFromClaimBetween(states, steps, times, i + 1, j, z);
    }
  }

  /** An evicted holder can write nothing until it claims the ZIP again. */
  lemma EvictedCannotWrite(states: seq<State>, steps: seq<Step>, times: seq<int>, i: nat, j: nat, w: Worker, z: Code, now: int)
    requires Run(states, steps, times) && i <= j < |states| && !HoldsZip(states[i], w, z)
    requires forall k :: i <= k < j ==> !IsClaimOf(steps[k], w, z) && !Rearms(states[k], steps[k], w, z)
    ensures forall status, mark, scraped :: !Enabled(states[j], Write(w, z, status, mark, scraped), now)
  {
    hide IsClaimOf, Rearms;
    if HoldsZip(states[j], w, z) {
      GainedBetween(states, steps, times, i, j, w, z);
      assert false;
    }
  }

  // ---- the virtual machines' share -----------------------------------------------------------

  /** Only rows in progress carry a token. */
  ghost predicate NoStaleToken(s: State) {
    forall z :: z in s.rows && s.rows[z].mark.Lease? ==> s.rows[z].status == InProgress
  }

  /** A stale token comes from one step alone: a virtual machine's recovery of an expired browser lease. */
  lemma StaleTokenIff(s: State, step: Step, now: int)
    requires NoStaleToken(s) && Enabled(s, step, now)
    ensures NoStaleToken(Apply(s, step, now)) <==> !(step.VmRecover? && exists z :: z in s.rows && Expired(s.rows[z], now))
  {
    if step.VmRecover? && exists z :: z in s.rows && Expired(s.rows[z], now) {
      var z :| z in s.rows && Expired(s.rows[z], now);
      var rows := Apply(s, step, now).rows;
      assert z in rows && rows[z].mark.Lease? && rows[z].status != InProgress;
    }
  }

  /** Without a stale token no claim of a virtual machine makes a lapsed token match. */
  lemma NoStaleNoRearm(s: State, step: Step, now: int, w: Worker, z: Code)
    requires NoStaleToken(s) && Enabled(s, step, now)
    ensures !Rearms(s, step, w, z)
  {}

  ghost predicate RecoversLease(s: State, step: Step, now: int) {
    step.VmRecover? && exists z :: z in s.rows && Expired(s.rows[z], now)
  }

  /** As long as no virtual machine recovers an expired browser lease, virtual machines and browser workers share the
      table safely: a lapsed holder writes only after its own new claim. */
  lemma FencedBesideMachines(states: seq<State>, steps: seq<Step>, times: seq<int>, i: nat, j: nat)
    requires Run(states, steps, times) && i <= j < |steps| && steps[j].Write?
    requires forall k :: 0 <= k < j ==> !RecoversLease(states[k], steps[k], times[k])
    ensures !HoldsZip(states[i], steps[j].w, steps[j].z) ==> exists k :: i <= k < j && IsClaimOf(steps[k], steps[j].w, steps[j].z)
  {
    hide Enabled, Apply, IsClaimOf, Rearms, RecoversLease, HoldsZip;
    WritesAreFenced(states, steps, times, i, j);
    forall k | 0 <= k < j ensures !Rearms(states[k], steps[k], steps[j].w, steps[j].z) {
      NeverStale(states, steps, times, j, k);
      NoStaleNoRearm(states[k], steps[k], times[k], steps[j].w, steps[j].z);
    }
  }

  lemma {:induction false} NeverStale(states: seq<State>, steps: seq<Step>, times: seq<int>, j: nat, k: nat)
    requires Run(states, steps, times) && k <= j < |steps|
    requires forall m :: 0 <= m < j ==> !RecoversLease(states[m], steps[m], times[m])
    ensures NoStaleToken(states[k])
  {
    hide Enabled, Apply;
    if k > 0 {
      NeverStale(states, steps, times, j, k - 1);
      StaleTokenIff(states[k - 1], steps[k - 1], times[k - 1]);
      assert !RecoversLease(states[k - 1], steps[k - 1], times[k - 1]);
    }
  }

  /** One row and one worker's claim of it, under token zero. */
  function OneRow(status: Status, mark: Mark, updatedAt: int): State {
    State(map["z" := Row(status, mark, updatedAt, None)], if mark == Empty then map[] else map[1 := map["z" := 0]], map[],
          if mark == Empty then 0 else 1)
  }

  lemma ClaimOfPending()
    ensures var s := OneRow(Pending, Empty, 0);
            Enabled(s, Claim(1, "z", None), 0) && Apply(s, Claim(1, "z", None), 0) == OneRow(InProgress, Lease(0), 0)
  {
    var rows: Rows := map["z" := Row(Pending, Empty, 0, None)];
    assert Recovered(rows, 0) == rows;
  }

  lemma RecoveryOfLapsed()
    ensures var s := OneRow(InProgress, Lease(0), 0);
            Enabled(s, VmRecover, 2000) && Apply(s, VmRecover, 2000) == OneRow(Pending, Lease(0), 2000)
  {}

  lemma MachineClaim()
    ensures var s := OneRow(Pending, Lease(0), 2000);
            && Enabled(s, VmClaim("z", None), 2001) && Apply(s, VmClaim("z", None), 2001) == OneRow(InProgress, Lease(0), 2001)
            && !HoldsZip(s, 1, "z")
  {}

  /** Beside a machine that does, fencing fails: the worker's lease lapses, a machine recovers and claims the row, and the
      worker's token matches again although it claimed nothing. */
  lemma MachineRearmsLapsedLease() returns (states: seq<State>, steps: seq<Step>, times: seq<int>)
    ensures Run(states, steps, times) && |steps| == 4 && steps[3].Write?
    ensures !HoldsZip(states[2], steps[3].w, steps[3].z)
    ensures !IsClaimOf(steps[2], steps[3].w, steps[3].z)
  {
    var write := Write(1, "z", Done, Empty, None);
    var last := OneRow(InProgress, Lease(0), 2001);
    assert Initial(OneRow(Pending, Empty, 0)) && Enabled(last, write, 2002);
    ClaimOfPending();
    RecoveryOfLapsed();
    MachineClaim();
    hide Apply, Enabled, Initial, OneRow, HoldsZip;
    steps := [Claim(1, "z", None), VmRecover, VmClaim("z", None), write];
    times := [0, 2000, 2001, 2002];
    states := [OneRow(Pending, Empty, 0), OneRow(InProgress, Lease(0), 0), OneRow(Pending, Lease(0), 2000), last, Apply(last, write, 2002)];
  }
}
