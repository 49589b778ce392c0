/**
  The XDR service: enrollment tokens that bind to one endpoint, and the queue of
  actions that endpoints claim.  `Apply` is one request; requests are sequential.
  Token hashes and ids are opaque strings.  `rowId` is the auto-increment key of
  an action row, and `claims` the history of successful claims.
 */
module XdrModel {
  import opened Wrappers

  datatype Enrollment = Enrollment(id: string, tokenHash: string, claimed: Option<string>)

  datatype ActionStatus = Queued | Claimed | Completed | Failed

  datatype Action = Action(id: string, endpointId: string, kind: string, status: ActionStatus, createdAt: int,
                           claimedAt: Option<int>, completedAt: Option<int>, result: string)

  datatype ActionRow = ActionRow(rowId: nat, id: string, endpointId: string, status: ActionStatus, createdAt: int,
                                 payload: Action)

  datatype Claim = Claim(endpointId: string, rowId: nat, tokenHash: string)

  datatype State = State(enrollments: seq<Enrollment>, endpoints: set<string>, actions: seq<ActionRow>,
                         nextRowId: nat, claims: seq<Claim>)

  const EMPTY := State([], {}, [], 0, [])

  datatype Response = Ok | Unauthorized | Forbidden | NotFound | Conflict

  // ---------- Enrollments ----------

  function FindToken(rows: seq<Enrollment>, tokenHash: string): (r: Option<Enrollment>)
    ensures r.Some? ==> r.value in rows && r.value.tokenHash == tokenHash
    ensures r.None? ==> forall e :: e in rows ==> e.tokenHash != tokenHash
  {
    if rows == [] then None
    else if rows[0].tokenHash == tokenHash then Some(rows[0]) else FindToken(rows[1..], tokenHash)
  }

  predicate EnrollmentTaken(rows: seq<Enrollment>, id: string, tokenHash: string) {
    exists i :: 0 <= i < |rows| && (rows[i].id == id || rows[i].tokenHash == tokenHash)
  }

  /** The store's update overwrites the binding; its callers only use it on an unbound enrollment. */
  function Bind(rows: seq<Enrollment>, id: string, endpointId: string): (r: seq<Enrollment>)
    ensures |r| == |rows|
    ensures forall i :: 0 <= i < |rows| ==> r[i] == BindRow(rows[i], id, endpointId)
  {
    seq(|rows|, i requires 0 <= i < |rows| => BindRow(rows[i], id, endpointId))
  }

  function BindRow(e: Enrollment, id: string, endpointId: string): Enrollment {
    if e.id == id then e.(claimed := Some(endpointId)) else e
  }

  /** The token check: an unbound token binds to the endpoint, a bound one must match. */
  function Authorize(s: State, tokenHash: string, endpointId: string): (Response, State) {
    var e := FindToken(s.enrollments, tokenHash);
    if e.None? then (Unauthorized, s)
    else if e.value.claimed.None? then (Ok, s.(enrollments := Bind(s.enrollments, e.value.id, endpointId)))
    else if e.value.claimed.value != endpointId then (Forbidden, s)
    else (Ok, s)
  }

  // ---------- Actions ----------

  predicate Waiting(row: ActionRow, endpointId: string) {
    row.endpointId == endpointId && row.status == Queued
  }

  /** Index of the waiting row of the endpoint that is oldest by creation time, then by row. */
  function NextWaiting(rows: seq<ActionRow>, endpointId: string): (r: Option<nat>)
    ensures r.Some? ==> r.value < |rows| && Waiting(rows[r.value], endpointId)
    ensures r.Some? ==> forall j :: 0 <= j < |rows| && Waiting(rows[j], endpointId) ==>
      rows[r.value].createdAt < rows[j].createdAt || (rows[r.value].createdAt == rows[j].createdAt && r.value <= j)
    ensures r.None? ==> forall j :: 0 <= j < |rows| ==> !Waiting(rows[j], endpointId)
  {
    if rows == [] then None
    else
      var n := |rows| - 1;
      var best := NextWaiting(rows[..n], endpointId);
      assert forall j :: 0 <= j < n ==> rows[j] == rows[..n][j];
      if !Waiting(rows[n], endpointId) then best
      else if best.None? || rows[n].createdAt < rows[best.value].createdAt then Some(n) else best
  }

  function ClaimRow(row: ActionRow, now: int): ActionRow {
    row.(status := Claimed, payload := row.payload.(status := Claimed, claimedAt := Some(now)))
  }

  function ResultRow(row: ActionRow, status: ActionStatus, result: string, now: int): ActionRow {
    row.(status := status, payload := row.payload.(status := status, result := result, completedAt := Some(now)))
  }

  function FindAction(rows: seq<ActionRow>, id: string): (r: Option<nat>)
    ensures r.Some? ==> r.value < |rows| && rows[r.value].id == id
    ensures r.None? ==> forall j :: 0 <= j < |rows| ==> rows[j].id != id
  {
    if rows == [] then None
    else
      var n := |rows| - 1;
      assert forall j :: 0 <= j < n ==> rows[j] == rows[..n][j];
      if rows[n].id == id then Some(n) else FindAction(rows[..n], id)
  }

  function WithoutEndpoint(rows: seq<ActionRow>, endpointId: string): seq<ActionRow> {
    if rows == [] then []
    else
      var n := |rows| - 1;
      WithoutEndpoint(rows[..n], endpointId) + if rows[n].endpointId == endpointId then [] else [rows[n]]
  }

  // ---------- Requests ----------

  datatype Op =
    | CreateEnrollment(enrollmentId: string, tokenHash: string)
    | Pair(tokenHash: string)
    | EndpointEvent(tokenHash: string, endpointId: string)
    | CreateAction(endpointId: string, actionId: string, kind: string, now: int)
    | ClaimAction(tokenHash: string, endpointId: string, now: int)
    | CompleteAction(tokenHash: string, endpointId: string, actionId: string, succeeded: bool, result: string, now: int)
    | DeleteEndpoint(endpointId: string)
    | Simulate(enabled: bool)

  /** The simulator, where it is enabled, replaces this endpoint without a token. */
  const DEMO_ENDPOINT := "demo-endpoint-01"

  function NewAction(rowId: nat, endpointId: string, id: string, kind: string, now: int): ActionRow {
    ActionRow(rowId, id, endpointId, Queued, now, Action(id, endpointId, kind, Queued, now, None, None, ""))
  }

  function ClaimNext(s: State, tokenHash: string, endpointId: string, now: int): State {
    var k := NextWaiting(s.actions, endpointId);
    if k.None? then s
    else s.(actions := s.actions[k.value := ClaimRow(s.actions[k.value], now)],
            claims := s.claims + [Claim(endpointId, s.actions[k.value].rowId, tokenHash)])
  }

  function Finished(s: State, endpointId: string, actionId: string, succeeded: bool, result: string, now: int): State {
    var k := FindAction(s.actions, actionId);
    if k.None? || s.actions[k.value].payload.endpointId != endpointId then s
    else s.(actions := s.actions[k.value :=
              ResultRow(s.actions[k.value], if succeeded then Completed else Failed, result, now)])
  }

  function Apply(s: State, op: Op): State {
    match op
    case CreateEnrollment(id, tokenHash) =>
      if EnrollmentTaken(s.enrollments, id, tokenHash) then s
      else s.(enrollments := s.enrollments + [Enrollment(id, tokenHash, None)])
    case Pair(tokenHash) =>
      var e := FindToken(s.enrollments, tokenHash);
      if e.None? || e.value.claimed.Some? then s
      else s.(enrollments := Bind(s.enrollments, e.value.id, e.value.id))
    case EndpointEvent(tokenHash, endpointId) =>
      var a := Authorize(s, tokenHash, endpointId);
      if a.0.Ok? then a.1.(endpoints := a.1.endpoints + {endpointId}) else a.1
    case CreateAction(endpointId, actionId, kind, now) =>
      if endpointId !in s.endpoints || FindAction(s.actions, actionId).Some? then s
      else s.(actions := s.actions + [NewAction(s.nextRowId, endpointId, actionId, kind, now)],
              nextRowId := s.nextRowId + 1)
    case ClaimAction(tokenHash, endpointId, now) =>
      var a := Authorize(s, tokenHash, endpointId);
      if a.0.Ok? then ClaimNext(a.1, tokenHash, endpointId, now) else a.1
    case CompleteAction(tokenHash, endpointId, actionId, succeeded, result, now) =>
      var a := Authorize(s, tokenHash, endpointId);
      if a.0.Ok? then Finished(a.1, endpointId, actionId, succeeded, result, now) else a.1
    case DeleteEndpoint(endpointId) =>
      if endpointId !in s.endpoints then s
      else s.(endpoints := s.endpoints - {endpointId}, actions := WithoutEndpoint(s.actions, endpointId))
    case Simulate(enabled) =>
      if !enabled then s
      else s.(endpoints := s.endpoints + {DEMO_ENDPOINT}, actions := WithoutEndpoint(s.actions, DEMO_ENDPOINT))
  }

  ghost function Run(ops: seq<Op>): State {
    if ops == [] then EMPTY else Apply(Run(ops[..|ops| - 1]), ops[|ops| - 1])
  }

  // ---------- Invariants of every run ----------

  /** Columns equal payloads; rows are in row-id order; ids are unique. */
  ghost predicate TableOk(rows: seq<ActionRow>, nextRowId: nat) {
    && (forall i :: 0 <= i < |rows| ==> rows[i].rowId < nextRowId && RowOk(rows[i]))
    && (forall i, j :: 0 <= i < j < |rows| ==> rows[i].rowId < rows[j].rowId && rows[i].id != rows[j].id)
  }

  ghost predicate RowOk(row: ActionRow) {
    && row.payload.id == row.id && row.payload.endpointId == row.endpointId
    && row.payload.status == row.status && row.payload.createdAt == row.createdAt
  }

  /** No row is claimed twice, no claimed row is queued, and every claim names an older row. */
  ghost predicate ClaimsOk(s: State) {
    && (forall i, j :: 0 <= i < j < |s.claims| ==> s.claims[i].rowId != s.claims[j].rowId)
    && (forall i :: 0 <= i < |s.claims| ==> s.claims[i].rowId < s.nextRowId)
    && (forall i, k :: 0 <= i < |s.claims| && 0 <= k < |s.actions| && s.actions[k].rowId == s.claims[i].rowId ==>
          s.actions[k].status != Queued && s.actions[k].endpointId == s.claims[i].endpointId)
  }

  /** Every claim was made with a token that is bound to the claiming endpoint. */
  ghost predicate ClaimsBound(s: State) {
    forall i :: 0 <= i < |s.claims| ==> BoundTo(s.enrollments, s.claims[i].tokenHash, s.claims[i].endpointId)
  }

  ghost predicate BoundTo(rows: seq<Enrollment>, tokenHash: string, endpointId: string) {
    exists k :: 0 <= k < |rows| && rows[k].tokenHash == tokenHash && rows[k].claimed == Some(endpointId)
  }

  /** Enrollment ids and token hashes are unique. */
  ghost predicate EnrollmentsOk(rows: seq<Enrollment>) {
    forall i, j :: 0 <= i < j < |rows| ==> rows[i].id != rows[j].id && rows[i].tokenHash != rows[j].tokenHash
  }

  ghost predicate Sound(s: State) {
    TableOk(s.actions, s.nextRowId) && ClaimsOk(s) && ClaimsBound(s) && EnrollmentsOk(s.enrollments)
  }
}
