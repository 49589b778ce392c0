/** What every sequential run of the XDR service keeps. */
module XdrTheorems {
  import opened Wrappers
  import opened XdrModel

  // ---------- Enrollment bindings ----------

  /** Enrollments are only added, and a binding is written at most once. */
  ghost predicate BindingsGrow(before: seq<Enrollment>, after: seq<Enrollment>) {
    && |before| <= |after|
    && forall i :: 0 <= i < |before| ==>
      && after[i].id == before[i].id && after[i].tokenHash == before[i].tokenHash
      && (before[i].claimed.Some? ==> after[i].claimed == before[i].claimed)
  }

  lemma {:induction false} BindUnboundGrows(rows: seq<Enrollment>, e: Enrollment, endpointId: string)
    requires EnrollmentsOk(rows) && e in rows && e.claimed.None?
    ensures BindingsGrow(rows, Bind(rows, e.id, endpointId)) && EnrollmentsOk(Bind(rows, e.id, endpointId))
    ensures BoundTo(Bind(rows, e.id, endpointId), e.tokenHash, endpointId)
  {
    var k :| 0 <= k < |rows| && rows[k] == e;
    var r := Bind(rows, e.id, endpointId);
    forall i | 0 <= i < |rows|
      ensures r[i] == if i == k then e.(claimed := Some(endpointId)) else rows[i]
    {
      assert r[i] == BindRow(rows[i], e.id, endpointId);
    }
  }

  lemma {:induction false} AuthorizeFacts(s: State, tokenHash: string, endpointId: string)
    requires EnrollmentsOk(s.enrollments)
    ensures var a := Authorize(s, tokenHash, endpointId);
      && BindingsGrow(s.enrollments, a.1.enrollments) && EnrollmentsOk(a.1.enrollments)
      && (a.0.Ok? ==> BoundTo(a.1.enrollments, tokenHash, endpointId))
      && a.1 == s.(enrollments := a.1.enrollments)
  {
    var e := FindToken(s.enrollments, tokenHash);
    if e.Some? {
      if e.value.claimed.None? {
        BindUnboundGrows(s.enrollments, e.value, endpointId);
      } else {
        var k :| 0 <= k < |s.enrollments| && s.enrollments[k] == e.value;
      }
    }
  }

  /** Once set, the endpoint of an enrollment never changes, whatever the request. */
  lemma {:induction false} BindingIsPermanent(s: State, op: Op)
    requires EnrollmentsOk(s.enrollments)
    ensures BindingsGrow(s.enrollments, Apply(s, op).enrollments) && EnrollmentsOk(Apply(s, op).enrollments)
  {
    match op {
      case CreateEnrollment(_, _) =>
      case Pair(tokenHash) =>
        var e := FindToken(s.enrollments, tokenHash);
        if e.Some? && e.value.claimed.None? {
          BindUnboundGrows(s.enrollments, e.value, e.value.id);
        }
      case EndpointEvent(tokenHash, endpointId) => AuthorizeFacts(s, tokenHash, endpointId);
      case CreateAction(_, _, _, _) =>
      case ClaimAction(tokenHash, endpointId, _) => AuthorizeFacts(s, tokenHash, endpointId);
      case CompleteAction(tokenHash, endpointId, _, _, _, _) => AuthorizeFacts(s, tokenHash, endpointId);
      case DeleteEndpoint(_) =>
      case Simulate(_) =>
    }
  }

  /** An endpoint is registered only behind the token check, or by the simulator. */
  lemma {:induction false} RegisteredBehindToken(s: State, op: Op, endpointId: string)
    requires endpointId !in s.endpoints && endpointId in Apply(s, op).endpoints
    ensures
      || (op.EndpointEvent? && op.endpointId == endpointId && Authorize(s, op.tokenHash, endpointId).0.Ok?)
      || (op.Simulate? && op.enabled && endpointId == DEMO_ENDPOINT)
  {
  }

  lemma {:induction false} BoundStays(before: seq<Enrollment>, after: seq<Enrollment>, tokenHash: string,
                                      endpointId: string)
    requires BindingsGrow(before, after) && BoundTo(before, tokenHash, endpointId)
    ensures BoundTo(after, tokenHash, endpointId)
  {
    var k :| 0 <= k < |before| && before[k].tokenHash == tokenHash && before[k].claimed == Some(endpointId);
    assert after[k].claimed == Some(endpointId);
  }

  // ---------- The action table ----------

  lemma {:induction false} DeletionKeepsRows(rows: seq<ActionRow>, endpointId: string)
    ensures forall r :: r in WithoutEndpoint(rows, endpointId) <==> r in rows && r.endpointId != endpointId
  {
    if rows != [] {
      var n := |rows| - 1;
      DeletionKeepsRows(rows[..n], endpointId);
      assert rows == rows[..n] + [rows[n]];
    }
  }

  lemma {:induction false} AppendKeepsTable(rows: seq<ActionRow>, nextRowId: nat, row: ActionRow)
    requires TableOk(rows, nextRowId) && RowOk(row) && row.rowId < nextRowId
    requires forall r :: r in rows ==> r.rowId < row.rowId && r.id != row.id
    ensures TableOk(rows + [row], nextRowId)
  {
  }

  lemma {:induction false} DeletionKeepsTable(rows: seq<ActionRow>, nextRowId: nat, endpointId: string)
    requires TableOk(rows, nextRowId)
    ensures TableOk(WithoutEndpoint(rows, endpointId), nextRowId)
  {
    if rows != [] {
      var n := |rows| - 1;
      DeletionKeepsTable(rows[..n], nextRowId, endpointId);
      DeletionKeepsRows(rows[..n], endpointId);
      assert forall r :: r in rows[..n] ==> r.rowId < rows[n].rowId && r.id != rows[n].id;
      if rows[n].endpointId != endpointId {
        AppendKeepsTable(WithoutEndpoint(rows[..n], endpointId), nextRowId, rows[n]);
      }
    }
  }

  /** Replacing a row by one with the same keys keeps the table. */
  lemma {:induction false} UpdateKeepsTable(rows: seq<ActionRow>, nextRowId: nat, k: nat, row: ActionRow)
    requires TableOk(rows, nextRowId) && k < |rows| && RowOk(row)
    requires row.rowId == rows[k].rowId && row.id == rows[k].id
    ensures TableOk(rows[k := row], nextRowId)
  {
  }

  lemma {:induction false} CreateKeepsTable(rows: seq<ActionRow>, nextRowId: nat, row: ActionRow)
    requires TableOk(rows, nextRowId) && RowOk(row) && row.rowId == nextRowId && FindAction(rows, row.id).None?
    ensures TableOk(rows + [row], nextRowId + 1)
  {
    assert TableOk(rows, nextRowId + 1);
    AppendKeepsTable(rows, nextRowId + 1, row);
  }

  lemma {:induction false} ClaimKeepsTable(s: State, tokenHash: string, endpointId: string, now: int)
    requires TableOk(s.actions, s.nextRowId)
    ensures TableOk(ClaimNext(s, tokenHash, endpointId, now).actions, s.nextRowId)
  {
    var k := NextWaiting(s.actions, endpointId);
    if k.Some? {
      UpdateKeepsTable(s.actions, s.nextRowId, k.value, ClaimRow(s.actions[k.value], now));
    }
  }

  lemma {:induction false} FinishKeepsTable(s: State, endpointId: string, actionId: string, succeeded: bool,
                                            result: string, now: int)
    requires TableOk(s.actions, s.nextRowId)
    ensures TableOk(Finished(s, endpointId, actionId, succeeded, result, now).actions, s.nextRowId)
  {
    var k := FindAction(s.actions, actionId);
    if k.Some? {
      UpdateKeepsTable(s.actions, s.nextRowId, k.value,
                       ResultRow(s.actions[k.value], if succeeded then Completed else Failed, result, now));
    }
  }

  /** Every row after a request is new, or continues a row with the same keys that is queued only if it was. */
  ghost predicate Continues(before: State, row: ActionRow) {
    || row.rowId == before.nextRowId
    || exists k :: 0 <= k < |before.actions| && Continued(before.actions[k], row)
  }

  ghost predicate Continued(was: ActionRow, row: ActionRow) {
    && row.rowId == was.rowId && row.id == was.id && row.endpointId == was.endpointId
    && row.createdAt == was.createdAt && (row.status == Queued ==> was.status == Queued)
  }

  lemma {:induction false} UpdateContinues(s: State, k: nat, row: ActionRow)
    requires k < |s.actions| && Continued(s.actions[k], row)
    ensures forall r :: r in s.actions[k := row] ==> Continues(s, r)
  {
    var rows := s.actions[k := row];
    forall r | r in rows
      ensures Continues(s, r)
    {
      var j :| 0 <= j < |rows| && rows[j] == r;
      assert Continued(s.actions[j], r);
    }
  }

  /** No action returns to the queue. */
  lemma {:induction false} NothingIsRequeued(s: State, op: Op)
    ensures forall r :: r in Apply(s, op).actions ==> Continues(s, r)
  {
    forall r | r in s.actions
      ensures Continues(s, r)
    {
      var k :| 0 <= k < |s.actions| && s.actions[k] == r;
      assert Continued(s.actions[k], r);
    }
    match op {
      case CreateEnrollment(_, _) =>
      case Pair(_) =>
      case EndpointEvent(_, _) =>
      case CreateAction(_, _, _, _) =>
      case ClaimAction(_, endpointId, now) =>
        var k := NextWaiting(s.actions, endpointId);
        if k.Some? {
          UpdateContinues(s, k.value, ClaimRow(s.actions[k.value], now));
        }
      case CompleteAction(_, _, actionId, succeeded, result, now) =>
        var k := FindAction(s.actions, actionId);
        if k.Some? {
          UpdateContinues(s, k.value,
                          ResultRow(s.actions[k.value], if succeeded then Completed else Failed, result, now));
        }
      case DeleteEndpoint(endpointId) =>
        DeletionKeepsRows(s.actions, endpointId);
      case Simulate(_) =>
        DeletionKeepsRows(s.actions, DEMO_ENDPOINT);
    }
  }

  // ---------- Claims ----------

  lemma {:induction false} RowsApart(rows: seq<ActionRow>, nextRowId: nat, i: nat, j: nat)
    requires TableOk(rows, nextRowId) && i < |rows| && j < |rows| && rows[i].rowId == rows[j].rowId
    ensures i == j
  {
  }

  /** A claim takes a queued row, which by the invariant was never claimed before. */
  lemma {:induction false} ClaimKeepsClaims(s: State, tokenHash: string, endpointId: string, now: int)
    requires TableOk(s.actions, s.nextRowId) && ClaimsOk(s)
    ensures ClaimsOk(ClaimNext(s, tokenHash, endpointId, now))
  {
    var k := NextWaiting(s.actions, endpointId);
    if k.Some? {
      var s', n := ClaimNext(s, tokenHash, endpointId, now), |s.claims|;
      var row := s.actions[k.value];
      forall i, j | 0 <= i <= n && 0 <= j < |s'.actions| && s'.actions[j].rowId == s'.claims[i].rowId
        ensures s'.actions[j].status != Queued && s'.actions[j].endpointId == s'.claims[i].endpointId
      {
        if i == n {
          RowsApart(s.actions, s.nextRowId, j, k.value);
        } else {
          assert s.actions[j].rowId == s.claims[i].rowId;
        }
      }
      forall i | 0 <= i < n
        ensures s.claims[i].rowId != row.rowId
      {
        assert s.actions[k.value].status == Queued;
      }
    }
  }

  /** Requests that keep old rows and queue none keep the claims. */
  lemma {:induction false} ContinuedKeepsClaims(s: State, s': State)
    requires TableOk(s.actions, s.nextRowId) && ClaimsOk(s)
    requires s'.claims == s.claims && s.nextRowId <= s'.nextRowId
    requires forall r :: r in s'.actions ==> Continues(s, r)
    ensures ClaimsOk(s')
  {
    forall i, j | 0 <= i < |s'.claims| && 0 <= j < |s'.actions| && s'.actions[j].rowId == s'.claims[i].rowId
      ensures s'.actions[j].status != Queued && s'.actions[j].endpointId == s'.claims[i].endpointId
    {
      assert s'.actions[j] in s'.actions && s.claims[i].rowId < s.nextRowId;
      var k :| 0 <= k < |s.actions| && Continued(s.actions[k], s'.actions[j]);
      assert s.actions[k].rowId == s.claims[i].rowId;
    }
  }

  lemma {:induction false} EnrollmentsDoNotMatter(s: State, rows: seq<Enrollment>)
    ensures ClaimsOk(s.(enrollments := rows)) <==> ClaimsOk(s)
  {
  }

  lemma {:induction false} ApplyKeepsTableAndClaims(s: State, op: Op)
    requires TableOk(s.actions, s.nextRowId) && ClaimsOk(s) && EnrollmentsOk(s.enrollments)
    ensures TableOk(Apply(s, op).actions, Apply(s, op).nextRowId) && ClaimsOk(Apply(s, op))
  {
    match op {
      case ClaimAction(tokenHash, endpointId, now) =>
        AuthorizeFacts(s, tokenHash, endpointId);
        var a := Authorize(s, tokenHash, endpointId).1;
        EnrollmentsDoNotMatter(s, a.enrollments);
        ClaimKeepsTable(a, tokenHash, endpointId, now);
        ClaimKeepsClaims(a, tokenHash, endpointId, now);
      case _ =>
        TableStays(s, op);
        NothingIsRequeued(s, op);
        ContinuedKeepsClaims(s, Apply(s, op));
    }
  }

  lemma {:induction false} CompletionKeepsTable(s: State, op: Op)
    requires TableOk(s.actions, s.nextRowId) && EnrollmentsOk(s.enrollments) && op.CompleteAction?
    ensures TableOk(Apply(s, op).actions, Apply(s, op).nextRowId)
    ensures Apply(s, op).claims == s.claims && s.nextRowId == Apply(s, op).nextRowId
  {
    AuthorizeFacts(s, op.tokenHash, op.endpointId);
    FinishKeepsTable(Authorize(s, op.tokenHash, op.endpointId).1, op.endpointId, op.actionId, op.succeeded, op.result,
                     op.now);
  }

  lemma {:induction false} CreationKeepsTable(s: State, op: Op)
    requires TableOk(s.actions, s.nextRowId) && op.CreateAction?
    ensures TableOk(Apply(s, op).actions, Apply(s, op).nextRowId)
    ensures Apply(s, op).claims == s.claims && s.nextRowId <= Apply(s, op).nextRowId
  {
    if FindAction(s.actions, op.actionId).None? {
      CreateKeepsTable(s.actions, s.nextRowId, NewAction(s.nextRowId, op.endpointId, op.actionId, op.kind, op.now));
    }
  }

  lemma {:induction false} TableStays(s: State, op: Op)
    requires TableOk(s.actions, s.nextRowId) && EnrollmentsOk(s.enrollments) && !op.ClaimAction?
    ensures TableOk(Apply(s, op).actions, Apply(s, op).nextRowId)
    ensures Apply(s, op).claims == s.claims && s.nextRowId <= Apply(s, op).nextRowId
  {
    match op {
      case CreateEnrollment(_, _) =>
      case Pair(_) =>
      case EndpointEvent(_, _) =>
      case CreateAction(_, _, _, _) => CreationKeepsTable(s, op);
      case CompleteAction(tokenHash, endpointId, actionId, succeeded, result, now) =>
        CompletionKeepsTable(s, op);
      case DeleteEndpoint(endpointId) => DeletionKeepsTable(s.actions, s.nextRowId, endpointId);
      case Simulate(_) => DeletionKeepsTable(s.actions, s.nextRowId, DEMO_ENDPOINT);
    }
  }

  /** Bindings are permanent, so every claim stays covered by the token it was made with. */
  lemma {:induction false} ApplyKeepsClaimsBound(s: State, op: Op)
    requires EnrollmentsOk(s.enrollments) && ClaimsBound(s)
    ensures ClaimsBound(Apply(s, op))
  {
    var s' := Apply(s, op);
    BindingIsPermanent(s, op);
    forall i | 0 <= i < |s'.claims|
      ensures BoundTo(s'.enrollments, s'.claims[i].tokenHash, s'.claims[i].endpointId)
    {
      if i < |s.claims| {
        BoundStays(s.enrollments, s'.enrollments, s.claims[i].tokenHash, s.claims[i].endpointId);
      } else {
        AuthorizeFacts(s, op.tokenHash, op.endpointId);
      }
    }
  }

  /** In every reachable state: no double claims, columns equal payloads, claims made with bound tokens. */
  lemma {:induction false} RunsAreSound(ops: seq<Op>)
    ensures Sound(Run(ops))
  {
    if ops != [] {
      var n := |ops| - 1;
      RunsAreSound(ops[..n]);
      ApplyKeepsTableAndClaims(Run(ops[..n]), ops[n]);
      ApplyKeepsClaimsBound(Run(ops[..n]), ops[n]);
      BindingIsPermanent(Run(ops[..n]), ops[n]);
    }
  }

  // ---------- Order of claims ----------

  /** Creation times never run backwards. */
  ghost predicate ClockOk(s: State, op: Op) {
    op.CreateAction? ==> forall r :: r in s.actions ==> r.createdAt <= op.now
  }

  ghost predicate Monotone(ops: seq<Op>) {
    ops != [] ==> Monotone(ops[..|ops| - 1]) && ClockOk(Run(ops[..|ops| - 1]), ops[|ops| - 1])
  }

  ghost predicate TimesOrdered(rows: seq<ActionRow>) {
    forall i, j :: 0 <= i < j < |rows| ==> rows[i].createdAt <= rows[j].createdAt
  }

  /** Claims of one endpoint follow creation, and whatever still waits was created after all of them. */
  ghost predicate InOrder(s: State) {
    && (forall i, j :: 0 <= i < j < |s.claims| && s.claims[i].endpointId == s.claims[j].endpointId ==>
          s.claims[i].rowId < s.claims[j].rowId)
    && (forall i, k :: 0 <= i < |s.claims| && 0 <= k < |s.actions| && Waiting(s.actions[k], s.claims[i].endpointId) ==>
          s.claims[i].rowId < s.actions[k].rowId)
  }

  ghost predicate FirstWaiting(rows: seq<ActionRow>, endpointId: string, i: int) {
    && 0 <= i < |rows| && Waiting(rows[i], endpointId)
    && forall h :: 0 <= h < i ==> !Waiting(rows[h], endpointId)
  }

  /** The action that waits longest carries a later creation time than another waiting action of its endpoint. */
  ghost predicate Overtaken(rows: seq<ActionRow>, endpointId: string) {
    exists i, j :: FirstWaiting(rows, endpointId, i) && i < j < |rows| && Waiting(rows[j], endpointId)
      && rows[j].createdAt < rows[i].createdAt
  }

  lemma {:induction false} FirstWaitingExists(rows: seq<ActionRow>, endpointId: string, j: nat) returns (i: nat)
    requires j < |rows| && Waiting(rows[j], endpointId)
    ensures i <= j && FirstWaiting(rows, endpointId, i)
  {
    if h :| 0 <= h < j && Waiting(rows[h], endpointId) {
      i := FirstWaitingExists(rows, endpointId, h);
    } else {
      i := j;
    }
  }

  /** Unless it is overtaken, the claimed row is the first that waits. */
  lemma {:induction false} NextIsFirst(rows: seq<ActionRow>, endpointId: string, j: nat)
    requires NextWaiting(rows, endpointId).Some? && !Overtaken(rows, endpointId)
    requires j < |rows| && Waiting(rows[j], endpointId)
    ensures NextWaiting(rows, endpointId).value <= j
  {
    var i := FirstWaitingExists(rows, endpointId, j);
    assert NextWaiting(rows, endpointId).value <= i;
  }

  lemma {:induction false} ClaimKeepsOrder(s: State, tokenHash: string, endpointId: string, now: int)
    requires TableOk(s.actions, s.nextRowId) && InOrder(s) && !Overtaken(s.actions, endpointId)
    ensures InOrder(ClaimNext(s, tokenHash, endpointId, now))
  {
    var k := NextWaiting(s.actions, endpointId);
    if k.Some? {
      var s', n := ClaimNext(s, tokenHash, endpointId, now), |s.claims|;
      forall i, j | 0 <= i <= n && 0 <= j < |s'.actions| && Waiting(s'.actions[j], s'.claims[i].endpointId)
        ensures s'.claims[i].rowId < s'.actions[j].rowId
      {
        assert j != k.value && Waiting(s.actions[j], s'.claims[i].endpointId);
        if i == n {
          NextIsFirst(s.actions, endpointId, j);
        }
      }
    }
  }

  lemma {:induction false} OvertakingBreaksOrder(s: State, tokenHash: string, endpointId: string, now: int)
    requires TableOk(s.actions, s.nextRowId) && Overtaken(s.actions, endpointId)
    ensures !InOrder(ClaimNext(s, tokenHash, endpointId, now))
  {
    var i, j :| FirstWaiting(s.actions, endpointId, i) && i < j < |s.actions| && Waiting(s.actions[j], endpointId)
      && s.actions[j].createdAt < s.actions[i].createdAt;
    var k := NextWaiting(s.actions, endpointId).value;
    var s' := ClaimNext(s, tokenHash, endpointId, now);
    assert i < k;
    assert Waiting(s'.actions[i], s'.claims[|s.claims|].endpointId);
  }

  lemma {:induction false} DeletionKeepsTimes(rows: seq<ActionRow>, endpointId: string)
    requires TimesOrdered(rows)
    ensures TimesOrdered(WithoutEndpoint(rows, endpointId))
  {
    if rows != [] {
      var n := |rows| - 1;
      DeletionKeepsTimes(rows[..n], endpointId);
      DeletionKeepsRows(rows[..n], endpointId);
      assert forall r :: r in rows[..n] ==> r.createdAt <= rows[n].createdAt;
      var front := WithoutEndpoint(rows[..n], endpointId);
      assert forall i :: 0 <= i < |front| ==> front[i] in front;
    }
  }

  lemma {:induction false} ContinuedKeepsOrder(s: State, s': State)
    requires ClaimsOk(s) && InOrder(s) && s'.claims == s.claims
    requires forall r :: r in s'.actions ==> Continues(s, r)
    ensures InOrder(s')
  {
    forall i, j | 0 <= i < |s'.claims| && 0 <= j < |s'.actions| && Waiting(s'.actions[j], s'.claims[i].endpointId)
      ensures s'.claims[i].rowId < s'.actions[j].rowId
    {
      assert s'.actions[j] in s'.actions && s.claims[i].rowId < s.nextRowId;
      if s'.actions[j].rowId != s.nextRowId {
        var k :| 0 <= k < |s.actions| && Continued(s.actions[k], s'.actions[j]);
        assert Waiting(s.actions[k], s.claims[i].endpointId);
      }
    }
  }

  lemma {:induction false} TimesStay(s: State, op: Op)
    requires TimesOrdered(s.actions) && EnrollmentsOk(s.enrollments) && ClockOk(s, op) && !op.ClaimAction?
    ensures TimesOrdered(Apply(s, op).actions)
  {
    match op {
      case CreateEnrollment(_, _) =>
      case Pair(_) =>
      case EndpointEvent(_, _) =>
      case CreateAction(_, _, _, _) =>
        assert forall i :: 0 <= i < |s.actions| ==> s.actions[i] in s.actions;
      case CompleteAction(_, _, _, _, _, _) =>
      case DeleteEndpoint(endpointId) => DeletionKeepsTimes(s.actions, endpointId);
      case Simulate(_) => DeletionKeepsTimes(s.actions, DEMO_ENDPOINT);
    }
  }

  /** The request claims an action while an older one of the endpoint has to wait on. */
  ghost predicate Overtakes(s: State, op: Op) {
    op.ClaimAction? && Authorize(s, op.tokenHash, op.endpointId).0.Ok? && Overtaken(s.actions, op.endpointId)
  }

  /** A request keeps the claim order exactly if it is no overtaking claim. */
  lemma {:induction false} ApplyKeepsOrder(s: State, op: Op)
    requires Sound(s) && InOrder(s)
    ensures InOrder(Apply(s, op)) <==> !Overtakes(s, op)
  {
    match op {
      case ClaimAction(tokenHash, endpointId, now) =>
        AuthorizeFacts(s, tokenHash, endpointId);
        var a := Authorize(s, tokenHash, endpointId).1;
        assert InOrder(a);
        if Overtaken(s.actions, endpointId) {
          OvertakingBreaksOrder(a, tokenHash, endpointId, now);
        } else {
          ClaimKeepsOrder(a, tokenHash, endpointId, now);
        }
      case _ =>
        TableStays(s, op);
        NothingIsRequeued(s, op);
        ContinuedKeepsOrder(s, Apply(s, op));
    }
  }

  /** The claim order holds after every prefix of the run. */
  ghost predicate AlwaysInOrder(ops: seq<Op>) {
    InOrder(Run(ops)) && (ops != [] ==> AlwaysInOrder(ops[..|ops| - 1]))
  }

  ghost predicate NeverOvertakes(ops: seq<Op>) {
    ops != [] ==> !Overtakes(Run(ops[..|ops| - 1]), ops[|ops| - 1]) && NeverOvertakes(ops[..|ops| - 1])
  }

  /** All along a run claims follow the order of creation, if and only if no claim of the run overtakes. */
  lemma {:induction false} InOrderAllAlong(ops: seq<Op>)
    ensures AlwaysInOrder(ops) <==> NeverOvertakes(ops)
  {
    if ops != [] {
      var n := |ops| - 1;
      InOrderAllAlong(ops[..n]);
      RunsAreSound(ops[..n]);
      if InOrder(Run(ops[..n])) {
        ApplyKeepsOrder(Run(ops[..n]), ops[n]);
      }
    }
  }

  lemma {:induction false} ClaimKeepsTimes(s: State, tokenHash: string, endpointId: string, now: int)
    requires TimesOrdered(s.actions)
    ensures TimesOrdered(ClaimNext(s, tokenHash, endpointId, now).actions)
  {
  }

  lemma {:induction false} ApplyKeepsTimes(s: State, op: Op)
    requires Sound(s) && TimesOrdered(s.actions) && ClockOk(s, op)
    ensures TimesOrdered(Apply(s, op).actions)
  {
    match op {
      case ClaimAction(tokenHash, endpointId, now) =>
        AuthorizeFacts(s, tokenHash, endpointId);
        ClaimKeepsTimes(Authorize(s, tokenHash, endpointId).1, tokenHash, endpointId, now);
      case _ => TimesStay(s, op);
    }
  }

  /** With a clock that never runs backwards, each endpoint claims its actions in creation order. */
  lemma {:induction false} RunsClaimInOrder(ops: seq<Op>)
    requires Monotone(ops)
    ensures TimesOrdered(Run(ops).actions) && NeverOvertakes(ops) && AlwaysInOrder(ops)
  {
    if ops != [] {
      var n := |ops| - 1;
      RunsClaimInOrder(ops[..n]);
      RunsAreSound(ops[..n]);
      ApplyKeepsTimes(Run(ops[..n]), ops[n]);
    }
    InOrderAllAlong(ops);
  }

  lemma {:induction false} RunStep(ops: seq<Op>, op: Op)
    ensures Run(ops + [op]) == Apply(Run(ops), op)
  {
    assert (ops + [op])[..|ops + [op]| - 1] == ops;
  }

  /** The state after an endpoint was enrolled and registered. */
  function Registered(actions: seq<ActionRow>): State {
    State([Enrollment("e", "t", Some("e"))], {"e"}, actions, |actions|, [])
  }

  lemma {:induction false} ReachRegistered() returns (ops: seq<Op>)
    ensures Run(ops) == Registered([])
  {
    var s := State([Enrollment("e", "t", None)], {}, [], 0, []);
    RunStep([], CreateEnrollment("e", "t"));
    ops := [] + [CreateEnrollment("e", "t")];
    assert Run(ops) == s;
    RunStep(ops, EndpointEvent("t", "e"));
    ops := ops + [EndpointEvent("t", "e")];
    assert FindToken(s.enrollments, "t") == Some(Enrollment("e", "t", None));
    assert Bind(s.enrollments, "e", "e") == [Enrollment("e", "t", Some("e"))];
  }

  lemma {:induction false} ReachQueued(ops0: seq<Op>, actions: seq<ActionRow>, id: string, now: int) returns (ops: seq<Op>)
    requires Run(ops0) == Registered(actions) && forall i :: 0 <= i < |actions| ==> actions[i].id != id
    ensures Run(ops) == Registered(actions + [NewAction(|actions|, "e", id, "k", now)])
  {
    assert FindAction(actions, id).None?;
    RunStep(ops0, CreateAction("e", id, "k", now));
    ops := ops0 + [CreateAction("e", id, "k", now)];
  }

  /** A run that registers an endpoint and queues two actions while the clock is set back. */
  lemma {:induction false} ReachSetBack() returns (ops: seq<Op>)
    ensures Run(ops) == Registered([NewAction(0, "e", "a", "k", 5), NewAction(1, "e", "b", "k", 3)])
  {
    var first, second := NewAction(0, "e", "a", "k", 5), NewAction(1, "e", "b", "k", 3);
    ops := ReachRegistered();
    ops := ReachQueued(ops, [], "a", 5);
    assert [] + [first] == [first];
    assert "a"[0] != "b"[0];
    ops := ReachQueued(ops, [first], "b", 3);
    assert [first] + [second] == [first, second];
  }

  /** When the clock is set back, a claim can overtake: the second of two queued actions goes first. */
  lemma {:induction false} SetBackClockOvertakes()
    ensures exists ops, op :: Overtakes(Run(ops), op) && !InOrder(Run(ops + [op]))
  {
    var ops := ReachSetBack();
    var s, op := Run(ops), ClaimAction("t", "e", 6);
    assert FindToken(s.enrollments, "t") == Some(Enrollment("e", "t", Some("e")));
    assert FirstWaiting(s.actions, "e", 0) && Waiting(s.actions[1], "e");
    assert Overtakes(s, op);
    RunsAreSound(ops);
    ApplyKeepsOrder(s, op);
    RunStep(ops, op);
  }
}
