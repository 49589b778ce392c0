/**
  What each XDR request does to the tables, said row by row without the helper
  functions of the model.
 */
module XdrReference {
  import opened Wrappers
  import opened XdrModel
  import opened XdrTheorems

  // ---------- Enrollment tokens ----------

  /** Row k is the first with the token. */
  ghost predicate TokenRow(rows: seq<Enrollment>, tokenHash: string, k: int) {
    0 <= k < |rows| && rows[k].tokenHash == tokenHash && forall j :: 0 <= j < k ==> rows[j].tokenHash != tokenHash
  }

  lemma {:induction false} FindTokenMeaning(rows: seq<Enrollment>, tokenHash: string, k: nat)
    requires TokenRow(rows, tokenHash, k)
    ensures FindToken(rows, tokenHash) == Some(rows[k])
  {
    if k > 0 {
      FindTokenMeaning(rows[1..], tokenHash, k - 1);
    }
  }

  lemma {:induction false} BindMeaning(rows: seq<Enrollment>, endpointId: string, k: nat)
    requires EnrollmentsOk(rows) && k < |rows|
    ensures Bind(rows, rows[k].id, endpointId) == rows[k := rows[k].(claimed := Some(endpointId))]
  {
    var r := Bind(rows, rows[k].id, endpointId);
    forall i | 0 <= i < |rows|
      ensures r[i] == rows[k := rows[k].(claimed := Some(endpointId))][i]
    {
      assert r[i] == BindRow(rows[i], rows[k].id, endpointId);
    }
  }

  /** An unbound token binds to the endpoint, a bound one must name it. */
  lemma {:induction false} AuthorizeMeaning(s: State, tokenHash: string, endpointId: string, k: nat)
    requires EnrollmentsOk(s.enrollments) && TokenRow(s.enrollments, tokenHash, k)
    ensures Authorize(s, tokenHash, endpointId)
      == match s.enrollments[k].claimed
         case None =>
           (Ok, s.(enrollments := s.enrollments[k := s.enrollments[k].(claimed := Some(endpointId))]))
         case Some(bound) => (if bound == endpointId then Ok else Forbidden, s)
  {
    FindTokenMeaning(s.enrollments, tokenHash, k);
    BindMeaning(s.enrollments, endpointId, k);
  }

  lemma {:induction false} UnknownTokenMeaning(s: State, tokenHash: string, endpointId: string)
    requires forall k :: 0 <= k < |s.enrollments| ==> s.enrollments[k].tokenHash != tokenHash
    ensures Authorize(s, tokenHash, endpointId) == (Unauthorized, s)
  {
  }

  /** A request with an unknown token, or one bound elsewhere, changes nothing. */
  lemma {:induction false} RefusedChangesNothing(s: State, op: Op)
    requires op.EndpointEvent? || op.ClaimAction? || op.CompleteAction?
    requires EnrollmentsOk(s.enrollments)
    requires forall k :: TokenRow(s.enrollments, op.tokenHash, k) ==>
      s.enrollments[k].claimed.Some? && s.enrollments[k].claimed.value != op.endpointId
    ensures Apply(s, op) == s
  {
    if k :| 0 <= k < |s.enrollments| && s.enrollments[k].tokenHash == op.tokenHash {
      var m := FirstTokenRow(s.enrollments, op.tokenHash, k);
      AuthorizeMeaning(s, op.tokenHash, op.endpointId, m);
    } else {
      UnknownTokenMeaning(s, op.tokenHash, op.endpointId);
    }
  }

  lemma {:induction false} FirstTokenRow(rows: seq<Enrollment>, tokenHash: string, k: nat) returns (m: nat)
    requires k < |rows| && rows[k].tokenHash == tokenHash
    ensures TokenRow(rows, tokenHash, m)
  {
    if j :| 0 <= j < k && rows[j].tokenHash == tokenHash {
      m := FirstTokenRow(rows, tokenHash, j);
    } else {
      m := k;
    }
  }

  /** Pairing binds an unbound token to the id of its own row, and leaves a bound or unknown one alone. */
  lemma {:induction false} PairMeaning(s: State, tokenHash: string, k: nat)
    requires EnrollmentsOk(s.enrollments) && TokenRow(s.enrollments, tokenHash, k)
    ensures var row := s.enrollments[k];
      Apply(s, Pair(tokenHash))
      == if row.claimed.Some? then s else s.(enrollments := s.enrollments[k := row.(claimed := Some(row.id))])
  {
    FindTokenMeaning(s.enrollments, tokenHash, k);
    BindMeaning(s.enrollments, s.enrollments[k].id, k);
  }

  /** A new enrollment is unbound, and refused if its id or token is taken. */
  lemma {:induction false} EnrollMeaning(s: State, id: string, tokenHash: string)
    ensures Apply(s, CreateEnrollment(id, tokenHash))
      == if forall k :: 0 <= k < |s.enrollments| ==> s.enrollments[k].id != id && s.enrollments[k].tokenHash != tokenHash
         then s.(enrollments := s.enrollments + [Enrollment(id, tokenHash, None)]) else s
  {
  }

  // ---------- Actions ----------

  ghost predicate QueuedFor(s: State, endpointId: string, k: int) {
    0 <= k < |s.actions| && s.actions[k].endpointId == endpointId && s.actions[k].status == Queued
  }

  /** Row k is the queued one of the endpoint that was created first, and of those the first row. */
  ghost predicate OldestQueued(s: State, endpointId: string, k: int) {
    && QueuedFor(s, endpointId, k)
    && forall j :: QueuedFor(s, endpointId, j) ==>
         s.actions[k].createdAt < s.actions[j].createdAt || (s.actions[k].createdAt == s.actions[j].createdAt && k <= j)
  }

  /** A claim marks that row, in column and payload, and nothing else; it is recorded with its token. */
  lemma {:induction false} ClaimMeaning(s: State, tokenHash: string, endpointId: string, now: int, k: nat)
    requires OldestQueued(s, endpointId, k)
    ensures var row := s.actions[k];
      ClaimNext(s, tokenHash, endpointId, now)
      == s.(actions := s.actions[k := row.(status := Claimed,
                                           payload := row.payload.(status := Claimed, claimedAt := Some(now)))],
            claims := s.claims + [Claim(endpointId, row.rowId, tokenHash)])
  {
    var next := NextWaiting(s.actions, endpointId);
    assert Waiting(s.actions[k], endpointId);
    assert QueuedFor(s, endpointId, next.value);
  }

  lemma {:induction false} NothingToClaim(s: State, tokenHash: string, endpointId: string, now: int)
    requires forall k :: !QueuedFor(s, endpointId, k)
    ensures ClaimNext(s, tokenHash, endpointId, now) == s
  {
    if NextWaiting(s.actions, endpointId).Some? {
      assert QueuedFor(s, endpointId, NextWaiting(s.actions, endpointId).value);
    }
  }

  /** A result sets status, result and completion time of the endpoint's own action, whatever its status was. */
  lemma {:induction false} FinishMeaning(s: State, endpointId: string, id: string, succeeded: bool, result: string,
                                         now: int, k: nat)
    requires TableOk(s.actions, s.nextRowId) && k < |s.actions| && s.actions[k].id == id
    ensures var row, status := s.actions[k], if succeeded then Completed else Failed;
      Finished(s, endpointId, id, succeeded, result, now)
      == if row.endpointId != endpointId then s
         else s.(actions := s.actions[k := row.(status := status,
                                                payload := row.payload.(status := status, result := result,
                                                                        completedAt := Some(now)))])
  {
    assert FindAction(s.actions, id).Some?;
    assert FindAction(s.actions, id).value == k;
  }

  lemma {:induction false} UnknownActionMeaning(s: State, endpointId: string, id: string, succeeded: bool, result: string,
                                                now: int)
    requires forall k :: 0 <= k < |s.actions| ==> s.actions[k].id != id
    ensures Finished(s, endpointId, id, succeeded, result, now) == s
  {
  }

  /** The requests of an endpoint whose token passes: register it, claim for it, or store its result. */
  lemma {:induction false} PassedMeaning(s: State, op: Op)
    requires op.EndpointEvent? || op.ClaimAction? || op.CompleteAction?
    requires Authorize(s, op.tokenHash, op.endpointId).0.Ok?
    ensures var a := Authorize(s, op.tokenHash, op.endpointId).1;
      Apply(s, op)
      == match op
         case EndpointEvent(_, endpointId) => a.(endpoints := a.endpoints + {endpointId})
         case ClaimAction(tokenHash, endpointId, now) => ClaimNext(a, tokenHash, endpointId, now)
         case CompleteAction(_, endpointId, id, succeeded, result, now) =>
           Finished(a, endpointId, id, succeeded, result, now)
         case _ => s
  {
  }

  /** A new action is queued under the next row id, for a registered endpoint and with an id that is free. */
  lemma {:induction false} CreateMeaning(s: State, endpointId: string, id: string, kind: string, now: int)
    ensures Apply(s, CreateAction(endpointId, id, kind, now))
      == if endpointId in s.endpoints && forall k :: 0 <= k < |s.actions| ==> s.actions[k].id != id
         then s.(actions := s.actions + [ActionRow(s.nextRowId, id, endpointId, Queued, now,
                                                   Action(id, endpointId, kind, Queued, now, None, None, ""))],
                 nextRowId := s.nextRowId + 1)
         else s
  {
  }

  /** Deleting removes the endpoint and exactly its actions; the others keep their order. */
  lemma {:induction false} DeleteMeaning(s: State, endpointId: string)
    requires TableOk(s.actions, s.nextRowId)
    ensures var after := Apply(s, DeleteEndpoint(endpointId));
      if endpointId !in s.endpoints then after == s
      else
        && after == s.(endpoints := s.endpoints - {endpointId}, actions := after.actions)
        && (forall row :: row in after.actions <==> row in s.actions && row.endpointId != endpointId)
        && forall i, j :: 0 <= i < j < |after.actions| ==> after.actions[i].rowId < after.actions[j].rowId
  {
    DeletionKeepsRows(s.actions, endpointId);
    DeletionKeepsTable(s.actions, s.nextRowId, endpointId);
  }

  /** The simulator, where enabled, does the same for its own endpoint and registers that again. */
  lemma {:induction false} SimulateMeaning(s: State, enabled: bool)
    requires TableOk(s.actions, s.nextRowId)
    ensures var after := Apply(s, Simulate(enabled));
      if !enabled then after == s
      else
        && after == s.(endpoints := s.endpoints + {"demo-endpoint-01"}, actions := after.actions)
        && (forall row :: row in after.actions <==> row in s.actions && row.endpointId != "demo-endpoint-01")
        && forall i, j :: 0 <= i < j < |after.actions| ==> after.actions[i].rowId < after.actions[j].rowId
  {
    DeletionKeepsRows(s.actions, DEMO_ENDPOINT);
    DeletionKeepsTable(s.actions, s.nextRowId, DEMO_ENDPOINT);
  }
}
