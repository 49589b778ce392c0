/** The XDR store and its request handlers; each handler is one step of `Apply`. */
module XdrService {
  import opened Wrappers
  import opened XdrModel
  import opened XdrTheorems

  class XdrStore {
    var enrollments: seq<Enrollment>
    var endpoints: set<string>
    var actions: seq<ActionRow>
    var nextRowId: nat
    ghost var claims: seq<Claim>

    constructor ()
      ensures Contents() == EMPTY
    {
      enrollments, endpoints, actions, nextRowId, claims := [], {}, [], 0, [];
    }

    ghost function Contents(): State
      reads this
    {
      State(enrollments, endpoints, actions, nextRowId, claims)
    }

    method AddEnrollment(e: Enrollment) returns (ok: bool)
      modifies this`enrollments
      ensures ok <==> !EnrollmentTaken(old(enrollments), e.id, e.tokenHash)
      ensures enrollments == if ok then old(enrollments) + [e] else old(enrollments)
    {
      ok := !EnrollmentTaken(enrollments, e.id, e.tokenHash);
      if ok {
        enrollments := enrollments + [e];
      }
    }

    method GetEnrollmentByTokenHash(tokenHash: string) returns (e: Option<Enrollment>)
      ensures e == FindToken(enrollments, tokenHash)
    {
      e := FindToken(enrollments, tokenHash);
    }

    /** Overwrites whatever binding there is; on an unbound enrollment that is a lasting binding. */
    method ClaimEnrollmentEndpoint(id: string, endpointId: string)
      modifies this`enrollments
      ensures enrollments == Bind(old(enrollments), id, endpointId)
      ensures |enrollments| == |old(enrollments)|
      ensures forall i :: 0 <= i < |enrollments| ==>
        if old(enrollments)[i].id != id then enrollments[i] == old(enrollments)[i]
        else enrollments[i].claimed == Some(endpointId)
             && enrollments[i].id == id && enrollments[i].tokenHash == old(enrollments)[i].tokenHash
      ensures forall e :: e in old(enrollments) && e.id == id && e.claimed.None? && EnrollmentsOk(old(enrollments)) ==>
        BindingsGrow(old(enrollments), enrollments) && BoundTo(enrollments, e.tokenHash, endpointId)
    {
      forall e | e in enrollments && e.id == id && e.claimed.None? && EnrollmentsOk(enrollments)
        ensures BindingsGrow(enrollments, Bind(enrollments, id, endpointId))
        ensures BoundTo(Bind(enrollments, id, endpointId), e.tokenHash, endpointId)
      {
        BindUnboundGrows(enrollments, e, endpointId);
      }
      enrollments := Bind(enrollments, id, endpointId);
    }

    method AddAction(endpointId: string, id: string, kind: string, now: int) returns (ok: bool)
      modifies this`actions, this`nextRowId
      ensures ok <==> FindAction(old(actions), id).None?
      ensures if ok then actions == old(actions) + [NewAction(old(nextRowId), endpointId, id, kind, now)]
                         && nextRowId == old(nextRowId) + 1
              else actions == old(actions) && nextRowId == old(nextRowId)
    {
      ok := FindAction(actions, id).None?;
      if ok {
        actions := actions + [NewAction(nextRowId, endpointId, id, kind, now)];
        nextRowId := nextRowId + 1;
      }
    }

    /** Marks the oldest waiting action of the endpoint as claimed. */
    method ClaimNextAction(endpointId: string, now: int, ghost tokenHash: string) returns (r: Option<Action>)
      modifies this`actions, this`claims
      ensures Contents() == ClaimNext(old(Contents()), tokenHash, endpointId, now)
      ensures r.Some? <==> exists j :: 0 <= j < |old(actions)| && Waiting(old(actions)[j], endpointId)
      ensures r.Some? ==> r.value == ClaimRow(old(actions)[NextWaiting(old(actions), endpointId).value], now).payload
    {
      var k := NextWaiting(actions, endpointId);
      if k.None? {
        return None;
      }
      var row := actions[k.value];
      claims := claims + [Claim(endpointId, row.rowId, tokenHash)];
      actions := actions[k.value := ClaimRow(row, now)];
      r := Some(actions[k.value].payload);
    }

    /** Stores a result if the action belongs to the endpoint, whatever its status was. */
    method UpdateActionResult(endpointId: string, id: string, succeeded: bool, result: string, now: int)
        returns (r: Option<Action>)
      modifies this`actions
      ensures Contents() == Finished(old(Contents()), endpointId, id, succeeded, result, now)
      ensures r.Some? <==>
        (FindAction(old(actions), id).Some?
         && old(actions)[FindAction(old(actions), id).value].payload.endpointId == endpointId)
    {
      var k := FindAction(actions, id);
      if k.None? {
        return None;
      }
      var row := actions[k.value];
      if row.payload.endpointId != endpointId {
        return None;
      }
      actions := actions[k.value := ResultRow(row, if succeeded then Completed else Failed, result, now)];
      r := Some(actions[k.value].payload);
    }

    method RemoveEndpoint(endpointId: string)
      modifies this`endpoints, this`actions
      ensures endpoints == old(endpoints) - {endpointId}
      ensures actions == WithoutEndpoint(old(actions), endpointId)
    {
      actions := WithoutEndpoint(actions, endpointId);
      endpoints := endpoints - {endpointId};
    }
  }

  // ---------- Handlers ----------

  method HandleCreateEnrollment(store: XdrStore, id: string, tokenHash: string) returns (ok: bool)
    modifies store
    ensures store.Contents() == Apply(old(store.Contents()), CreateEnrollment(id, tokenHash))
    ensures ok <==> !EnrollmentTaken(old(store.enrollments), id, tokenHash)
  {
    ok := store.AddEnrollment(Enrollment(id, tokenHash, None));
  }

  /** The token check before every endpoint request. */
  method RequireEnrollmentToken(store: XdrStore, tokenHash: string, endpointId: string) returns (r: Response)
    modifies store`enrollments
    ensures (r, store.Contents()) == Authorize(old(store.Contents()), tokenHash, endpointId)
  {
    var e := store.GetEnrollmentByTokenHash(tokenHash);
    if e.None? {
      return Unauthorized;
    }
    if e.value.claimed.None? {
      store.ClaimEnrollmentEndpoint(e.value.id, endpointId);
      return Ok;
    }
    if e.value.claimed.value != endpointId {
      return Forbidden;
    }
    r := Ok;
  }

  /** Binds an unbound token to its own enrollment id and reports the bound endpoint. */
  method PairEnrollment(store: XdrStore, tokenHash: string) returns (r: Option<string>)
    modifies store
    ensures store.Contents() == Apply(old(store.Contents()), Pair(tokenHash))
    ensures var e := FindToken(old(store.enrollments), tokenHash);
      r == if e.None? then None else if e.value.claimed.Some? then e.value.claimed else Some(e.value.id)
  {
    var e := store.GetEnrollmentByTokenHash(tokenHash);
    if e.None? {
      return None;
    }
    var endpointId := if e.value.claimed.Some? then e.value.claimed.value else e.value.id;
    if e.value.claimed.None? {
      store.ClaimEnrollmentEndpoint(e.value.id, endpointId);
    }
    r := Some(endpointId);
  }

  method HandleEndpointEvent(store: XdrStore, tokenHash: string, endpointId: string) returns (r: Response)
    modifies store
    ensures store.Contents() == Apply(old(store.Contents()), EndpointEvent(tokenHash, endpointId))
    ensures r == Authorize(old(store.Contents()), tokenHash, endpointId).0
  {
    r := RequireEnrollmentToken(store, tokenHash, endpointId);
    if r.Ok? {
      store.endpoints := store.endpoints + {endpointId};
    }
  }

  method HandleCreateAction(store: XdrStore, endpointId: string, id: string, kind: string, now: int) returns (r: Response)
    modifies store
    ensures store.Contents() == Apply(old(store.Contents()), CreateAction(endpointId, id, kind, now))
    ensures r == if endpointId !in old(store.endpoints) then NotFound
                 else if FindAction(old(store.actions), id).Some? then Conflict else Ok
  {
    if endpointId !in store.endpoints {
      return NotFound;
    }
    var ok := store.AddAction(endpointId, id, kind, now);
    r := if ok then Ok else Conflict;
  }

  method HandleClaimAction(store: XdrStore, tokenHash: string, endpointId: string, now: int)
      returns (r: Response, action: Option<Action>)
    modifies store
    ensures store.Contents() == Apply(old(store.Contents()), ClaimAction(tokenHash, endpointId, now))
    ensures r == Authorize(old(store.Contents()), tokenHash, endpointId).0
    ensures var k := NextWaiting(old(store.actions), endpointId);
      action == if r.Ok? && k.Some? then Some(ClaimRow(old(store.actions)[k.value], now).payload) else None
  {
    action := None;
    r := RequireEnrollmentToken(store, tokenHash, endpointId);
    if r.Ok? {
      action := store.ClaimNextAction(endpointId, now, tokenHash);
    }
  }

  method HandleCompleteAction(store: XdrStore, tokenHash: string, endpointId: string, id: string, succeeded: bool,
                              result: string, now: int)
      returns (r: Response)
    modifies store
    ensures store.Contents() == Apply(old(store.Contents()),
                                      CompleteAction(tokenHash, endpointId, id, succeeded, result, now))
    ensures var a, k := Authorize(old(store.Contents()), tokenHash, endpointId).0, FindAction(old(store.actions), id);
      r == if !a.Ok? then a
           else if k.Some? && old(store.actions)[k.value].payload.endpointId == endpointId then Ok else NotFound
  {
    r := RequireEnrollmentToken(store, tokenHash, endpointId);
    if r.Ok? {
      var updated := store.UpdateActionResult(endpointId, id, succeeded, result, now);
      r := if updated.Some? then Ok else NotFound;
    }
  }

  method HandleDeleteEndpoint(store: XdrStore, endpointId: string) returns (r: Response)
    modifies store
    ensures store.Contents() == Apply(old(store.Contents()), DeleteEndpoint(endpointId))
    ensures r == if endpointId in old(store.endpoints) then Ok else NotFound
  {
    if endpointId !in store.endpoints {
      return NotFound;
    }
    store.RemoveEndpoint(endpointId);
    r := Ok;
  }

  method HandleSimulate(store: XdrStore, enabled: bool) returns (r: Response)
    modifies store
    ensures store.Contents() == Apply(old(store.Contents()), Simulate(enabled))
    ensures r == if enabled then Ok else NotFound
  {
    if !enabled {
      return NotFound;
    }
    store.RemoveEndpoint(DEMO_ENDPOINT);
    store.endpoints := store.endpoints + {DEMO_ENDPOINT};
    r := Ok;
  }
}
