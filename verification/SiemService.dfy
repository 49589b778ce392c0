/**
  The SIEM store and the service methods that change it.  The enrichers are the
  loops of the service; each is proved equal to its declarative meaning in
  `SiemModel`, and every endpoint to one step of the state machine `Apply`.
 */
module SiemService {
  import opened Wrappers
  import opened SiemModel
  import opened SiemIncidents
  import opened SiemTheorems

  class SiemStore {
    var events: seq<EventRow>
    var incidents: seq<IncidentRow>

    constructor ()
      ensures Contents() == NO_ROWS
    {
      events, incidents := [], [];
    }

    ghost function Contents(): State
      reads this
    {
      State(events, incidents)
    }

    /** Inserts a row unless its id is taken. */
    method AddEvent(e: Event) returns (ok: bool)
      modifies this`events
      ensures ok <==> forall k :: 0 <= k < |old(events)| ==> old(events)[k].id != e.id
      ensures events
        == if ok then old(events) + [EventRow(e.id, e.eventType, e.severity, e.occurredAt, e)] else old(events)
    {
      ok := !HasEvent(events, e.id);
      if ok {
        events := events + [RowOf(e)];
      }
    }

    method ListEvents(limit: Option<nat>, eventType: Option<EventType>) returns (r: seq<Event>)
      ensures r == Newest(events, eventType, if limit.Some? then limit.value else |events|)
      ensures IsListing(events, eventType, if limit.Some? then limit.value else |events|, r)
      ensures limit.None? ==> |r| == |RowsOfType(events, eventType)|
    {
      ghost var at := NewestLists(events, eventType, if limit.Some? then limit.value else |events|);
      AtMostAllRows(events, eventType);
      r := Newest(events, eventType, if limit.Some? then limit.value else |events|);
    }

    method ListRecentEvents(eventType: EventType, limit: nat) returns (r: seq<Event>)
      ensures r == Recent(events, eventType, limit)
      ensures multiset(r) == multiset(Newest(events, Some(eventType), limit))
    {
      var listed := ListEvents(Some(limit), Some(eventType));
      SortRecentSorted(listed);
      r := SortRecent(listed);
    }

    /** Inserts a row unless its id is taken. */
    method AddIncident(p: Incident) returns (ok: bool)
      modifies this`incidents
      ensures ok <==> !HasIncident(old(incidents), p.id)
      ensures incidents == if ok then old(incidents) + [IncidentRowOf(p)] else old(incidents)
    {
      ok := !HasIncident(incidents, p.id);
      if ok {
        incidents := incidents + [IncidentRowOf(p)];
      }
    }

    method ListIncidents(status: Option<Status>, severity: Option<string>) returns (r: seq<Incident>)
      ensures r == ListByColumns(incidents, status, severity)
      ensures Consistent(incidents) ==> r == FilterPayloads(NewestFirst(incidents), status, severity)
    {
      r := ListByColumns(incidents, status, severity);
      if Consistent(incidents) {
        ColumnsFilterPayloads(incidents, status, severity);
      }
    }

    method UpdateIncident(p: Incident)
      modifies this`incidents
      ensures incidents == UpdateRows(old(incidents), p)
      ensures |incidents| == |old(incidents)|
      ensures forall i :: 0 <= i < |incidents| ==>
        if old(incidents)[i].id != p.id then incidents[i] == old(incidents)[i]
        else incidents[i].payload == p && incidents[i].severity == p.severity && incidents[i].status == p.status
             && incidents[i].id == old(incidents)[i].id && incidents[i].ruleId == old(incidents)[i].ruleId
    {
      incidents := UpdateRows(incidents, p);
      assert forall i :: 0 <= i < |incidents| ==> incidents[i] == UpdateRow(old(incidents)[i], p);
    }

    method Clear()
      modifies this
      ensures Contents() == NO_ROWS
    {
      events, incidents := [], [];
    }
  }

  // ---------- The early-exit loop of the counting enrichers ----------

  /** Sum and ids of the shortest prefix of `found` that lifts `base` to `min`, or of all of it. */
  ghost predicate Counted(found: seq<Event>, base: nat, min: nat, total: nat, ids: seq<string>) {
    var used := found[..Shortest(Weights(found), min - base)];
    total == base + Sum(Weights(used)) && ids == NamedIds(used)
  }

  /** Adds up the weights of matching events until `min` is reached. */
  method CountUntil(listed: seq<Event>, pred: Event -> bool, base: nat, min: nat)
      returns (total: nat, ids: seq<string>)
    requires base < min
    ensures Counted(Matching(listed, pred), base, min, total, ids)
  {
    total, ids := base, [];
    ghost var used: seq<Event> := [];
    for i := 0 to |listed|
      invariant used == Matching(listed[..i], pred)
      invariant total == base + Sum(Weights(used))
      invariant total < min
      invariant ids == NamedIds(used)
    {
      var p := listed[i];
      MatchingStep(listed, pred, i);
      if pred(p) {
        AddWeight(used, p);
        total := total + Weight(p);
        ids := ids + OwnId(p);
        if total >= min {
          StopIsShortest(listed, pred, i + 1, used, base, min);
          return;
        }
        used := used + [p];
      }
    }
    Prefixes(listed, |listed|);
    AllIsShortest(used, min - base);
  }

  lemma {:induction false} MatchingStep(listed: seq<Event>, pred: Event -> bool, i: nat)
    requires i < |listed|
    ensures Matching(listed[..i + 1], pred)
      == if pred(listed[i]) then Matching(listed[..i], pred) + [listed[i]] else Matching(listed[..i], pred)
  {
    assert listed[..i + 1][..i] == listed[..i];
  }

  lemma {:induction false} AddWeight(used: seq<Event>, p: Event)
    ensures Sum(Weights(used + [p])) == Sum(Weights(used)) + Weight(p)
    ensures NamedIds(used + [p]) == NamedIds(used) + OwnId(p)
  {
    assert Weights(used + [p]) == Weights(used) + [Weight(p)];
    SumAppend(Weights(used), Weight(p));
    assert (used + [p])[..|used|] == used;
  }

  /** A prefix that reaches the need while its front does not is the shortest. */
  lemma {:induction false} ShortestIs(ws: seq<nat>, need: int, k: nat)
    requires 0 < k <= |ws| && Sum(ws[..k - 1]) < need <= Sum(ws[..k])
    ensures Shortest(ws, need) == k
  {
    assert need > 0;
    assert ws[..k][1..] == ws[1..][..k - 1];
    if k > 1 {
      assert ws[..k - 1][1..] == ws[1..][..k - 2];
      ShortestIs(ws[1..], need - ws[0], k - 1);
    } else {
      assert ws[..1][1..] == [];
    }
  }

  lemma {:induction false} StopIsShortest(listed: seq<Event>, pred: Event -> bool, i: nat, before: seq<Event>,
                                          base: nat, min: nat)
    requires 0 < i <= |listed| && pred(listed[i - 1]) && before == Matching(listed[..i - 1], pred)
    requires base + Sum(Weights(before)) < min <= base + Sum(Weights(before)) + Weight(listed[i - 1])
    ensures Counted(Matching(listed, pred), base, min, base + Sum(Weights(before)) + Weight(listed[i - 1]),
                    NamedIds(before) + OwnId(listed[i - 1]))
  {
    var found, k := Matching(listed, pred), |before| + 1;
    assert listed == listed[..i] + listed[i..];
    MatchingParts(listed[..i], listed[i..], pred);
    MatchingStep(listed, pred, i - 1);
    AddWeight(before, listed[i - 1]);
    assert found[..k] == before + [listed[i - 1]] && found[..k - 1] == before;
    PrefixWeights(found, k);
    PrefixWeights(found, k - 1);
    ShortestIs(Weights(found), min - base, k);
  }

  lemma {:induction false} AllIsShortest(found: seq<Event>, need: int)
    requires Sum(Weights(found)) < need
    ensures found[..Shortest(Weights(found), need)] == found
  {
    NotReached(Weights(found), need);
  }

  lemma {:induction false} NotReached(ws: seq<nat>, need: int)
    requires Sum(ws) < need
    ensures Shortest(ws, need) == |ws|
  {
    if ws != [] {
      NotReached(ws[1..], need - ws[0]);
    }
  }

  // ---------- Enrichers ----------

  method EnrichFailedLoginBurst(store: SiemStore, e: Event) returns (r: Event)
    ensures r == EnrichLogin(store.events, e)
  {
    if e.eventType != AuthFailedLogin {
      return e;
    }
    var current := Weight(e);
    if current >= LOGIN_MIN {
      return MarkBruteForce(e, current, []);
    }
    var listed := store.ListEvents(Some(LOGIN_LIMIT), Some(AuthFailedLogin));
    var total, ids := CountUntil(listed, (p: Event) => LoginMatch(e, p), current, LOGIN_MIN);
    assert EarlierLogins(store.events, e) == Matching(listed, (p: Event) => LoginMatch(e, p));
    LoginOutcome(store.events, e, total, ids);
    if total < LOGIN_MIN {
      return e;
    }
    r := MarkBruteForce(e, total, ids);
  }

  lemma {:induction false} CutReaches(found: seq<Event>, need: int)
    ensures Sum(Weights(found[..Shortest(Weights(found), need)])) >= need <==> Sum(Weights(found)) >= need
  {
    ShortestReaches(Weights(found), need);
    PrefixWeights(found, Shortest(Weights(found), need));
  }

  lemma {:induction false} LoginOutcome(rows: seq<EventRow>, e: Event, total: nat, ids: seq<string>)
    requires e.eventType == AuthFailedLogin && Weight(e) < LOGIN_MIN
    requires Counted(EarlierLogins(rows, e), Weight(e), LOGIN_MIN, total, ids)
    ensures EnrichLogin(rows, e) == if total < LOGIN_MIN then e else MarkBruteForce(e, total, ids)
  {
    CutReaches(EarlierLogins(rows, e), LOGIN_MIN - Weight(e));
  }

  /** Whether a recent scan of the same flow and kind is stored. */
  method HasRecentScan(store: SiemStore, k: ScanKind, e: Event) returns (b: bool)
    ensures b == ScanSuppressed(k, store.events, e)
  {
    var recent := store.ListRecentEvents(NetworkScan, SUPPRESSION_LIMIT);
    ghost var newest := Newest(store.events, Some(NetworkScan), SUPPRESSION_LIMIT);
    b := false;
    for i := 0 to |recent|
      invariant forall j :: 0 <= j < i ==>
        !(Within(recent[j], e.occurredAt - SCAN_WINDOW, e.occurredAt) && ScanRow(k, e, recent[j]))
    {
      if Within(recent[i], e.occurredAt - SCAN_WINDOW, e.occurredAt) && ScanRow(k, e, recent[i]) {
        assert recent[i] in multiset(newest);
        return true;
      }
    }
    forall j | 0 <= j < |newest|
      ensures !(Within(newest[j], e.occurredAt - SCAN_WINDOW, e.occurredAt) && ScanRow(k, e, newest[j]))
    {
      assert newest[j] in multiset(recent);
    }
  }

  /** Distinct ports of the event and the matching events, and the ids of the latter. */
  method CollectPorts(listed: seq<Event>, pred: Event -> bool, e: Event) returns (ports: set<int>, ids: seq<string>)
    requires e.attributes.destinationPort.Some?
    requires forall p :: pred(p) ==> p.attributes.destinationPort.Some?
    ensures ports == Ports(e, Matching(listed, pred)) && ids == NamedIds(Matching(listed, pred))
  {
    ports, ids := {e.attributes.destinationPort.value}, [];
    ghost var found: seq<Event> := [];
    Prefixes(listed, 0);
    for i := 0 to |listed|
      invariant found == Matching(listed[..i], pred)
      invariant ports == Ports(e, found)
      invariant ids == NamedIds(found)
    {
      var p := listed[i];
      MatchingStep(listed, pred, i);
      if pred(p) {
        AddPort(e, found, p);
        found := found + [p];
        ports := ports + {p.attributes.destinationPort.value};
        ids := ids + OwnId(p);
      }
    }
    Prefixes(listed, |listed|);
  }

  lemma {:induction false} AddPort(e: Event, found: seq<Event>, p: Event)
    requires e.attributes.destinationPort.Some? && p.attributes.destinationPort.Some?
    ensures Ports(e, found + [p]) == Ports(e, found) + {p.attributes.destinationPort.value}
    ensures NamedIds(found + [p]) == NamedIds(found) + OwnId(p)
  {
    assert (found + [p])[..|found|] == found;
    assert forall q :: q in found + [p] <==> q in found || q == p;
  }

  method EnrichPortScan(store: SiemStore, k: ScanKind, e: Event) returns (r: Event)
    ensures r == EnrichScan(k, store.events, e)
  {
    if !ScanEligible(k, e) {
      return e;
    }
    var suppressed := HasRecentScan(store, k, e);
    if suppressed {
      return e;
    }
    var listed := store.ListRecentEvents(ScanType(k), SCAN_LIMIT);
    var ports, ids := CollectPorts(listed, (p: Event) => ScanMatch(k, e, p), e);
    assert ScanEvidence(k, store.events, e) == Matching(listed, (p: Event) => ScanMatch(k, e, p));
    if |ports| < SCAN_MIN_PORTS {
      return e;
    }
    r := MarkScan(k, e, ports, OwnId(e) + ids);
  }

  /** Whether an inferred flood of the same flow and port is stored. */
  method HasRecentHttpFlood(store: SiemStore, e: Event) returns (b: bool)
    ensures b == FloodSuppressed(store.events, e)
  {
    var recent := store.ListRecentEvents(WafDos, SUPPRESSION_LIMIT);
    ghost var newest := Newest(store.events, Some(WafDos), SUPPRESSION_LIMIT);
    b := false;
    for i := 0 to |recent|
      invariant forall j :: 0 <= j < i ==>
        !(Within(recent[j], e.occurredAt - FLOOD_SUPPRESSION, e.occurredAt) && FloodRow(e, recent[j]))
    {
      if Within(recent[i], e.occurredAt - FLOOD_SUPPRESSION, e.occurredAt) && FloodRow(e, recent[i]) {
        assert recent[i] in multiset(newest);
        return true;
      }
    }
    forall j | 0 <= j < |newest|
      ensures !(Within(newest[j], e.occurredAt - FLOOD_SUPPRESSION, e.occurredAt) && FloodRow(e, newest[j]))
    {
      assert newest[j] in multiset(recent);
    }
  }

  method EnrichHttpFlood(store: SiemStore, e: Event) returns (r: Event)
    ensures r == EnrichFlood(store.events, e)
  {
    if !FloodEligible(e) {
      return e;
    }
    var suppressed := HasRecentHttpFlood(store, e);
    if suppressed {
      return e;
    }
    var listed := store.ListRecentEvents(NetworkEvent, FLOOD_LIMIT);
    var count, ids := CountUntil(listed, (p: Event) => FloodMatch(e, p), 1, FLOOD_MIN);
    ghost var found := FloodEvidence(store.events, e);
    assert found == Matching(listed, (p: Event) => FloodMatch(e, p));
    CutReaches(found, FLOOD_MIN - 1);
    if count < FLOOD_MIN {
      return e;
    }
    r := MarkFlood(e, count, OwnId(e) + ids);
  }

  // ---------- Endpoints ----------

  /** Enriches, stores and inspects one event; None when an insert finds its id taken. */
  method IngestEvent(store: SiemStore, raw: Event, freshId: string, incidentId: string, now: int)
      returns (r: Option<(Event, Option<Incident>)>)
    modifies store
    ensures store.Contents() == Apply(old(store.Contents()), Ingest(raw, freshId, incidentId, now))
    ensures var e := Enrich(old(store.events), Identified(raw, freshId));
      var incident := Detect(old(store.incidents), e, incidentId, now);
      if HasEvent(old(store.events), e.id) || (incident.Some? && HasIncident(old(store.incidents), incidentId))
      then r == None else r == Some((e, incident))
  {
    var e := EnrichFailedLoginBurst(store, Identified(raw, freshId));
    e := EnrichPortScan(store, Allowed, e);
    e := EnrichPortScan(store, Denied, e);
    e := EnrichHttpFlood(store, e);
    var stored := store.AddEvent(e);
    if !stored {
      return None;
    }
    var incident := Detect(store.incidents, e, incidentId, now);
    if incident.Some? {
      stored := store.AddIncident(incident.value);
      if !stored {
        return None;
      }
    }
    r := Some((e, incident));
  }

  method UpdateIncidentStatus(store: SiemStore, id: string, status: Status, now: int) returns (r: Option<Incident>)
    modifies store
    ensures store.Contents() == Apply(old(store.Contents()), SetStatus(id, status, now))
    ensures r.Some? <==> FindIncident(old(store.incidents), id).Some?
    ensures r.Some? ==> r.value == PatchStatus(FindIncident(old(store.incidents), id).value, status, now)
  {
    var p := FindIncident(store.incidents, id);
    if p.None? {
      return None;
    }
    var updated := PatchStatus(p.value, status, now);
    store.UpdateIncident(updated);
    r := Some(updated);
  }

  /** The patched levels and the notes that record them. */
  method LevelChanges(incident: Incident, patch: TriagePatch, now: int)
      returns (updated: Incident, notes: seq<TimelineItem>)
    ensures notes == LevelNotes(incident, patch, now)
    ensures updated == PatchLevels(incident, patch)
    ensures notes == [] ==> updated == incident
  {
    updated, notes := incident, [];
    if Changes(patch.triageLevel, Some(incident.triageLevel)) {
      updated := updated.(triageLevel := patch.triageLevel.value);
      notes := notes + [TimelineItem(None, "Triage changed.", now)];
    }
    if Changes(patch.ticketStatus, Some(incident.ticketStatus)) {
      updated := updated.(ticketStatus := patch.ticketStatus.value);
      notes := notes + [TimelineItem(None, "Ticket status changed.", now)];
    }
  }

  /** The patched links and the notes that record them. */
  method LinkChanges(incident: Incident, patch: TriagePatch, now: int)
      returns (updated: Incident, notes: seq<TimelineItem>)
    ensures notes == LinkNotes(incident, patch, now)
    ensures updated == PatchLinks(incident, patch)
    ensures notes == [] ==> updated == incident
  {
    updated, notes := incident, [];
    if Changes(patch.assignee, incident.assignee) {
      updated := updated.(assignee := patch.assignee);
      notes := notes + [TimelineItem(None, "Assigned.", now)];
    }
    if Changes(patch.aiAnalysis, incident.aiAnalysis) {
      updated := updated.(aiAnalysis := patch.aiAnalysis);
      notes := notes + [TimelineItem(None, "AI analysis linked.", now)];
    }
    if Present(patch.note) {
      notes := notes + [TimelineItem(None, patch.note.value, now)];
    }
  }

  /** The patched fields and the notes that record them, in order; the timeline is not extended yet. */
  method TriageChanges(incident: Incident, patch: TriagePatch, now: int)
      returns (updated: Incident, notes: seq<TimelineItem>)
    ensures notes == TriageNotes(incident, patch, now)
    ensures updated.(timeline := incident.timeline + notes) == PatchTriage(incident, patch, now)
    ensures notes == [] ==> updated == incident
  {
    var more;
    updated, notes := LevelChanges(incident, patch, now);
    updated, more := LinkChanges(updated, patch, now);
    notes := notes + more;
  }

  method UpdateIncidentTriage(store: SiemStore, id: string, patch: TriagePatch, now: int)
      returns (r: Option<Incident>)
    modifies store
    ensures store.Contents() == Apply(old(store.Contents()), Triage(id, patch, now))
    ensures r.Some? <==> FindIncident(old(store.incidents), id).Some?
    ensures r.Some? ==> r.value == PatchTriage(FindIncident(old(store.incidents), id).value, patch, now)
  {
    var p := FindIncident(store.incidents, id);
    if p.None? {
      return None;
    }
    var updated, notes := TriageChanges(p.value, patch, now);
    if notes == [] {
      assert p.value.timeline + notes == p.value.timeline;
      return Some(p.value);
    }
    updated := updated.(timeline := p.value.timeline + notes);
    assert |updated.timeline| > |p.value.timeline|;
    store.UpdateIncident(updated);
    r := Some(updated);
  }

  method ResetStore(store: SiemStore)
    modifies store
    ensures store.Contents() == Apply(old(store.Contents()), Reset)
  {
    store.Clear();
  }
}
