/**
  What rules, incident creation and patches do, said again in terms of fields and
  table rows, without the helper functions of the model.
 */
module IncidentReference {
  import opened Wrappers
  import opened SiemModel
  import opened SiemIncidents
  import opened SiemReference
  import opened SiemTheorems

  // ---------- Rules ----------

  /** The rule that an event meets, with the severity that the rule sets, if it sets one. */
  ghost function RuleFor(e: Event): Option<(RuleId, Option<string>)> {
    var a := e.attributes;
    match e.eventType
    case NetworkScan => Some((NetworkScanRule, Some("high")))
    case NetworkDeny => if a.count.Some? && a.count.value >= 20 then Some((DeniedTrafficBurst, None)) else None
    case AuthFailedLogin => if a.count.Some? && a.count.value >= 3 then Some((RepeatedFailedLogin, None)) else None
    case AuthPrivilegedLogon =>
      if a.privileged && a.unusualHost then Some((PrivilegedLogonUnusualHost, Some("high"))) else None
    case FileChange => if a.criticalPath then Some((CriticalServerFileChange, Some("high"))) else None
    case EndpointSuspiciousConnection => Some((SuspiciousEndpointConnection, Some("high")))
    case FortigateSystemStatus =>
      if (a.cpuPercent.Some? && a.cpuPercent.value >= 90) || (a.memoryPercent.Some? && a.memoryPercent.value >= 90)
      then Some((FortigateResourcePressure, Some("high"))) else None
    case WafAttack => if a.action.Some? && a.action.value != "" then Some((FortiwebWafAttack, Some("high"))) else None
    case HttpAttack => if a.action.Some? && a.action.value != "" then Some((FortiwebWafAttack, Some("high"))) else None
    case WafDos => Some((FortiwebDosActivity, Some("critical")))
    case WafBlockedRequest => Some((FortiwebBlockedRequest, Some("medium")))
    case NetworkEvent => None
    case OtherEvent(_) => None
  }

  /** Position of the only rule for a type of events, or 10. */
  ghost function RuleIndex(t: EventType): (k: nat)
    ensures k <= 10
  {
    match t
    case NetworkScan => 0
    case NetworkDeny => 1
    case AuthFailedLogin => 2
    case AuthPrivilegedLogon => 3
    case FileChange => 4
    case EndpointSuspiciousConnection => 5
    case FortigateSystemStatus => 6
    case WafAttack => 7
    case HttpAttack => 7
    case WafDos => 8
    case WafBlockedRequest => 9
    case NetworkEvent => 10
    case OtherEvent(_) => 10
  }

  lemma {:induction false} OneRuleForType(t: EventType, k: nat)
    requires k < |RULES|
    ensures t in RULES[k].eventTypes <==> RuleIndex(t) == k
  {
    var r := RULES;
    assert r[0].eventTypes == {NetworkScan} && r[1].eventTypes == {NetworkDeny} && r[2].eventTypes == {AuthFailedLogin};
    assert r[3].eventTypes == {AuthPrivilegedLogon} && r[4].eventTypes == {FileChange};
    assert r[5].eventTypes == {EndpointSuspiciousConnection} && r[6].eventTypes == {FortigateSystemStatus};
    assert r[7].eventTypes == {WafAttack, HttpAttack} && r[8].eventTypes == {WafDos};
    assert r[9].eventTypes == {WafBlockedRequest};
  }

  lemma {:induction false} AllConditions(e: Event, rule: Rule)
    requires !rule.matchAny && |rule.conditions| <= 2 && e.eventType in rule.eventTypes
    ensures MatchesRule(e, rule)
      <==> && (|rule.conditions| >= 1 ==> Holds(rule.conditions[0], e.attributes))
           && (|rule.conditions| >= 2 ==> Holds(rule.conditions[1], e.attributes))
  {
  }

  lemma {:induction false} AnyCondition(e: Event, rule: Rule)
    requires rule.matchAny && |rule.conditions| == 2 && e.eventType in rule.eventTypes
    ensures MatchesRule(e, rule) <==> Holds(rule.conditions[0], e.attributes) || Holds(rule.conditions[1], e.attributes)
  {
  }

  lemma {:induction false} FewConditions(k: nat)
    requires k < |RULES|
    ensures |RULES[k].conditions| <= 2 && (RULES[k].matchAny <==> k == 6) && |RULES[6].conditions| == 2
  {
  }

  /** The conditions of the rule for the type of the event. */
  lemma {:induction false} RuleConditions(e: Event)
    requires RuleIndex(e.eventType) < 10
    ensures var rule := RULES[RuleIndex(e.eventType)];
      && (MatchesRule(e, rule) <==> RuleFor(e).Some?)
      && (RuleFor(e).Some? ==> RuleFor(e).value == (rule.id, rule.severity))
  {
    var k := RuleIndex(e.eventType);
    OneRuleForType(e.eventType, k);
    FewConditions(k);
    if k == 6 {
      AnyCondition(e, RULES[6]);
    } else {
      AllConditions(e, RULES[k]);
    }
  }

  /** The first rule that matches is the one that the event is said to meet. */
  lemma {:induction false} RuleMeaning(e: Event)
    ensures FirstRule(e, RULES).Some? <==> RuleFor(e).Some?
    ensures FirstRule(e, RULES).Some? ==>
      RuleFor(e).value == (FirstRule(e, RULES).value.id, FirstRule(e, RULES).value.severity)
  {
    forall k | 0 <= k < |RULES|
      ensures MatchesRule(e, RULES[k]) ==> k == RuleIndex(e.eventType)
    {
      OneRuleForType(e.eventType, k);
    }
    if RuleIndex(e.eventType) < 10 {
      RuleConditions(e);
      OnlyMatch(e, RULES, RuleIndex(e.eventType));
    } else {
      NoMatch(e, RULES);
    }
  }

  lemma {:induction false} NoMatch(e: Event, rules: seq<Rule>)
    requires forall k :: 0 <= k < |rules| ==> !MatchesRule(e, rules[k])
    ensures FirstRule(e, rules).None?
  {
    if rules != [] {
      NoMatch(e, rules[1..]);
    }
  }

  // ---------- Opening incidents ----------

  /** An open flood incident for the flow and port of the event, and for its integration if the event tells one. */
  ghost predicate FloodOpen(rows: seq<IncidentRow>, e: Event) {
    && e.eventType == WafDos && e.attributes.attackType == Some(HttpFlood) && e.attributes.destinationPort.Some?
    && exists k, s, d ::
         && 0 <= k < |rows| && s != "" && d != ""
         && ValueIs(e.attributes.sourceIp, e.entities.sourceIp, s)
         && ValueIs(e.attributes.destinationIp, e.entities.destinationIp, d)
         && OpenFor(rows[k], e, s, d)
  }

  ghost predicate OpenFor(row: IncidentRow, e: Event, s: string, d: string) {
    && row.status == Open && row.payload.ruleId == FortiwebDosActivity
    && row.payload.attributes.attackType == Some(HttpFlood)
    && row.payload.attributes.sourceIp == Some(s) && row.payload.attributes.destinationIp == Some(d)
    && row.payload.attributes.destinationPort == e.attributes.destinationPort
    && forall i :: i != "" && ValueIs(e.attributes.integrationId, e.entities.integrationId, i) ==>
         row.payload.attributes.integrationId == Some(i)
  }

  lemma {:induction false} OpenForMeaning(row: IncidentRow, e: Event, s: string, d: string)
    requires s != "" && d != "" && e.attributes.destinationPort.Some?
    requires SourceOf(e) == Some(s) && DestinationOf(e) == Some(d)
    ensures row.status == Open && Duplicates(e, row.payload) <==> OpenFor(row, e, s, d)
  {
    if Present(IntegrationOf(e)) {
      assert ValueIs(e.attributes.integrationId, e.entities.integrationId, IntegrationOf(e).value);
    }
  }

  lemma {:induction false} FloodOpenMeaning(rows: seq<IncidentRow>, e: Event)
    requires e.eventType == WafDos
    ensures HasOpenDuplicate(rows, e, FortiwebDosActivity) <==> FloodOpen(rows, e)
  {
    if HasOpenDuplicate(rows, e, FortiwebDosActivity) {
      var k :| 0 <= k < |rows| && rows[k].status == Open && Duplicates(e, rows[k].payload);
      var s, d := SourceOf(e).value, DestinationOf(e).value;
      OpenForMeaning(rows[k], e, s, d);
      assert ValueIs(e.attributes.sourceIp, e.entities.sourceIp, s);
      assert ValueIs(e.attributes.destinationIp, e.entities.destinationIp, d);
    }
    if FloodOpen(rows, e) {
      var k, s, d :| 0 <= k < |rows| && s != "" && d != ""
        && ValueIs(e.attributes.sourceIp, e.entities.sourceIp, s)
        && ValueIs(e.attributes.destinationIp, e.entities.destinationIp, d)
        && OpenFor(rows[k], e, s, d);
      OpenForMeaning(rows[k], e, s, d);
    }
  }

  /** A text of the event's attributes, if it is there and not empty. */
  ghost function NonEmpty(text: Text): Text {
    if text == Some("") then None else text
  }

  /** The incident that an event opens. */
  ghost predicate OpenedBy(row: IncidentRow, e: Event, id: string, now: int) {
    && RuleFor(e).Some?
    && var p := row.payload;
       && row.id == id && row.ruleId == p.ruleId && row.severity == p.severity && row.status == p.status
       && p.id == id && p.ruleId == RuleFor(e).value.0 && p.status == Open && p.createdAt == now && p.eventIds == [e.id]
       && p.severity == (if RuleFor(e).value.1.Some? then RuleFor(e).value.1.value else e.severity)
       && p.attributes.integrationId == NonEmpty(e.attributes.integrationId)
       && p.attributes.sourceIp == NonEmpty(e.attributes.sourceIp)
       && p.attributes.destinationIp == NonEmpty(e.attributes.destinationIp)
       && p.attributes.destinationPort == e.attributes.destinationPort
       && p.attributes.attackType
          == (if e.attributes.attackType == Some(OtherAttack("")) then None else e.attributes.attackType)
       && p.timeline == [TimelineItem(None, "Incident created from event " + e.id + ".", now)]
       && p.triageLevel == (if OneOf(p.severity, ["critical", "high"]) then "T3"
                            else if OneOf(p.severity, ["medium"]) then "T2" else "T1")
       && p.ticketStatus == "new" && p.assignee.None? && p.aiAnalysis.None?
  }

  lemma {:induction false} TriageMeaning(severity: string)
    ensures TriageFromSeverity(severity)
      == if OneOf(severity, ["critical", "high"]) then "T3" else if OneOf(severity, ["medium"]) then "T2" else "T1"
  {
    var top, middle := ["critical", "high"], ["medium"];
    LowerIs(severity, top[0]);
    LowerIs(severity, top[1]);
    LowerIs(severity, middle[0]);
  }

  lemma {:induction false} NewIncidentMeaning(e: Event, id: string, now: int)
    requires FirstRule(e, RULES).Some?
    ensures OpenedBy(IncidentRowOf(NewIncident(e, FirstRule(e, RULES).value, id, now)), e, id, now)
  {
    RuleMeaning(e);
    TriageMeaning(NewIncident(e, FirstRule(e, RULES).value, id, now).severity);
  }

  ghost predicate IdFree(s: State, eventId: string, incidentId: string) {
    && (forall k :: 0 <= k < |s.events| ==> s.events[k].id != eventId)
    && (forall k :: 0 <= k < |s.incidents| ==> s.incidents[k].id != incidentId)
  }

  lemma {:induction false} OnlyDosIsDos(e: Event)
    ensures RuleFor(e).Some? && RuleFor(e).value.0 == FortiwebDosActivity <==> e.eventType == WafDos
  {
  }

  lemma {:induction false} DuplicateMeaning(rows: seq<IncidentRow>, e: Event)
    requires FirstRule(e, RULES).Some?
    ensures HasOpenDuplicate(rows, e, FirstRule(e, RULES).value.id) <==> FloodOpen(rows, e)
  {
    RuleMeaning(e);
    OnlyDosIsDos(e);
    if e.eventType == WafDos {
      FloodOpenMeaning(rows, e);
    }
  }

  lemma {:induction false} DetectMeaning(rows: seq<IncidentRow>, e: Event, id: string, now: int)
    ensures Detect(rows, e, id, now).Some? <==> RuleFor(e).Some? && !FloodOpen(rows, e)
    ensures Detect(rows, e, id, now).Some? ==> OpenedBy(IncidentRowOf(Detect(rows, e, id, now).value), e, id, now)
  {
    RuleMeaning(e);
    if FirstRule(e, RULES).Some? {
      NewIncidentMeaning(e, id, now);
      DuplicateMeaning(rows, e);
    }
  }

  /**
    An accepted event is stored under its own columns, and opens exactly one
    incident if it meets a rule, unless it is a flood of which one is open.
   */
  lemma {:induction false} IngestionOpens(s: State, raw: Event, freshId: string, incidentId: string, now: int)
    requires IdFree(s, Enrich(s.events, Identified(raw, freshId)).id, incidentId)
    ensures var e, after := Enrich(s.events, Identified(raw, freshId)), Apply(s, Ingest(raw, freshId, incidentId, now));
      && after.events == s.events + [EventRow(e.id, e.eventType, e.severity, e.occurredAt, e)]
      && if RuleFor(e).Some? && !FloodOpen(s.incidents, e)
         then |after.incidents| == |s.incidents| + 1 && after.incidents[..|s.incidents|] == s.incidents
              && OpenedBy(after.incidents[|s.incidents|], e, incidentId, now)
         else after.incidents == s.incidents
  {
    DetectMeaning(s.incidents, Enrich(s.events, Identified(raw, freshId)), incidentId, now);
  }

  /** An event whose id is taken changes nothing; with only the incident id taken, the event is stored alone. */
  lemma {:induction false} IngestionRefused(s: State, raw: Event, freshId: string, incidentId: string, now: int)
    ensures var e, after := Enrich(s.events, Identified(raw, freshId)), Apply(s, Ingest(raw, freshId, incidentId, now));
      && ((exists k :: 0 <= k < |s.events| && s.events[k].id == e.id) ==> after == s)
      && ((exists k :: 0 <= k < |s.incidents| && s.incidents[k].id == incidentId) ==> after.incidents == s.incidents)
  {
  }

  /** The id is the submitted one, or the fresh one if none was submitted; enriching keeps it. */
  lemma {:induction false} IngestedId(rows: seq<EventRow>, raw: Event, freshId: string)
    ensures Enrich(rows, Identified(raw, freshId)).id == if raw.id == "" then freshId else raw.id
    ensures Identified(raw, freshId) == raw.(id := if raw.id == "" then freshId else raw.id)
  {
    EnrichKeepsIdentity(rows, Identified(raw, freshId));
  }

  // ---------- Patches ----------

  /** Row k is the only one with the id; only it changes, in column and payload alike. */
  ghost predicate OnlyRowChanges(before: seq<IncidentRow>, after: seq<IncidentRow>, k: int) {
    && |after| == |before| && 0 <= k < |before|
    && (forall j :: 0 <= j < |before| && j != k ==> after[j] == before[j])
    && after[k].id == before[k].id && after[k].ruleId == before[k].ruleId
    && after[k].severity == after[k].payload.severity && after[k].status == after[k].payload.status
  }

  /** A status patch sets the status and appends one item that carries it; all else of the incident stays. */
  lemma {:induction false} StatusPatched(s: State, id: string, status: Status, now: int, k: nat)
    requires Consistent(s.incidents) && k < |s.incidents| && s.incidents[k].id == id
    ensures var after := Apply(s, SetStatus(id, status, now));
      && after.events == s.events && OnlyRowChanges(s.incidents, after.incidents, k)
      && var p, q := s.incidents[k].payload, after.incidents[k].payload;
         && q.status == status && |q.timeline| == |p.timeline| + 1 && p.timeline <= q.timeline
         && q.timeline[|p.timeline|].status == Some(status) && q.timeline[|p.timeline|].occurredAt == now
         && q == p.(status := q.status, timeline := q.timeline)
  {
    var m := FoundRow(s.incidents, id);
    assert m == k;
    var q := PatchStatus(s.incidents[k].payload, status, now);
    UpdatedRows(s.incidents, q, k);
  }

  lemma {:induction false} UpdatedRows(rows: seq<IncidentRow>, q: Incident, k: nat)
    requires Consistent(rows) && k < |rows| && rows[k].id == q.id
    ensures OnlyRowChanges(rows, UpdateRows(rows, q), k) && UpdateRows(rows, q)[k].payload == q
  {
    forall j | 0 <= j < |rows|
      ensures UpdateRows(rows, q)[j] == if j == k then rows[k].(severity := q.severity, status := q.status, payload := q)
                                        else rows[j]
    {
      assert UpdateRows(rows, q)[j] == UpdateRow(rows[j], q);
    }
  }

  /** How many fields a triage patch really changes. */
  ghost function FieldsChanged(p: Incident, t: TriagePatch): nat {
    (if t.triageLevel.Some? && t.triageLevel.value != p.triageLevel then 1 else 0)
    + (if t.ticketStatus.Some? && t.ticketStatus.value != p.ticketStatus then 1 else 0)
    + (if t.assignee.Some? && t.assignee != p.assignee then 1 else 0)
    + (if t.aiAnalysis.Some? && t.aiAnalysis != p.aiAnalysis then 1 else 0)
  }

  ghost predicate HasNote(t: TriagePatch) {
    t.note.Some? && t.note.value != ""
  }

  /** The incident after a triage patch: the given fields, one plain item for each that changed, and the note last. */
  ghost predicate TriagedAs(p: Incident, t: TriagePatch, now: int, q: Incident) {
    && (if t.triageLevel.Some? then q.triageLevel == t.triageLevel.value else q.triageLevel == p.triageLevel)
    && (if t.ticketStatus.Some? then q.ticketStatus == t.ticketStatus.value else q.ticketStatus == p.ticketStatus)
    && (if t.assignee.Some? then q.assignee == t.assignee else q.assignee == p.assignee)
    && (if t.aiAnalysis.Some? then q.aiAnalysis == t.aiAnalysis else q.aiAnalysis == p.aiAnalysis)
    && p.timeline <= q.timeline
    && |q.timeline| == |p.timeline| + FieldsChanged(p, t) + (if HasNote(t) then 1 else 0)
    && (forall i :: |p.timeline| <= i < |q.timeline| ==> q.timeline[i].status.None? && q.timeline[i].occurredAt == now)
    && (HasNote(t) ==> q.timeline[|q.timeline| - 1].message == t.note.value)
    && q == p.(triageLevel := q.triageLevel, ticketStatus := q.ticketStatus, assignee := q.assignee,
               aiAnalysis := q.aiAnalysis, timeline := q.timeline)
  }

  ghost predicate PlainItems(notes: seq<TimelineItem>, now: int) {
    forall i :: 0 <= i < |notes| ==> notes[i].status.None? && notes[i].occurredAt == now
  }

  lemma {:induction false} LevelNotesMeaning(p: Incident, t: TriagePatch, now: int)
    ensures PlainItems(LevelNotes(p, t, now), now)
    ensures |LevelNotes(p, t, now)|
      == (if t.triageLevel.Some? && t.triageLevel.value != p.triageLevel then 1 else 0)
         + (if t.ticketStatus.Some? && t.ticketStatus.value != p.ticketStatus then 1 else 0)
  {
  }

  lemma {:induction false} LinkNotesMeaning(p: Incident, t: TriagePatch, now: int)
    ensures var notes := LinkNotes(p, t, now);
      && PlainItems(notes, now)
      && |notes| == (if t.assignee.Some? && t.assignee != p.assignee then 1 else 0)
                    + (if t.aiAnalysis.Some? && t.aiAnalysis != p.aiAnalysis then 1 else 0)
                    + (if HasNote(t) then 1 else 0)
      && (HasNote(t) ==> notes[|notes| - 1].message == t.note.value)
  {
  }

  lemma {:induction false} TriageNotesMeaning(p: Incident, t: TriagePatch, now: int)
    ensures var notes := TriageNotes(p, t, now);
      && |notes| == FieldsChanged(p, t) + (if HasNote(t) then 1 else 0)
      && PlainItems(notes, now)
      && (HasNote(t) ==> notes[|notes| - 1].message == t.note.value)
  {
    LevelNotesMeaning(p, t, now);
    LinkNotesMeaning(p, t, now);
  }

  lemma {:induction false} TriageMeansTriaged(p: Incident, t: TriagePatch, now: int)
    ensures TriagedAs(p, t, now, PatchTriage(p, t, now))
  {
    TriageNotesMeaning(p, t, now);
  }

  /** A triage patch changes its incident only, and as said. */
  lemma {:induction false} TriagePatched(s: State, id: string, patch: TriagePatch, now: int, k: nat)
    requires Consistent(s.incidents) && k < |s.incidents| && s.incidents[k].id == id
    ensures var after := Apply(s, Triage(id, patch, now));
      && after.events == s.events && OnlyRowChanges(s.incidents, after.incidents, k)
      && TriagedAs(s.incidents[k].payload, patch, now, after.incidents[k].payload)
  {
    var m := FoundRow(s.incidents, id);
    assert m == k;
    var q := PatchTriage(s.incidents[k].payload, patch, now);
    TriageMeansTriaged(s.incidents[k].payload, patch, now);
    UpdatedRows(s.incidents, q, k);
  }

  /** Patching an unknown incident changes nothing. */
  lemma {:induction false} UnknownPatched(s: State, id: string, status: Status, patch: TriagePatch, now: int)
    requires forall k :: 0 <= k < |s.incidents| ==> s.incidents[k].id != id
    ensures Apply(s, SetStatus(id, status, now)) == s && Apply(s, Triage(id, patch, now)) == s
  {
  }

  // ---------- Time to respond ----------

  ghost predicate Ends(status: Status) {
    status == Contained || status == Resolved || status == FalsePositive
  }

  ghost predicate EndsAt(p: Incident, i: int) {
    0 <= i < |p.timeline| && p.timeline[i].status.Some? && Ends(p.timeline[i].status.value)
  }

  lemma {:induction false} TerminalTimesMeaning(timeline: seq<TimelineItem>, x: int)
    ensures x in TerminalTimes(timeline) <==>
      exists i :: 0 <= i < |timeline| && timeline[i].status.Some? && Ends(timeline[i].status.value)
        && timeline[i].occurredAt == x
  {
    if timeline != [] {
      var n := |timeline| - 1;
      TerminalTimesMeaning(timeline[..n], x);
      if i :| 0 <= i < |timeline| && timeline[i].status.Some? && Ends(timeline[i].status.value)
              && timeline[i].occurredAt == x && i < n {
        assert timeline[..n][i] == timeline[i];
      }
    }
  }

  /** For an ended incident, the milliseconds from creation to the earliest ending item, but not below zero. */
  lemma {:induction false} MttrMeaning(p: Incident, i: nat)
    requires Ends(p.status) && EndsAt(p, i)
    requires forall j :: EndsAt(p, j) ==> p.timeline[i].occurredAt <= p.timeline[j].occurredAt
    ensures MttrMs(p)
      == Some(if p.timeline[i].occurredAt <= p.createdAt then 0 else (p.timeline[i].occurredAt - p.createdAt) * 1000)
  {
    var times := TerminalTimes(p.timeline);
    TerminalTimesMeaning(p.timeline, p.timeline[i].occurredAt);
    var m := MinOf(times);
    TerminalTimesMeaning(p.timeline, m);
    var j :| EndsAt(p, j) && p.timeline[j].occurredAt == m;
  }

  /** The status on record is that of the last item that carries one. */
  lemma {:induction false} LastStatusMeaning(timeline: seq<TimelineItem>, i: int)
    requires -1 <= i < |timeline| && forall j :: i < j < |timeline| ==> timeline[j].status.None?
    requires i >= 0 ==> timeline[i].status.Some?
    ensures LastStatus(timeline) == if i < 0 then Open else timeline[i].status.value
  {
    if timeline != [] && i < |timeline| - 1 {
      LastStatusMeaning(timeline[..|timeline| - 1], i);
    }
  }
}
