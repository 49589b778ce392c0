/**
  Incidents of the SIEM service: rule matching, deduplication, status and triage
  patches, and the state machine of the service as one function `Apply`.
 */
module SiemIncidents {
  import opened Wrappers
  import opened SiemModel

  // ---------- Rules ----------

  datatype RuleId =
    | NetworkScanRule
    | DeniedTrafficBurst
    | RepeatedFailedLogin
    | PrivilegedLogonUnusualHost
    | CriticalServerFileChange
    | SuspiciousEndpointConnection
    | FortigateResourcePressure
    | FortiwebWafAttack
    | FortiwebDosActivity
    | FortiwebBlockedRequest

  datatype Condition =
    | CountAtLeast(n: int)
    | CpuAtLeast(n: int)
    | MemoryAtLeast(n: int)
    | PrivilegedHolds
    | UnusualHostHolds
    | CriticalPathHolds
    | ActionExists

  datatype Rule = Rule(id: RuleId, severity: Option<string>, eventTypes: set<EventType>, matchAny: bool,
                       conditions: seq<Condition>)

  const RULES: seq<Rule> := [
    Rule(NetworkScanRule, Some("high"), {NetworkScan}, false, []),
    Rule(DeniedTrafficBurst, None, {NetworkDeny}, false, [CountAtLeast(20)]),
    Rule(RepeatedFailedLogin, None, {AuthFailedLogin}, false, [CountAtLeast(3)]),
    Rule(PrivilegedLogonUnusualHost, Some("high"), {AuthPrivilegedLogon}, false, [PrivilegedHolds, UnusualHostHolds]),
    Rule(CriticalServerFileChange, Some("high"), {FileChange}, false, [CriticalPathHolds]),
    Rule(SuspiciousEndpointConnection, Some("high"), {EndpointSuspiciousConnection}, false, []),
    Rule(FortigateResourcePressure, Some("high"), {FortigateSystemStatus}, true, [CpuAtLeast(90), MemoryAtLeast(90)]),
    Rule(FortiwebWafAttack, Some("high"), {WafAttack, HttpAttack}, false, [ActionExists]),
    Rule(FortiwebDosActivity, Some("critical"), {WafDos}, false, []),
    Rule(FortiwebBlockedRequest, Some("medium"), {WafBlockedRequest}, false, [])]

  predicate AtLeast(value: Option<int>, n: int) {
    value.Some? && value.value >= n
  }

  predicate Holds(c: Condition, a: Attributes) {
    match c
    case CountAtLeast(n) => AtLeast(a.count, n)
    case CpuAtLeast(n) => AtLeast(a.cpuPercent, n)
    case MemoryAtLeast(n) => AtLeast(a.memoryPercent, n)
    case PrivilegedHolds => a.privileged
    case UnusualHostHolds => a.unusualHost
    case CriticalPathHolds => a.criticalPath
    case ActionExists => Present(a.action)
  }

  predicate MatchesRule(e: Event, rule: Rule) {
    && e.eventType in rule.eventTypes
    && if rule.matchAny then exists i :: 0 <= i < |rule.conditions| && Holds(rule.conditions[i], e.attributes)
       else forall i :: 0 <= i < |rule.conditions| ==> Holds(rule.conditions[i], e.attributes)
  }

  function FirstRule(e: Event, rules: seq<Rule>): (r: Option<Rule>)
    ensures r.Some? ==> r.value in rules && MatchesRule(e, r.value)
    ensures r.None? ==> forall x :: x in rules ==> !MatchesRule(e, x)
  {
    if rules == [] then None else if MatchesRule(e, rules[0]) then Some(rules[0]) else FirstRule(e, rules[1..])
  }

  // ---------- Incidents ----------

  datatype Status = Open | Triaged | Contained | Resolved | FalsePositive

  /** A status change carries its status; other items carry none. */
  datatype TimelineItem = TimelineItem(status: Option<Status>, message: string, occurredAt: int)

  datatype IncidentAttributes = IncidentAttributes(
    attackType: Option<AttackType>, integrationId: Text, sourceIp: Text, destinationIp: Text,
    destinationPort: Option<int>)

  datatype Incident = Incident(
    id: string,
    ruleId: RuleId,
    severity: string,
    status: Status,
    attributes: IncidentAttributes,
    createdAt: int,
    timeline: seq<TimelineItem>,
    eventIds: seq<string>,
    triageLevel: string,
    ticketStatus: string,
    assignee: Option<string>,
    aiAnalysis: Option<string>)

  datatype IncidentRow = IncidentRow(id: string, ruleId: RuleId, severity: string, status: Status, payload: Incident)

  function IncidentRowOf(p: Incident): IncidentRow {
    IncidentRow(p.id, p.ruleId, p.severity, p.status, p)
  }

  function Kept(t: Text): Text {
    if Present(t) then t else None
  }

  function IncidentAttributesOf(a: Attributes): IncidentAttributes {
    IncidentAttributes(if HasAttack(a.attackType) then a.attackType else None, Kept(a.integrationId),
                       Kept(a.sourceIp), Kept(a.destinationIp), a.destinationPort)
  }

  function TriageFromSeverity(severity: string): string {
    if Lower(severity) == "critical" || Lower(severity) == "high" then "T3"
    else if Lower(severity) == "medium" then "T2" else "T1"
  }

  function NewIncident(e: Event, rule: Rule, id: string, now: int): Incident {
    var severity := if rule.severity.Some? then rule.severity.value else e.severity;
    Incident(id, rule.id, severity, Open, IncidentAttributesOf(e.attributes), now,
             [TimelineItem(None, "Incident created from event " + e.id + ".", now)], [e.id],
             TriageFromSeverity(severity), "new", None, None)
  }

  /** Only inferred or reported HTTP floods with a complete flow are deduplicated. */
  predicate Deduplicated(e: Event, rule: RuleId) {
    && rule == FortiwebDosActivity && e.attributes.attackType == Some(HttpFlood)
    && Present(SourceOf(e)) && Present(DestinationOf(e)) && e.attributes.destinationPort.Some?
  }

  predicate Duplicates(e: Event, p: Incident) {
    && p.ruleId == FortiwebDosActivity && p.attributes.attackType == Some(HttpFlood)
    && (Present(IntegrationOf(e)) ==> p.attributes.integrationId == IntegrationOf(e))
    && p.attributes.sourceIp == SourceOf(e)
    && p.attributes.destinationIp == DestinationOf(e)
    && p.attributes.destinationPort == e.attributes.destinationPort
  }

  predicate HasOpenDuplicate(rows: seq<IncidentRow>, e: Event, rule: RuleId) {
    && Deduplicated(e, rule)
    && exists i :: 0 <= i < |rows| && rows[i].status == Open && Duplicates(e, rows[i].payload)
  }

  function Detect(rows: seq<IncidentRow>, e: Event, id: string, now: int): Option<Incident> {
    var rule := FirstRule(e, RULES);
    if rule.None? || HasOpenDuplicate(rows, e, rule.value.id) then None
    else Some(NewIncident(e, rule.value, id, now))
  }

  // ---------- Patches ----------

  datatype TriagePatch = TriagePatch(triageLevel: Option<string>, ticketStatus: Option<string>,
                                     assignee: Option<string>, aiAnalysis: Option<string>, note: Option<string>)

  function PatchStatus(p: Incident, status: Status, now: int): Incident {
    p.(status := status, timeline := p.timeline + [TimelineItem(Some(status), "Status changed.", now)])
  }

  predicate Changes(patch: Option<string>, current: Option<string>) {
    patch.Some? && patch != current
  }

  function Note(changed: bool, message: string, now: int): seq<TimelineItem> {
    if changed then [TimelineItem(None, message, now)] else []
  }

  function LevelNotes(p: Incident, t: TriagePatch, now: int): seq<TimelineItem> {
    Note(Changes(t.triageLevel, Some(p.triageLevel)), "Triage changed.", now)
    + Note(Changes(t.ticketStatus, Some(p.ticketStatus)), "Ticket status changed.", now)
  }

  function LinkNotes(p: Incident, t: TriagePatch, now: int): seq<TimelineItem> {
    Note(Changes(t.assignee, p.assignee), "Assigned.", now)
    + Note(Changes(t.aiAnalysis, p.aiAnalysis), "AI analysis linked.", now)
    + if Present(t.note) then [TimelineItem(None, t.note.value, now)] else []
  }

  /** Notes that a triage patch adds, in order. */
  function TriageNotes(p: Incident, t: TriagePatch, now: int): seq<TimelineItem> {
    LevelNotes(p, t, now) + LinkNotes(p, t, now)
  }

  function PatchLevels(p: Incident, t: TriagePatch): Incident {
    p.(triageLevel := if t.triageLevel.Some? then t.triageLevel.value else p.triageLevel,
       ticketStatus := if t.ticketStatus.Some? then t.ticketStatus.value else p.ticketStatus)
  }

  function PatchLinks(p: Incident, t: TriagePatch): Incident {
    p.(assignee := if t.assignee.Some? then t.assignee else p.assignee,
       aiAnalysis := if t.aiAnalysis.Some? then t.aiAnalysis else p.aiAnalysis)
  }

  function PatchTriage(p: Incident, t: TriagePatch, now: int): Incident {
    PatchLinks(PatchLevels(p, t), t).(timeline := p.timeline + TriageNotes(p, t, now))
  }

  // ---------- The service as a state machine ----------

  datatype State = State(events: seq<EventRow>, incidents: seq<IncidentRow>)

  const NO_ROWS := State([], [])

  function FindIncident(rows: seq<IncidentRow>, id: string): (r: Option<Incident>)
    ensures r.Some? ==> exists i :: 0 <= i < |rows| && rows[i].id == id && rows[i].payload == r.value
    ensures r.None? ==> forall i :: 0 <= i < |rows| ==> rows[i].id != id
  {
    if rows == [] then None
    else if rows[0].id == id then Some(rows[0].payload)
    else
      var rest := FindIncident(rows[1..], id);
      assert rest.Some? ==> exists i :: 1 <= i < |rows| && rows[i].id == id && rows[i].payload == rest.value by {
        if rest.Some? {
          var j :| 0 <= j < |rows[1..]| && rows[1..][j].id == id && rows[1..][j].payload == rest.value;
          assert rows[j + 1].payload == rest.value;
        }
      }
      rest
  }

  /** SQL update of severity, status and payload where the id matches. */
  function UpdateRows(rows: seq<IncidentRow>, p: Incident): (r: seq<IncidentRow>)
    ensures |r| == |rows|
    ensures forall i :: 0 <= i < |rows| ==> r[i] == UpdateRow(rows[i], p)
  {
    seq(|rows|, i requires 0 <= i < |rows| => UpdateRow(rows[i], p))
  }

  function UpdateRow(row: IncidentRow, p: Incident): IncidentRow {
    if row.id == p.id then row.(severity := p.severity, status := p.status, payload := p) else row
  }

  predicate HasEvent(rows: seq<EventRow>, id: string) {
    exists i :: 0 <= i < |rows| && rows[i].id == id
  }

  predicate HasIncident(rows: seq<IncidentRow>, id: string) {
    exists i :: 0 <= i < |rows| && rows[i].id == id
  }

  datatype Op =
    | Ingest(event: Event, freshId: string, incidentId: string, now: int)
    | SetStatus(id: string, status: Status, now: int)
    | Triage(id: string, patch: TriagePatch, now: int)
    | Reset

  /** The event as the enrichers see it: an id is assigned if it has none. */
  function Identified(e: Event, freshId: string): Event {
    if e.id != "" then e else e.(id := freshId)
  }

  /**
    Storing an enriched event and the incident it opens.  Ids are unique in both
    tables: a repeated event id stores nothing, a repeated incident id no incident.
   */
  function StoreAndDetect(s: State, e: Event, incidentId: string, now: int): State {
    if HasEvent(s.events, e.id) then s
    else
      var incident := Detect(s.incidents, e, incidentId, now);
      State(s.events + [RowOf(e)],
            if incident.Some? && !HasIncident(s.incidents, incidentId)
            then s.incidents + [IncidentRowOf(incident.value)] else s.incidents)
  }

  ghost function Apply(s: State, op: Op): State {
    match op
    case Ingest(raw, freshId, incidentId, now) =>
      StoreAndDetect(s, Enrich(s.events, Identified(raw, freshId)), incidentId, now)
    case SetStatus(id, status, now) =>
      var p := FindIncident(s.incidents, id);
      if p.None? then s else s.(incidents := UpdateRows(s.incidents, PatchStatus(p.value, status, now)))
    case Triage(id, patch, now) =>
      var p := FindIncident(s.incidents, id);
      if p.None? || PatchTriage(p.value, patch, now) == p.value then s
      else s.(incidents := UpdateRows(s.incidents, PatchTriage(p.value, patch, now)))
    case Reset => NO_ROWS
  }

  ghost function Run(ops: seq<Op>): State {
    if ops == [] then NO_ROWS else Apply(Run(ops[..|ops| - 1]), ops[|ops| - 1])
  }
}
