/**
  Properties of every run of the SIEM service, stated over the state machine of
  `SiemIncidents` that the service methods implement.
 */
module SiemTheorems {
  import opened Sorting
  import opened Wrappers
  import opened SiemModel
  import opened SiemIncidents

  // ---------- Enrichers ----------

  /** Enriching keeps identity, time and entities, whatever the stored rows. */
  lemma {:induction false} EnrichKeepsIdentity(rows: seq<EventRow>, e: Event)
    ensures Enrich(rows, e).id == e.id
    ensures Enrich(rows, e).occurredAt == e.occurredAt && Enrich(rows, e).stamp == e.stamp
    ensures Enrich(rows, e).entities == e.entities
  {
  }

  /** At most one enricher changes an event, so the order of the four stages hides nothing. */
  lemma {:induction false} OneEnricherApplies(rows: seq<EventRow>, e: Event)
    ensures Enrich(rows, e) == match e.eventType
      case AuthFailedLogin => EnrichLogin(rows, e)
      case NetworkDeny => EnrichScan(Denied, rows, e)
      case NetworkEvent =>
        if EnrichScan(Allowed, rows, e) != e then EnrichScan(Allowed, rows, e) else EnrichFlood(rows, e)
      case _ => e
  {
  }

  /** An already marked failed login is not changed again, by whatever rows are stored then. */
  lemma {:induction false} MarkedLoginIsStable(rows: seq<EventRow>, later: seq<EventRow>, e: Event)
    requires EnrichLogin(rows, e) != e
    ensures EnrichLogin(later, EnrichLogin(rows, e)) == EnrichLogin(rows, e)
  {
    var found := EarlierLogins(rows, e);
    if Weight(e) < LOGIN_MIN {
      ShortestReaches(Weights(found), LOGIN_MIN - Weight(e));
      PrefixWeights(found, Shortest(Weights(found), LOGIN_MIN - Weight(e)));
    }
  }

  lemma {:induction false} PrefixWeights(s: seq<Event>, k: nat)
    requires k <= |s|
    ensures Weights(s[..k]) == Weights(s)[..k]
  {
  }

  // ---------- Suppression spacing ----------

  /** The accepted submissions behind the stored events, in row order. */
  ghost function Submitted(ops: seq<Op>): seq<Event> {
    if ops == [] then []
    else
      var n := |ops| - 1;
      var s := Run(ops[..n]);
      match ops[n]
      case Ingest(raw, freshId, _, _) =>
        var e := Identified(raw, freshId);
        if HasEvent(s.events, Enrich(s.events, e).id) then Submitted(ops[..n]) else Submitted(ops[..n]) + [e]
      case Reset => []
      case _ => Submitted(ops[..n])
  }

  /** Every stored row is its submission, enriched against the rows stored before it. */
  ghost predicate Ledger(rows: seq<EventRow>, raws: seq<Event>) {
    && |rows| == |raws|
    && forall j :: 0 <= j < |rows| ==> rows[j] == RowOf(Enrich(rows[..j], raws[j]))
  }

  lemma {:induction false} LedgerExtends(rows: seq<EventRow>, raws: seq<Event>, e: Event)
    requires Ledger(rows, raws)
    ensures Ledger(rows + [RowOf(Enrich(rows, e))], raws + [e])
  {
    var rows' := rows + [RowOf(Enrich(rows, e))];
    forall j | 0 <= j < |rows'|
      ensures rows'[j] == RowOf(Enrich(rows'[..j], (raws + [e])[j]))
    {
      assert rows'[..j] == rows[..j];
    }
    assert rows[..|rows|] == rows;
  }

  lemma {:induction false} RunsKeepLedger(ops: seq<Op>)
    ensures Ledger(Run(ops).events, Submitted(ops))
  {
    if ops != [] {
      var n := |ops| - 1;
      RunsKeepLedger(ops[..n]);
      match ops[n] {
        case Ingest(raw, freshId, _, _) =>
          LedgerExtends(Run(ops[..n]).events, Submitted(ops[..n]), Identified(raw, freshId));
        case SetStatus(_, _, _) =>
        case Triage(_, _, _) =>
        case Reset =>
      }
    }
  }

  /** Row j was turned into a flood by inference, not submitted as one. */
  ghost predicate InferredFlood(rows: seq<EventRow>, raws: seq<Event>, j: nat)
    requires j < |rows| == |raws|
  {
    raws[j].eventType == NetworkEvent && rows[j].eventType == WafDos
  }

  ghost predicate InferredScan(k: ScanKind, rows: seq<EventRow>, raws: seq<Event>, j: nat)
    requires j < |rows| == |raws|
  {
    raws[j].eventType == ScanType(k) && rows[j].eventType == NetworkScan
  }

  ghost predicate SameFloodKey(p: Event, q: Event) {
    && p.attributes.integrationId == q.attributes.integrationId
    && p.attributes.sourceIp == q.attributes.sourceIp
    && p.attributes.destinationIp == q.attributes.destinationIp
    && p.attributes.destinationPort == q.attributes.destinationPort
  }

  ghost predicate SameScanKey(p: Event, q: Event) {
    && p.attributes.integrationId == q.attributes.integrationId
    && p.attributes.sourceIp == q.attributes.sourceIp
    && p.attributes.destinationIp == q.attributes.destinationIp
  }

  lemma {:induction false} FloodFacts(rows: seq<EventRow>, e: Event)
    requires e.eventType == NetworkEvent && Enrich(rows, e).eventType == WafDos
    ensures !FloodSuppressed(rows, e) && FloodRow(e, Enrich(rows, e))
  {
    OneEnricherApplies(rows, e);
  }

  lemma {:induction false} ScanFacts(k: ScanKind, rows: seq<EventRow>, e: Event)
    requires e.eventType == ScanType(k) && Enrich(rows, e).eventType == NetworkScan
    ensures !ScanSuppressed(k, rows, e) && ScanRow(k, e, Enrich(rows, e))
  {
    OneEnricherApplies(rows, e);
  }

  lemma {:induction false} StillListed(rows: seq<EventRow>, t: EventType, limit: nat, i: nat, j: nat)
    requires i < j <= |rows| && rows[i].eventType == t && CountType(rows[i + 1..j], t) < limit
    ensures rows[i].payload in Newest(rows[..j], Some(t), limit)
  {
    assert rows[..j][i + 1..] == rows[i + 1..j];
    ListedWhileFewAfter(rows[..j], t, limit, i);
  }

  lemma {:induction false} FloodSpacingIn(rows: seq<EventRow>, raws: seq<Event>, i: nat, j: nat)
    requires Ledger(rows, raws) && i < j < |rows|
    requires InferredFlood(rows, raws, i) && InferredFlood(rows, raws, j)
    requires SameFloodKey(rows[i].payload, rows[j].payload)
    requires 0 <= rows[j].occurredAt - rows[i].occurredAt <= FLOOD_SUPPRESSION
    ensures CountType(rows[i + 1..j], WafDos) >= SUPPRESSION_LIMIT
  {
    assert rows[i] == RowOf(Enrich(rows[..i], raws[i])) && rows[j] == RowOf(Enrich(rows[..j], raws[j]));
    FloodFacts(rows[..i], raws[i]);
    FloodFacts(rows[..j], raws[j]);
    EnrichKeepsIdentity(rows[..j], raws[j]);
    if CountType(rows[i + 1..j], WafDos) < SUPPRESSION_LIMIT {
      StillListed(rows, WafDos, SUPPRESSION_LIMIT, i, j);
    }
  }

  lemma {:induction false} ScanSpacingIn(k: ScanKind, rows: seq<EventRow>, raws: seq<Event>, i: nat, j: nat)
    requires Ledger(rows, raws) && i < j < |rows|
    requires InferredScan(k, rows, raws, i) && InferredScan(k, rows, raws, j)
    requires SameScanKey(rows[i].payload, rows[j].payload)
    requires 0 <= rows[j].occurredAt - rows[i].occurredAt <= SCAN_WINDOW
    ensures CountType(rows[i + 1..j], NetworkScan) >= SUPPRESSION_LIMIT
  {
    assert rows[i] == RowOf(Enrich(rows[..i], raws[i])) && rows[j] == RowOf(Enrich(rows[..j], raws[j]));
    ScanFacts(k, rows[..i], raws[i]);
    ScanFacts(k, rows[..j], raws[j]);
    EnrichKeepsIdentity(rows[..j], raws[j]);
    if CountType(rows[i + 1..j], NetworkScan) < SUPPRESSION_LIMIT {
      StillListed(rows, NetworkScan, SUPPRESSION_LIMIT, i, j);
    }
  }

  /**
    On every run, two inferred floods of one flow and port that are still stored
    and at most 300 seconds apart have at least 50 DoS rows between them.
   */
  lemma {:induction false} FloodSpacing(ops: seq<Op>, i: nat, j: nat)
    ensures var rows, raws := Run(ops).events, Submitted(ops);
      && |rows| == |raws|
      && (i < j < |rows| && InferredFlood(rows, raws, i) && InferredFlood(rows, raws, j)
          && SameFloodKey(rows[i].payload, rows[j].payload)
          && 0 <= rows[j].occurredAt - rows[i].occurredAt <= FLOOD_SUPPRESSION
          ==> CountType(rows[i + 1..j], WafDos) >= SUPPRESSION_LIMIT)
  {
    var rows, raws := Run(ops).events, Submitted(ops);
    RunsKeepLedger(ops);
    if i < j < |rows| && InferredFlood(rows, raws, i) && InferredFlood(rows, raws, j)
       && SameFloodKey(rows[i].payload, rows[j].payload)
       && 0 <= rows[j].occurredAt - rows[i].occurredAt <= FLOOD_SUPPRESSION {
      FloodSpacingIn(rows, raws, i, j);
    }
  }

  /** The same for port scans of either kind, within 60 seconds. */
  lemma {:induction false} ScanSpacing(k: ScanKind, ops: seq<Op>, i: nat, j: nat)
    ensures var rows, raws := Run(ops).events, Submitted(ops);
      && |rows| == |raws|
      && (i < j < |rows| && InferredScan(k, rows, raws, i) && InferredScan(k, rows, raws, j)
          && SameScanKey(rows[i].payload, rows[j].payload)
          && 0 <= rows[j].occurredAt - rows[i].occurredAt <= SCAN_WINDOW
          ==> CountType(rows[i + 1..j], NetworkScan) >= SUPPRESSION_LIMIT)
  {
    var rows, raws := Run(ops).events, Submitted(ops);
    RunsKeepLedger(ops);
    if i < j < |rows| && InferredScan(k, rows, raws, i) && InferredScan(k, rows, raws, j)
       && SameScanKey(rows[i].payload, rows[j].payload)
       && 0 <= rows[j].occurredAt - rows[i].occurredAt <= SCAN_WINDOW {
      ScanSpacingIn(k, rows, raws, i, j);
    }
  }

  // ---------- Verdicts ----------

  lemma {:induction false} SumParts(a: seq<nat>, b: seq<nat>)
    ensures Sum(a + b) == Sum(a) + Sum(b)
  {
    if a == [] {
      assert a + b == b;
    } else {
      assert (a + b)[1..] == a[1..] + b;
      SumParts(a[1..], b);
    }
  }

  lemma {:induction false} MatchingParts(s: seq<Event>, t: seq<Event>, pred: Event -> bool)
    ensures Matching(s + t, pred) == Matching(s, pred) + Matching(t, pred)
  {
    if t == [] {
      assert s + t == s;
    } else {
      var n := |t| - 1;
      assert (s + t)[..|s + t| - 1] == s + t[..n];
      MatchingParts(s, t[..n], pred);
    }
  }

  lemma {:induction false} WeighedParts(s: seq<Event>, t: seq<Event>, pred: Event -> bool)
    ensures Sum(Weights(Matching(s + t, pred)))
         == Sum(Weights(Matching(s, pred))) + Sum(Weights(Matching(t, pred)))
  {
    var a, b := Matching(s, pred), Matching(t, pred);
    MatchingParts(s, t, pred);
    assert Weights(a + b) == Weights(a) + Weights(b);
    SumParts(Weights(a), Weights(b));
  }

  lemma {:induction false} RemoveOne(a: seq<Event>, x: Event, b: seq<Event>, c: seq<Event>)
    requires multiset(a + [x]) == multiset(b + ([x] + c))
    ensures multiset(a) == multiset(b + c)
  {
    assert multiset(a) == multiset(a + [x]) - multiset{x};
    assert multiset(b + c) == multiset(b + ([x] + c)) - multiset{x};
  }

  /** The weighed sum of matching events does not depend on their order. */
  lemma {:induction false} OrderIsIrrelevant(s: seq<Event>, t: seq<Event>, pred: Event -> bool)
    requires multiset(s) == multiset(t)
    ensures Sum(Weights(Matching(s, pred))) == Sum(Weights(Matching(t, pred)))
  {
    if s == [] {
      assert t == [];
    } else {
      var n := |s| - 1;
      assert s == s[..n] + [s[n]];
      assert s[n] in multiset(t);
      var i :| 0 <= i < |t| && t[i] == s[n];
      var rest := t[..i] + t[i + 1..];
      assert t == t[..i] + ([s[n]] + t[i + 1..]);
      RemoveOne(s[..n], s[n], t[..i], t[i + 1..]);
      OrderIsIrrelevant(s[..n], rest, pred);
      WeighedParts(s[..n], [s[n]], pred);
      WeighedParts(t[..i], [s[n]] + t[i + 1..], pred);
      WeighedParts([s[n]], t[i + 1..], pred);
      WeighedParts(t[..i], t[i + 1..], pred);
    }
  }

  /** The flood verdict is the full sum over the listed rows in any order, although the loop stops early. */
  lemma {:induction false} FloodVerdict(rows: seq<EventRow>, e: Event, listed: seq<Event>)
    requires FloodEligible(e) && !FloodSuppressed(rows, e)
    requires multiset(listed) == multiset(Newest(rows, Some(NetworkEvent), FLOOD_LIMIT))
    ensures EnrichFlood(rows, e).eventType == WafDos
      <==> 1 + Sum(Weights(Matching(listed, (p: Event) => FloodMatch(e, p)))) >= FLOOD_MIN
  {
    var pred := (p: Event) => FloodMatch(e, p);
    var newest := Newest(rows, Some(NetworkEvent), FLOOD_LIMIT);
    SortRecentSorted(newest);
    OrderIsIrrelevant(listed, SortRecent(newest), pred);
    assert FloodEvidence(rows, e) == Matching(SortRecent(newest), pred);
  }

  /** An inferred flood reports the shortest run of evidence that reaches the threshold. */
  lemma {:induction false} FloodReportsShortest(rows: seq<EventRow>, e: Event)
    requires EnrichFlood(rows, e) != e
    ensures var found := FloodEvidence(rows, e);
      exists k :: 0 <= k <= |found|
        && EnrichFlood(rows, e).attributes.count == Some(1 + Sum(Weights(found[..k])))
        && EnrichFlood(rows, e).attributes.relatedEventIds == OwnId(e) + NamedIds(found[..k])
        && 1 + Sum(Weights(found[..k])) >= FLOOD_MIN
        && forall j :: 0 <= j < k ==> 1 + Sum(Weights(found[..j])) < FLOOD_MIN
  {
    var found := FloodEvidence(rows, e);
    var k := Shortest(Weights(found), FLOOD_MIN - 1);
    ShortestReaches(Weights(found), FLOOD_MIN - 1);
    PrefixWeights(found, k);
    forall j | 0 <= j < k
      ensures 1 + Sum(Weights(found[..j])) < FLOOD_MIN
    {
      PrefixWeights(found, j);
    }
  }

  /** The scan verdict, and what an inferred scan reports. */
  lemma {:induction false} ScanVerdict(k: ScanKind, rows: seq<EventRow>, e: Event)
    requires ScanEligible(k, e) && !ScanSuppressed(k, rows, e)
    ensures var ports, r := Ports(e, ScanEvidence(k, rows, e)), EnrichScan(k, rows, e);
      && (r.eventType == NetworkScan <==> |ports| >= SCAN_MIN_PORTS)
      && (r.eventType == NetworkScan ==>
            && StrictlyIncreasing(r.attributes.destinationPorts)
            && (forall x :: x in r.attributes.destinationPorts <==> x in ports)
            && r.attributes.uniqueDestinationPortCount == Some(|r.attributes.destinationPorts|))
  {
    AscendingFacts(Ports(e, ScanEvidence(k, rows, e)));
  }

  // ---------- Failed-login incidents ----------

  lemma {:induction false} OnlyLoginRule(i: nat)
    requires i < |RULES|
    ensures AuthFailedLogin in RULES[i].eventTypes <==> i == 2
  {
  }

  lemma {:induction false} LoginRule(e: Event)
    requires e.eventType == AuthFailedLogin
    ensures FirstRule(e, RULES) == if AtLeast(e.attributes.count, 3) then Some(RULES[2]) else None
  {
    assert MatchesRule(e, RULES[2]) <==> Holds(RULES[2].conditions[0], e.attributes);
    forall i | 0 <= i < |RULES|
      ensures MatchesRule(e, RULES[i]) ==> i == 2
    {
      OnlyLoginRule(i);
    }
    OnlyMatch(e, RULES, 2);
  }

  /** If only rule k can match, it decides. */
  lemma {:induction false} OnlyMatch(e: Event, rules: seq<Rule>, k: nat)
    requires k < |rules| && forall i :: 0 <= i < |rules| && MatchesRule(e, rules[i]) ==> i == k
    ensures FirstRule(e, rules) == if MatchesRule(e, rules[k]) then Some(rules[k]) else None
  {
    var r := FirstRule(e, rules);
    if r.Some? {
      var i :| 0 <= i < |rules| && rules[i] == r.value;
      assert i == k;
    } else {
      assert rules[k] in rules;
    }
  }

  lemma {:induction false} LoginCount(rows: seq<EventRow>, e: Event)
    requires e.eventType == AuthFailedLogin
    ensures AtLeast(EnrichLogin(rows, e).attributes.count, 3)
      <==> Weight(e) + Sum(Weights(EarlierLogins(rows, e))) >= LOGIN_MIN
    ensures EnrichLogin(rows, e).eventType == AuthFailedLogin
  {
    var found := EarlierLogins(rows, e);
    ShortestReaches(Weights(found), LOGIN_MIN - Weight(e));
    PrefixWeights(found, Shortest(Weights(found), LOGIN_MIN - Weight(e)));
  }

  lemma {:induction false} StoredLogin(s: State, e: Event, incidentId: string, now: int)
    requires e.eventType == AuthFailedLogin
    requires !HasEvent(s.events, e.id) && !HasIncident(s.incidents, incidentId)
    ensures StoreAndDetect(s, e, incidentId, now).incidents
      == if AtLeast(e.attributes.count, 3)
         then s.incidents + [IncidentRowOf(NewIncident(e, RULES[2], incidentId, now))] else s.incidents
  {
    LoginRule(e);
  }

  /** An accepted failed login opens a brute-force incident exactly when the counts reach three. */
  lemma {:induction false} LoginIncident(s: State, raw: Event, freshId: string, incidentId: string, now: int)
    requires raw.eventType == AuthFailedLogin
    requires !HasEvent(s.events, Identified(raw, freshId).id) && !HasIncident(s.incidents, incidentId)
    ensures var e := Identified(raw, freshId);
      Apply(s, Ingest(raw, freshId, incidentId, now)).incidents
      == if Weight(e) + Sum(Weights(EarlierLogins(s.events, e))) >= LOGIN_MIN
         then s.incidents + [IncidentRowOf(NewIncident(EnrichLogin(s.events, e), RULES[2], incidentId, now))]
         else s.incidents
    ensures RULES[2].id == RepeatedFailedLogin
  {
    var e := Identified(raw, freshId);
    OneEnricherApplies(s.events, e);
    EnrichKeepsIdentity(s.events, e);
    LoginCount(s.events, e);
    StoredLogin(s, EnrichLogin(s.events, e), incidentId, now);
  }

  // ---------- Incident records ----------

  function LastStatus(timeline: seq<TimelineItem>): Status {
    if timeline == [] then Open
    else
      var n := |timeline| - 1;
      if timeline[n].status.Some? then timeline[n].status.value else LastStatus(timeline[..n])
  }

  /** Columns equal the payload, ids are unique, and the status is the last one on the timeline. */
  ghost predicate Consistent(rows: seq<IncidentRow>) {
    && (forall i :: 0 <= i < |rows| ==> rows[i] == IncidentRowOf(rows[i].payload))
    && (forall i, j :: 0 <= i < j < |rows| ==> rows[i].id != rows[j].id)
    && (forall i :: 0 <= i < |rows| ==> rows[i].payload.status == LastStatus(rows[i].payload.timeline))
  }

  lemma {:induction false} NotesKeepStatus(timeline: seq<TimelineItem>, notes: seq<TimelineItem>)
    requires forall i :: 0 <= i < |notes| ==> notes[i].status.None?
    ensures LastStatus(timeline + notes) == LastStatus(timeline)
  {
    if notes == [] {
      assert timeline + notes == timeline;
    } else {
      var n := |notes| - 1;
      assert (timeline + notes)[..|timeline + notes| - 1] == timeline + notes[..n];
      NotesKeepStatus(timeline, notes[..n]);
    }
  }

  lemma {:induction false} TriageKeepsStatus(p: Incident, t: TriagePatch, now: int)
    requires p.status == LastStatus(p.timeline)
    ensures PatchTriage(p, t, now).status == LastStatus(PatchTriage(p, t, now).timeline)
  {
    NotesKeepStatus(p.timeline, TriageNotes(p, t, now));
  }

  lemma {:induction false} UpdateKeepsConsistent(rows: seq<IncidentRow>, p: Incident)
    requires Consistent(rows) && p.status == LastStatus(p.timeline)
    requires forall i :: 0 <= i < |rows| && rows[i].id == p.id ==> rows[i].ruleId == p.ruleId
    ensures Consistent(UpdateRows(rows, p))
  {
    var r := UpdateRows(rows, p);
    forall i | 0 <= i < |r|
      ensures r[i] == IncidentRowOf(r[i].payload) && r[i].id == rows[i].id
      ensures r[i].payload.status == LastStatus(r[i].payload.timeline)
    {
      assert r[i] == UpdateRow(rows[i], p);
    }
  }

  lemma {:induction false} FoundRow(rows: seq<IncidentRow>, id: string) returns (k: nat)
    requires Consistent(rows) && FindIncident(rows, id).Some?
    ensures k < |rows| && rows[k].payload == FindIncident(rows, id).value && rows[k].id == id
    ensures forall i :: 0 <= i < |rows| && rows[i].id == id ==> i == k
  {
    k :| 0 <= k < |rows| && rows[k].id == id && rows[k].payload == FindIncident(rows, id).value;
  }

  lemma {:induction false} AddKeepsConsistent(rows: seq<IncidentRow>, e: Event, rule: Rule, id: string, now: int)
    requires Consistent(rows) && !HasIncident(rows, id)
    ensures Consistent(rows + [IncidentRowOf(NewIncident(e, rule, id, now))])
  {
  }

  lemma {:induction false} StoreKeepsConsistent(s: State, e: Event, id: string, now: int)
    requires Consistent(s.incidents)
    ensures Consistent(StoreAndDetect(s, e, id, now).incidents)
  {
    if FirstRule(e, RULES).Some? && !HasIncident(s.incidents, id) {
      AddKeepsConsistent(s.incidents, e, FirstRule(e, RULES).value, id, now);
    }
  }

  lemma {:induction false} StatusKeepsConsistent(rows: seq<IncidentRow>, id: string, status: Status, now: int)
    requires Consistent(rows) && FindIncident(rows, id).Some?
    ensures Consistent(UpdateRows(rows, PatchStatus(FindIncident(rows, id).value, status, now)))
  {
    var k := FoundRow(rows, id);
    UpdateKeepsConsistent(rows, PatchStatus(rows[k].payload, status, now));
  }

  lemma {:induction false} TriageKeepsConsistent(rows: seq<IncidentRow>, id: string, patch: TriagePatch, now: int)
    requires Consistent(rows) && FindIncident(rows, id).Some?
    ensures Consistent(UpdateRows(rows, PatchTriage(FindIncident(rows, id).value, patch, now)))
  {
    var k := FoundRow(rows, id);
    TriageKeepsStatus(rows[k].payload, patch, now);
    UpdateKeepsConsistent(rows, PatchTriage(rows[k].payload, patch, now));
  }

  lemma {:induction false} ApplyKeepsConsistent(s: State, op: Op)
    requires Consistent(s.incidents)
    ensures Consistent(Apply(s, op).incidents)
  {
    match op {
      case Ingest(raw, freshId, incidentId, now) =>
        StoreKeepsConsistent(s, Enrich(s.events, Identified(raw, freshId)), incidentId, now);
      case SetStatus(id, status, now) =>
        if FindIncident(s.incidents, id).Some? {
          StatusKeepsConsistent(s.incidents, id, status, now);
        }
      case Triage(id, patch, now) =>
        if FindIncident(s.incidents, id).Some? {
          TriageKeepsConsistent(s.incidents, id, patch, now);
        }
      case Reset =>
    }
  }

  /** In every reachable state the incident table is consistent. */
  lemma {:induction false} RunsKeepConsistent(ops: seq<Op>)
    ensures Consistent(Run(ops).incidents)
  {
    if ops != [] {
      RunsKeepConsistent(ops[..|ops| - 1]);
      ApplyKeepsConsistent(Run(ops[..|ops| - 1]), ops[|ops| - 1]);
    }
  }

  lemma {:induction false} UpdateGrows(rows: seq<IncidentRow>, q: Incident, k: nat, i: nat)
    requires Consistent(rows) && k < |rows| && i < |rows|
    requires q.id == rows[k].id && rows[k].payload.timeline <= q.timeline
    ensures UpdateRows(rows, q)[i].id == rows[i].id
    ensures rows[i].payload.timeline <= UpdateRows(rows, q)[i].payload.timeline
  {
    assert UpdateRows(rows, q)[i] == UpdateRow(rows[i], q);
    assert rows[i].id == q.id ==> i == k;
  }

  /** Every operation but a reset keeps all incidents and only appends to their timelines. */
  lemma {:induction false} TimelinesOnlyGrow(s: State, op: Op, i: nat)
    requires Consistent(s.incidents) && !op.Reset? && i < |s.incidents|
    ensures i < |Apply(s, op).incidents|
    ensures Apply(s, op).incidents[i].id == s.incidents[i].id
    ensures s.incidents[i].payload.timeline <= Apply(s, op).incidents[i].payload.timeline
  {
    match op {
      case Ingest(raw, freshId, incidentId, now) =>
      case SetStatus(id, status, now) =>
        if FindIncident(s.incidents, id).Some? {
          var k := FoundRow(s.incidents, id);
          UpdateGrows(s.incidents, PatchStatus(s.incidents[k].payload, status, now), k, i);
        }
      case Triage(id, patch, now) =>
        if FindIncident(s.incidents, id).Some? {
          var k := FoundRow(s.incidents, id);
          UpdateGrows(s.incidents, PatchTriage(s.incidents[k].payload, patch, now), k, i);
        }
    }
  }

  // ---------- Listing and metrics ----------

  /** Payloads whose columns pass the filters, newest row first. */
  function ListByColumns(rows: seq<IncidentRow>, status: Option<Status>, severity: Option<string>): seq<Incident> {
    if rows == [] then []
    else
      var last := rows[|rows| - 1];
      (if (status.Some? ==> last.status == status.value) && (severity.Some? ==> last.severity == severity.value)
       then [last.payload] else [])
      + ListByColumns(rows[..|rows| - 1], status, severity)
  }

  predicate Passes(p: Incident, status: Option<Status>, severity: Option<string>) {
    (status.Some? ==> p.status == status.value) && (severity.Some? ==> p.severity == severity.value)
  }

  function FilterPayloads(s: seq<Incident>, status: Option<Status>, severity: Option<string>): seq<Incident> {
    if s == [] then []
    else (if Passes(s[0], status, severity) then [s[0]] else []) + FilterPayloads(s[1..], status, severity)
  }

  /** All payloads, newest row first. */
  ghost function NewestFirst(rows: seq<IncidentRow>): (r: seq<Incident>)
    ensures |r| == |rows|
    ensures forall i :: 0 <= i < |r| ==> r[i] == rows[|rows| - 1 - i].payload
  {
    seq(|rows|, i requires 0 <= i < |rows| => rows[|rows| - 1 - i].payload)
  }

  /** Filtering on the indexed columns is filtering on the payloads. */
  lemma {:induction false} ColumnsFilterPayloads(rows: seq<IncidentRow>, status: Option<Status>, severity: Option<string>)
    requires Consistent(rows)
    ensures ListByColumns(rows, status, severity) == FilterPayloads(NewestFirst(rows), status, severity)
  {
    if rows != [] {
      var n := |rows| - 1;
      ConsistentFront(rows);
      ColumnsFilterPayloads(rows[..n], status, severity);
      assert NewestFirst(rows)[0] == rows[n].payload && NewestFirst(rows)[1..] == NewestFirst(rows[..n]);
      ColumnsPass(rows[n], status, severity);
    }
  }

  lemma {:induction false} ConsistentFront(rows: seq<IncidentRow>)
    requires Consistent(rows) && rows != []
    ensures Consistent(rows[..|rows| - 1]) && rows[|rows| - 1] == IncidentRowOf(rows[|rows| - 1].payload)
  {
  }

  lemma {:induction false} ColumnsPass(row: IncidentRow, status: Option<Status>, severity: Option<string>)
    requires row == IncidentRowOf(row.payload)
    ensures Passes(row.payload, status, severity)
      <==> (status.Some? ==> row.status == status.value) && (severity.Some? ==> row.severity == severity.value)
  {
  }

  predicate Terminal(s: Status) {
    s.Contained? || s.Resolved? || s.FalsePositive?
  }

  function TerminalTimes(timeline: seq<TimelineItem>): seq<int> {
    if timeline == [] then []
    else
      var n := |timeline| - 1;
      TerminalTimes(timeline[..n]) +
      if timeline[n].status.Some? && Terminal(timeline[n].status.value) then [timeline[n].occurredAt] else []
  }

  function MinOf(s: seq<int>): (m: int)
    requires s != []
    ensures m in s && forall x :: x in s ==> m <= x
  {
    if |s| == 1 then s[0]
    else
      assert s == [s[0]] + s[1..];
      var m := MinOf(s[1..]);
      if s[0] < m then s[0] else m
  }

  /** Milliseconds from creation to the first terminal status. */
  function MttrMs(p: Incident): Option<int> {
    if !Terminal(p.status) || TerminalTimes(p.timeline) == [] then None
    else
      var d := (MinOf(TerminalTimes(p.timeline)) - p.createdAt) * 1000;
      Some(if d > 0 then d else 0)
  }

  lemma {:induction false} TerminalLeavesTime(timeline: seq<TimelineItem>)
    requires Terminal(LastStatus(timeline))
    ensures TerminalTimes(timeline) != []
  {
    var n := |timeline| - 1;
    if timeline[n].status.None? {
      TerminalLeavesTime(timeline[..n]);
    }
  }

  /** In every reachable state the time to respond is known exactly for terminal incidents. */
  lemma {:induction false} MttrKnownIffTerminal(ops: seq<Op>, i: nat)
    ensures i < |Run(ops).incidents| ==>
      (MttrMs(Run(ops).incidents[i].payload).Some? <==> Terminal(Run(ops).incidents[i].status))
  {
    RunsKeepConsistent(ops);
    if i < |Run(ops).incidents| && Terminal(Run(ops).incidents[i].payload.status) {
      TerminalLeavesTime(Run(ops).incidents[i].payload.timeline);
    }
  }

  // ---------- Deduplication of floods ----------

  ghost predicate OpenFlood(row: IncidentRow) {
    && row.status == Open && row.ruleId == FortiwebDosActivity
    && row.payload.attributes.attackType == Some(HttpFlood)
    && Present(row.payload.attributes.integrationId) && Present(row.payload.attributes.sourceIp)
    && Present(row.payload.attributes.destinationIp) && row.payload.attributes.destinationPort.Some?
  }

  ghost predicate Conflict(a: IncidentRow, b: IncidentRow) {
    OpenFlood(a) && OpenFlood(b) && a.payload.attributes == b.payload.attributes
  }

  /** At most one open flood incident per complete flow and port. */
  ghost predicate Deduped(rows: seq<IncidentRow>) {
    forall i, j :: 0 <= i < j < |rows| ==> !Conflict(rows[i], rows[j])
  }

  /** An open incident for the flow of a new one makes the event a duplicate. */
  lemma {:induction false} ConflictIsDuplicate(row: IncidentRow, e: Event, rule: Rule, id: string, now: int)
    requires row == IncidentRowOf(row.payload) && Conflict(row, IncidentRowOf(NewIncident(e, rule, id, now)))
    ensures Deduplicated(e, rule.id) && Duplicates(e, row.payload) && row.status == Open
  {
  }

  lemma {:induction false} NewIncidentHasNoTwin(rows: seq<IncidentRow>, e: Event, rule: Rule, id: string, now: int, i: nat)
    requires Consistent(rows) && !HasOpenDuplicate(rows, e, rule.id) && i < |rows|
    ensures !Conflict(rows[i], IncidentRowOf(NewIncident(e, rule, id, now)))
  {
    if Conflict(rows[i], IncidentRowOf(NewIncident(e, rule, id, now))) {
      ConflictIsDuplicate(rows[i], e, rule, id, now);
    }
  }

  lemma {:induction false} AppendKeepsDeduped(rows: seq<IncidentRow>, row: IncidentRow)
    requires Deduped(rows) && forall i :: 0 <= i < |rows| ==> !Conflict(rows[i], row)
    ensures Deduped(rows + [row])
  {
  }

  lemma {:induction false} StoreKeepsDeduped(s: State, e: Event, id: string, now: int)
    requires Consistent(s.incidents) && Deduped(s.incidents)
    ensures Deduped(StoreAndDetect(s, e, id, now).incidents)
  {
    var rows, rule := s.incidents, FirstRule(e, RULES);
    if rule.Some? && !HasOpenDuplicate(rows, e, rule.value.id) {
      forall i | 0 <= i < |rows|
        ensures !Conflict(rows[i], IncidentRowOf(NewIncident(e, rule.value, id, now)))
      {
        NewIncidentHasNoTwin(rows, e, rule.value, id, now, i);
      }
      AppendKeepsDeduped(rows, IncidentRowOf(NewIncident(e, rule.value, id, now)));
    }
  }

  /** The patch opens an incident beside another open one for the same flow. */
  ghost predicate ReopensTwin(rows: seq<IncidentRow>, id: string, status: Status) {
    exists k, j :: 0 <= k < |rows| && 0 <= j < |rows| && j != k && rows[k].id == id && status == Open
      && Conflict(rows[k].(status := Open), rows[j])
  }

  /** A status patch keeps the invariant exactly if it reopens no flood that has an open twin. */
  lemma {:induction false} StatusKeepsDeduped(rows: seq<IncidentRow>, id: string, status: Status, now: int)
    requires Consistent(rows) && Deduped(rows) && FindIncident(rows, id).Some?
    ensures Deduped(UpdateRows(rows, PatchStatus(FindIncident(rows, id).value, status, now)))
      <==> !ReopensTwin(rows, id, status)
  {
    var k := FoundRow(rows, id);
    var q := PatchStatus(rows[k].payload, status, now);
    var after := UpdateRows(rows, q);
    forall i | 0 <= i < |rows|
      ensures after[i] == if i == k then IncidentRowOf(q) else rows[i]
    {
      assert after[i] == UpdateRow(rows[i], q);
      assert rows[k] == IncidentRowOf(rows[k].payload);
    }
    forall j | 0 <= j < |rows| && j != k
      ensures Conflict(after[k], after[j]) <==> status == Open && Conflict(rows[k].(status := Open), rows[j])
      ensures Conflict(after[j], after[k]) <==> Conflict(after[k], after[j])
    {
      assert rows[k] == IncidentRowOf(rows[k].payload);
    }
    if ReopensTwin(rows, id, status) {
      var k', j :| 0 <= k' < |rows| && 0 <= j < |rows| && j != k' && rows[k'].id == id && status == Open
        && Conflict(rows[k'].(status := Open), rows[j]);
      assert k' == k && Conflict(after[k], after[j]);
      assert if j < k then Conflict(after[j], after[k]) else Conflict(after[k], after[j]);
    } else {
      forall i, j | 0 <= i < j < |after|
        ensures !Conflict(after[i], after[j])
      {
        assert !Conflict(rows[i], rows[j]);
      }
    }
  }

  lemma {:induction false} TriageKeepsDeduped(rows: seq<IncidentRow>, id: string, patch: TriagePatch, now: int)
    requires Consistent(rows) && Deduped(rows) && FindIncident(rows, id).Some?
    ensures Deduped(UpdateRows(rows, PatchTriage(FindIncident(rows, id).value, patch, now)))
  {
    var k := FoundRow(rows, id);
    var q := PatchTriage(rows[k].payload, patch, now);
    var after := UpdateRows(rows, q);
    forall i, j | 0 <= i < j < |rows|
      ensures !Conflict(after[i], after[j])
    {
      assert after[i] == UpdateRow(rows[i], q) && after[j] == UpdateRow(rows[j], q);
      assert rows[k] == IncidentRowOf(rows[k].payload);
      assert !Conflict(rows[i], rows[j]);
    }
  }

  ghost predicate TwinReopened(s: State, op: Op) {
    op.SetStatus? && ReopensTwin(s.incidents, op.id, op.status)
  }

  lemma {:induction false} ApplyKeepsDeduped(s: State, op: Op)
    requires Consistent(s.incidents) && Deduped(s.incidents)
    ensures Deduped(Apply(s, op).incidents) <==> !TwinReopened(s, op)
  {
    match op {
      case Ingest(raw, freshId, incidentId, now) =>
        StoreKeepsDeduped(s, Enrich(s.events, Identified(raw, freshId)), incidentId, now);
      case SetStatus(id, status, now) =>
        if FindIncident(s.incidents, id).Some? {
          StatusKeepsDeduped(s.incidents, id, status, now);
        }
      case Triage(id, patch, now) =>
        if FindIncident(s.incidents, id).Some? {
          TriageKeepsDeduped(s.incidents, id, patch, now);
        }
      case Reset =>
    }
  }

  /** The invariant holds after every prefix of the run. */
  ghost predicate AlwaysDeduped(ops: seq<Op>) {
    Deduped(Run(ops).incidents) && (ops != [] ==> AlwaysDeduped(ops[..|ops| - 1]))
  }

  ghost predicate NeverReopensTwin(ops: seq<Op>) {
    ops != [] ==>
      !TwinReopened(Run(ops[..|ops| - 1]), ops[|ops| - 1]) && NeverReopensTwin(ops[..|ops| - 1])
  }

  /**
    All along a run, at most one open flood incident exists per flow and port,
    if and only if no status patch of the run reopens an incident that has an open twin.
   */
  lemma {:induction false} DedupedAllAlong(ops: seq<Op>)
    ensures AlwaysDeduped(ops) <==> NeverReopensTwin(ops)
  {
    if ops != [] {
      var n := |ops| - 1;
      DedupedAllAlong(ops[..n]);
      RunsKeepConsistent(ops[..n]);
      if Deduped(Run(ops[..n]).incidents) {
        ApplyKeepsDeduped(Run(ops[..n]), ops[n]);
      }
    }
  }

  /** A patch to open of an incident that is not open. */
  ghost predicate Reopens(s: State, op: Op) {
    op.SetStatus? && op.status == Open
    && FindIncident(s.incidents, op.id).Some? && FindIncident(s.incidents, op.id).value.status != Open
  }

  lemma {:induction false} NoReopenNoTwin(s: State, op: Op)
    requires Consistent(s.incidents) && Deduped(s.incidents) && !Reopens(s, op)
    ensures !TwinReopened(s, op)
  {
    if op.SetStatus? && FindIncident(s.incidents, op.id).Some? && op.status == Open {
      var rows := s.incidents;
      var k := FoundRow(rows, op.id);
      assert rows[k] == IncidentRowOf(rows[k].payload);
      assert rows[k].(status := Open) == rows[k];
      forall j | 0 <= j < |rows| && j != k
        ensures !Conflict(rows[k], rows[j])
      {
        assert if j < k then !Conflict(rows[j], rows[k]) else !Conflict(rows[k], rows[j]);
      }
    }
  }

  ghost predicate NeverReopens(ops: seq<Op>) {
    ops != [] ==> !Reopens(Run(ops[..|ops| - 1]), ops[|ops| - 1]) && NeverReopens(ops[..|ops| - 1])
  }

  /** A run that never patches a closed incident back to open stays deduplicated. */
  lemma {:induction false} DedupedWithoutReopening(ops: seq<Op>)
    requires NeverReopens(ops)
    ensures AlwaysDeduped(ops)
  {
    if ops != [] {
      var n := |ops| - 1;
      DedupedWithoutReopening(ops[..n]);
      RunsKeepConsistent(ops[..n]);
      NoReopenNoTwin(Run(ops[..n]), ops[n]);
      ApplyKeepsDeduped(Run(ops[..n]), ops[n]);
    }
  }

  lemma {:induction false} RunStep(ops: seq<Op>, op: Op)
    ensures Run(ops + [op]) == Apply(Run(ops), op)
  {
    assert (ops + [op])[..|ops + [op]| - 1] == ops;
  }

  lemma {:induction false} OnlyDosRule(i: nat)
    requires i < |RULES|
    ensures WafDos in RULES[i].eventTypes <==> i == 8
  {
  }

  lemma {:induction false} DosRule(e: Event)
    requires e.eventType == WafDos
    ensures FirstRule(e, RULES) == Some(RULES[8])
    ensures RULES[8].id == FortiwebDosActivity
  {
    forall i | 0 <= i < |RULES|
      ensures MatchesRule(e, RULES[i]) ==> i == 8
    {
      OnlyDosRule(i);
    }
    OnlyMatch(e, RULES, 8);
  }

  function FloodReport(id: string): Event {
    Event(id, WafDos, "critical", 0, 0, Entities(None, None, None, None, None),
          Attributes(Some("fw"), Some("198.51.100.7"), Some("192.0.2.1"), None, None, Some(443), None, None, None,
                     Some(HttpFlood), None, [], None, None, [], [], None, None, false, false, false))
  }

  function FloodIncident(id: string, incidentId: string, now: int): Incident {
    NewIncident(FloodReport(id), RULES[8], incidentId, now)
  }

  /** A reported flood opens an incident if no incident is open. */
  lemma {:induction false} ReportStored(s: State, id: string, incidentId: string, now: int)
    requires !HasEvent(s.events, id) && !HasIncident(s.incidents, incidentId)
    requires forall i :: 0 <= i < |s.incidents| ==> s.incidents[i].status != Open
    ensures StoreAndDetect(s, FloodReport(id), incidentId, now)
      == State(s.events + [RowOf(FloodReport(id))],
               s.incidents + [IncidentRowOf(FloodIncident(id, incidentId, now))])
  {
    DosRule(FloodReport(id));
  }

  lemma {:induction false} ReportIngested(s: State, id: string, incidentId: string, now: int)
    requires id != "" && !HasEvent(s.events, id) && !HasIncident(s.incidents, incidentId)
    requires forall i :: 0 <= i < |s.incidents| ==> s.incidents[i].status != Open
    ensures Apply(s, Ingest(FloodReport(id), "x", incidentId, now))
      == State(s.events + [RowOf(FloodReport(id))],
               s.incidents + [IncidentRowOf(FloodIncident(id, incidentId, now))])
  {
    ReportStored(s, id, incidentId, now);
    OneEnricherApplies(s.events, FloodReport(id));
  }

  lemma {:induction false} FirstPatched(s: State, id: string, status: Status, now: int)
    requires s.incidents != [] && s.incidents[0].id == id && s.incidents[0] == IncidentRowOf(s.incidents[0].payload)
    requires forall i :: 0 < i < |s.incidents| ==> s.incidents[i].id != id
    ensures FindIncident(s.incidents, id) == Some(s.incidents[0].payload)
    ensures Apply(s, SetStatus(id, status, now))
      == s.(incidents := [IncidentRowOf(PatchStatus(s.incidents[0].payload, status, now))] + s.incidents[1..])
  {
    var rows, q := s.incidents, PatchStatus(s.incidents[0].payload, status, now);
    assert FindIncident(rows, id) == Some(rows[0].payload);
    forall i | 0 <= i < |rows|
      ensures UpdateRows(rows, q)[i] == ([IncidentRowOf(q)] + rows[1..])[i]
    {
      assert UpdateRows(rows, q)[i] == UpdateRow(rows[i], q);
    }
  }

  lemma {:induction false} ReachReport(ops0: seq<Op>, s: State, id: string, incidentId: string, now: int)
      returns (ops: seq<Op>)
    requires Run(ops0) == s && id != "" && !HasEvent(s.events, id) && !HasIncident(s.incidents, incidentId)
    requires forall i :: 0 <= i < |s.incidents| ==> s.incidents[i].status != Open
    ensures Run(ops) == State(s.events + [RowOf(FloodReport(id))],
                              s.incidents + [IncidentRowOf(FloodIncident(id, incidentId, now))])
  {
    ops := ops0 + [Ingest(FloodReport(id), "x", incidentId, now)];
    RunStep(ops0, Ingest(FloodReport(id), "x", incidentId, now));
    ReportIngested(s, id, incidentId, now);
  }

  lemma {:induction false} ReachPatched(ops0: seq<Op>, s: State, id: string, status: Status, now: int)
      returns (ops: seq<Op>)
    requires Run(ops0) == s && s.incidents != [] && s.incidents[0].id == id
    requires s.incidents[0] == IncidentRowOf(s.incidents[0].payload)
    requires forall i :: 0 < i < |s.incidents| ==> s.incidents[i].id != id
    ensures Run(ops) == s.(incidents :=
      [IncidentRowOf(PatchStatus(s.incidents[0].payload, status, now))] + s.incidents[1..])
    ensures ops == ops0 + [SetStatus(id, status, now)]
  {
    ops := ops0 + [SetStatus(id, status, now)];
    RunStep(ops0, SetStatus(id, status, now));
    FirstPatched(s, id, status, now);
  }

  function ResolvedIncident(): Incident {
    PatchStatus(FloodIncident("e1", "i1", 0), Resolved, 1)
  }

  /** A run can report a flood, resolve its incident, and report the flood again. */
  lemma {:induction false} ReachTwoReports() returns (ops: seq<Op>, s: State)
    ensures Run(ops) == s
    ensures s.incidents == [IncidentRowOf(ResolvedIncident()), IncidentRowOf(FloodIncident("e2", "i2", 2))]
  {
    ops, s := [], NO_ROWS;
    ops := ReachReport(ops, s, "e1", "i1", 0);
    s := State([RowOf(FloodReport("e1"))], [IncidentRowOf(FloodIncident("e1", "i1", 0))]);
    ops := ReachPatched(ops, s, "i1", Resolved, 1);
    s := s.(incidents := [IncidentRowOf(ResolvedIncident())]);
    ops := ReachReport(ops, s, "e2", "i2", 2);
    s := Run(ops);
  }

  lemma {:induction false} TwoOpen()
    ensures Conflict(IncidentRowOf(PatchStatus(ResolvedIncident(), Open, 3)),
                     IncidentRowOf(FloodIncident("e2", "i2", 2)))
  {
    DosRule(FloodReport("e1"));
  }

  /** Reopening can break it: after two reports, reopening the first incident leaves two open ones. */
  lemma {:induction false} ReopeningBreaksDeduplication()
    ensures exists ops, op :: Reopens(Run(ops), op) && !Deduped(Run(ops + [op]).incidents)
  {
    var ops, s := ReachTwoReports();
    var op := SetStatus("i1", Open, 3);
    FirstPatched(s, "i1", Open, 3);
    assert Reopens(Run(ops), op);
    var after := ReachPatched(ops, s, "i1", Open, 3);
    TwoOpen();
    assert Conflict(Run(after).incidents[0], Run(after).incidents[1]);
  }
}
