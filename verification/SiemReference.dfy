/**
  What ingestion does, said again in terms of the fields of events and the
  indices of rows, with every value and limit written out.  The statements do not
  use the helper functions of the model; the lemmas show that the model meets them.
 */
module SiemReference {
  import opened Wrappers
  import opened Sorting
  import opened SiemModel
  import opened SiemTheorems

  // ---------- Values of an event ----------

  /** The first of two texts, if it is present and not empty, else the second, is v. */
  ghost predicate ValueIs(first: Text, second: Text, v: string) {
    if first.Some? && first.value != "" then first.value == v else second == Some(v)
  }

  ghost predicate FlowIs(p: Event, integration: string, source: string, destination: string) {
    && ValueIs(p.attributes.integrationId, p.entities.integrationId, integration)
    && ValueIs(p.attributes.sourceIp, p.entities.sourceIp, source)
    && ValueIs(p.attributes.destinationIp, p.entities.destinationIp, destination)
  }

  /** The event tells integration, source, destination and port. */
  ghost predicate KeyIs(e: Event, integration: string, source: string, destination: string, port: int) {
    && integration != "" && source != "" && destination != ""
    && FlowIs(e, integration, source, destination) && e.attributes.destinationPort == Some(port)
  }

  ghost predicate OneOf(text: string, names: seq<string>) {
    exists k :: 0 <= k < |names| && SameIgnoringCase(text, names[k])
  }

  const FORWARDED := ["accept", "allow", "allowed", "close", "client-rst", "server-rst", "timeout"]

  ghost predicate WasForwarded(p: Event) {
    p.attributes.action.Some? && OneOf(p.attributes.action.value, FORWARDED)
  }

  ghost predicate IsHttp(p: Event) {
    || (p.attributes.service.Some? && OneOf(p.attributes.service.value, ["http", "https"]))
    || (p.attributes.destinationPort.Some?
        && (p.attributes.destinationPort.value == 80 || p.attributes.destinationPort.value == 443
            || p.attributes.destinationPort.value == 8080 || p.attributes.destinationPort.value == 8443))
  }

  lemma {:induction false} FlowMeaning(e: Event, p: Event, integration: string, source: string, destination: string)
    requires integration != "" && source != "" && destination != "" && FlowIs(e, integration, source, destination)
    ensures SameNetworkFlow(e, p) <==> FlowIs(p, integration, source, destination)
    ensures IntegrationOf(e) == Some(integration) && SourceOf(e) == Some(source) && DestinationOf(e) == Some(destination)
  {
  }

  lemma {:induction false} KeyMeaning(e: Event)
    ensures FullKey(e) <==>
      exists integration, source, destination, port :: KeyIs(e, integration, source, destination, port)
  {
    if FullKey(e) {
      assert KeyIs(e, IntegrationOf(e).value, SourceOf(e).value, DestinationOf(e).value,
                   e.attributes.destinationPort.value);
    }
  }

  lemma {:induction false} ForwardedMeaning(p: Event)
    ensures Forwarded(p) <==> WasForwarded(p)
  {
    if p.attributes.action.Some? {
      var text := p.attributes.action.value;
      forall k | 0 <= k < |FORWARDED|
        ensures Lower(text) == FORWARDED[k] <==> SameIgnoringCase(text, FORWARDED[k])
      {
        LowerIs(text, FORWARDED[k]);
      }
      var f := FORWARDED;
      assert Forwarded(p) <==>
        (Lower(text) == f[0] || Lower(text) == f[1] || Lower(text) == f[2] || Lower(text) == f[3] || Lower(text) == f[4]
         || Lower(text) == f[5] || Lower(text) == f[6]);
    }
  }

  lemma {:induction false} HttpMeaning(p: Event)
    ensures HttpFlow(p) <==> IsHttp(p)
  {
    if p.attributes.service.Some? {
      var text, names := p.attributes.service.value, ["http", "https"];
      LowerIs(text, names[0]);
      LowerIs(text, names[1]);
      assert names[0] == "http" && names[1] == "https";
    }
  }

  // ---------- Listed rows ----------

  /** Row j is of the type, and fewer than `limit` rows of the type came after it. */
  ghost predicate ListedRow(rows: seq<EventRow>, t: EventType, limit: nat, j: int) {
    0 <= j < |rows| && rows[j].eventType == t && |LaterOfType(rows, Some(t), j)| < limit
  }

  /** What a row counts for: its count, but at least one. */
  ghost function CountsFor(p: Event): nat {
    if p.attributes.count.Some? && p.attributes.count.value >= 1 then p.attributes.count.value else 1
  }

  /** Total of the listed rows below index n that satisfy pred. */
  ghost function ListedTotal(rows: seq<EventRow>, t: EventType, limit: nat, pred: Event -> bool, n: nat): nat
    requires n <= |rows|
  {
    if n == 0 then 0
    else
      ListedTotal(rows, t, limit, pred, n - 1)
      + if ListedRow(rows, t, limit, n - 1) && pred(rows[n - 1].payload) then CountsFor(rows[n - 1].payload) else 0
  }

  lemma {:induction false} ListedFront(rows: seq<EventRow>, t: EventType, limit: nat, j: int)
    requires rows != [] && limit > 0 && 0 <= j < |rows| - 1
    ensures var n := |rows| - 1;
      ListedRow(rows, t, limit, j)
      <==> ListedRow(rows[..n], t, if rows[n].eventType == t then limit - 1 else limit, j)
  {
    LaterFront(rows, Some(t), j);
  }

  lemma {:induction false} TotalOfFront(rows: seq<EventRow>, t: EventType, limit: nat, pred: Event -> bool, m: nat)
    requires rows != [] && limit > 0 && m < |rows|
    ensures var n := |rows| - 1;
      ListedTotal(rows, t, limit, pred, m)
      == ListedTotal(rows[..n], t, if rows[n].eventType == t then limit - 1 else limit, pred, m)
  {
    if m > 0 {
      TotalOfFront(rows, t, limit, pred, m - 1);
      ListedFront(rows, t, limit, m - 1);
    }
  }

  lemma {:induction false} TotalWithoutLimit(rows: seq<EventRow>, t: EventType, pred: Event -> bool, m: nat)
    requires m <= |rows|
    ensures ListedTotal(rows, t, 0, pred, m) == 0
  {
    if m > 0 {
      TotalWithoutLimit(rows, t, pred, m - 1);
    }
  }

  lemma {:induction false} OneListed(p: Event, s: seq<Event>, pred: Event -> bool)
    ensures Sum(Weights(Matching([p] + s, pred))) == (if pred(p) then CountsFor(p) else 0) + Sum(Weights(Matching(s, pred)))
  {
    WeighedParts([p], s, pred);
    assert [p][..0] == [];
    assert Matching([p], pred) == if pred(p) then [p] else [];
    if pred(p) {
      assert Weights([p]) == [Weight(p)] && Weights([p])[1..] == [];
    }
  }

  lemma {:induction false} TotalStep(rows: seq<EventRow>, t: EventType, limit: nat, pred: Event -> bool)
    requires rows != [] && limit > 0
    ensures var n := |rows| - 1;
      ListedTotal(rows, t, limit, pred, |rows|)
      == if rows[n].eventType == t
         then ListedTotal(rows[..n], t, limit - 1, pred, n)
              + (if pred(rows[n].payload) then CountsFor(rows[n].payload) else 0)
         else ListedTotal(rows[..n], t, limit, pred, n)
  {
    LastHasNoneLater(rows, Some(t));
    TotalOfFront(rows, t, limit, pred, |rows| - 1);
  }

  ghost function ListingWeight(rows: seq<EventRow>, t: EventType, limit: nat, pred: Event -> bool): nat {
    Sum(Weights(Matching(Newest(rows, Some(t), limit), pred)))
  }

  lemma {:induction false} ListingWeightStep(rows: seq<EventRow>, t: EventType, limit: nat, pred: Event -> bool)
    requires rows != [] && limit > 0
    ensures var n := |rows| - 1;
      ListingWeight(rows, t, limit, pred)
      == if rows[n].eventType == t
         then ListingWeight(rows[..n], t, limit - 1, pred)
              + (if pred(rows[n].payload) then CountsFor(rows[n].payload) else 0)
         else ListingWeight(rows[..n], t, limit, pred)
  {
    var n := |rows| - 1;
    if rows[n].eventType == t {
      OneListed(rows[n].payload, Newest(rows[..n], Some(t), limit - 1), pred);
    }
  }

  lemma {:induction false} NothingListed(rows: seq<EventRow>, t: EventType, pred: Event -> bool, limit: nat)
    requires rows == [] || limit == 0
    ensures ListingWeight(rows, t, limit, pred) == 0 == ListedTotal(rows, t, limit, pred, |rows|)
  {
    if limit == 0 {
      TotalWithoutLimit(rows, t, pred, |rows|);
    }
  }

  /** Weighing the matches of the listing is adding up the listed rows that match. */
  lemma {:induction false} ListingTotal(rows: seq<EventRow>, t: EventType, limit: nat, pred: Event -> bool)
    ensures ListingWeight(rows, t, limit, pred) == ListedTotal(rows, t, limit, pred, |rows|)
  {
    if rows == [] || limit == 0 {
      NothingListed(rows, t, pred, limit);
    } else {
      var n := |rows| - 1;
      TotalStep(rows, t, limit, pred);
      ListingWeightStep(rows, t, limit, pred);
      ListingTotal(rows[..n], t, if rows[n].eventType == t then limit - 1 else limit, pred);
    }
  }

  lemma {:induction false} ListingMembers(rows: seq<EventRow>, t: EventType, limit: nat, p: Event)
    ensures p in Newest(rows, Some(t), limit) <==> exists j :: ListedRow(rows, t, limit, j) && rows[j].payload == p
  {
    var at := NewestLists(rows, Some(t), limit);
    var r := Newest(rows, Some(t), limit);
    if p in r {
      var k :| 0 <= k < |r| && r[k] == p;
      assert ListedRow(rows, t, limit, at[k]);
    }
    if j :| ListedRow(rows, t, limit, j) && rows[j].payload == p {
      assert j in at;
      var k :| 0 <= k < |at| && at[k] == j;
      assert r[k] == p;
    }
  }

  lemma {:induction false} MatchingSame(s: seq<Event>, p: Event -> bool, q: Event -> bool)
    requires forall e :: p(e) <==> q(e)
    ensures Matching(s, p) == Matching(s, q)
  {
    if s != [] {
      MatchingSame(s[..|s| - 1], p, q);
    }
  }

  // ---------- HTTP floods ----------

  ghost predicate InWindow(p: Event, e: Event, seconds: int) {
    e.occurredAt - seconds <= p.occurredAt && p.occurredAt <= e.occurredAt
  }

  /** An event of the last minute, for the same flow and port, that was let through. */
  ghost function FloodEvidenceFor(e: Event, i: string, s: string, d: string, port: int): Event -> bool {
    (p: Event) => p.id != e.id && InWindow(p, e, 60) && FlowIs(p, i, s, d)
      && p.attributes.destinationPort == Some(port) && WasForwarded(p)
  }

  /** One of the 50 newest DoS rows is an inferred flood of the flow and port within five minutes before. */
  ghost predicate FloodSeen(rows: seq<EventRow>, e: Event, i: string, s: string, d: string, port: int) {
    exists j :: ListedRow(rows, WafDos, 50, j) && InWindow(rows[j].payload, e, 300)
      && rows[j].payload.attributes.attackType == Some(HttpFlood)
      && rows[j].payload.attributes.ingestionMode == Some(FlowInference)
      && rows[j].payload.attributes.integrationId == Some(i) && rows[j].payload.attributes.sourceIp == Some(s)
      && rows[j].payload.attributes.destinationIp == Some(d)
      && rows[j].payload.attributes.destinationPort == Some(port)
  }

  lemma {:induction false} FloodSeenMeaning(rows: seq<EventRow>, e: Event, i: string, s: string, d: string, port: int)
    requires KeyIs(e, i, s, d, port)
    ensures FloodSuppressed(rows, e) <==> FloodSeen(rows, e, i, s, d, port)
  {
    FlowMeaning(e, e, i, s, d);
    var recent := Newest(rows, Some(WafDos), SUPPRESSION_LIMIT);
    if FloodSuppressed(rows, e) {
      var k :| 0 <= k < |recent| && Within(recent[k], e.occurredAt - FLOOD_SUPPRESSION, e.occurredAt)
        && FloodRow(e, recent[k]);
      ListingMembers(rows, WafDos, SUPPRESSION_LIMIT, recent[k]);
    }
    if j :| ListedRow(rows, WafDos, 50, j) && InWindow(rows[j].payload, e, 300) && FloodRow(e, rows[j].payload) {
      ListingMembers(rows, WafDos, SUPPRESSION_LIMIT, rows[j].payload);
      var k :| 0 <= k < |recent| && recent[k] == rows[j].payload;
      assert Within(recent[k], e.occurredAt - FLOOD_SUPPRESSION, e.occurredAt) && FloodRow(e, recent[k]);
    }
  }

  lemma {:induction false} FloodEvidenceMeaning(e: Event, i: string, s: string, d: string, port: int, p: Event)
    requires KeyIs(e, i, s, d, port)
    ensures FloodMatch(e, p) <==> FloodEvidenceFor(e, i, s, d, port)(p)
  {
    FlowMeaning(e, p, i, s, d);
    ForwardedMeaning(p);
  }

  /**
    A network event with a full key becomes a flood exactly if it was let
    through, is HTTP, no flood of its flow and port was seen, and it and the
    evidence among the 500 newest network rows count for 100.
   */
  lemma {:induction false} FloodInferred(rows: seq<EventRow>, e: Event, i: string, s: string, d: string, port: int)
    requires e.eventType == NetworkEvent && KeyIs(e, i, s, d, port)
    ensures EnrichFlood(rows, e).eventType == WafDos
      <==> && WasForwarded(e) && IsHttp(e) && !FloodSeen(rows, e, i, s, d, port)
           && 1 + ListedTotal(rows, NetworkEvent, 500, FloodEvidenceFor(e, i, s, d, port), |rows|) >= 100
  {
    ForwardedMeaning(e);
    HttpMeaning(e);
    KeyMeaning(e);
    FloodSeenMeaning(rows, e, i, s, d, port);
    if FloodEligible(e) && !FloodSuppressed(rows, e) {
      var pred := (p: Event) => FloodMatch(e, p);
      var newest := Newest(rows, Some(NetworkEvent), FLOOD_LIMIT);
      FloodVerdict(rows, e, newest);
      forall p
        ensures pred(p) <==> FloodEvidenceFor(e, i, s, d, port)(p)
      {
        FloodEvidenceMeaning(e, i, s, d, port, p);
      }
      MatchingSame(newest, pred, FloodEvidenceFor(e, i, s, d, port));
      ListingTotal(rows, NetworkEvent, 500, FloodEvidenceFor(e, i, s, d, port));
    }
  }

  /** What an inferred flood says, and that it says nothing else. */
  lemma {:induction false} FloodContent(rows: seq<EventRow>, e: Event, i: string, s: string, d: string, port: int)
    requires KeyIs(e, i, s, d, port) && EnrichFlood(rows, e) != e
    ensures var r := EnrichFlood(rows, e);
      && r.eventType == WafDos && r.severity == "critical"
      && r.attributes.attackType == Some(HttpFlood) && r.attributes.ingestionMode == Some(FlowInference)
      && r.attributes.windowSeconds == Some(60)
      && r.attributes.integrationId == Some(i) && r.attributes.sourceIp == Some(s) && r.attributes.destinationIp == Some(d)
      && r.attributes.count.Some? && r.attributes.count.value >= 100
      && r == e.(eventType := r.eventType, severity := r.severity, attributes := e.attributes.(
           attackType := r.attributes.attackType, ingestionMode := r.attributes.ingestionMode,
           windowSeconds := r.attributes.windowSeconds, integrationId := r.attributes.integrationId,
           sourceIp := r.attributes.sourceIp, destinationIp := r.attributes.destinationIp,
           count := r.attributes.count, relatedEventIds := r.attributes.relatedEventIds))
  {
    FlowMeaning(e, e, i, s, d);
    FloodReportsShortest(rows, e);
  }

  // ---------- Port scans ----------

  ghost predicate ScanCandidate(k: ScanKind, e: Event) {
    match k
    case Allowed => e.eventType == NetworkEvent && WasForwarded(e)
    case Denied => e.eventType == NetworkDeny
  }

  /** An event of the last minute for the same flow, let through or denied like the scan, with a port. */
  ghost function ScanEvidenceFor(k: ScanKind, e: Event, i: string, s: string, d: string): Event -> bool {
    (p: Event) => p.id != e.id && InWindow(p, e, 60) && FlowIs(p, i, s, d) && p.attributes.destinationPort.Some?
      && (k.Allowed? ==> WasForwarded(p))
  }

  ghost function ListingOf(k: ScanKind): EventType {
    if k == Denied then NetworkDeny else NetworkEvent
  }

  ghost function AttackOf(k: ScanKind): AttackType {
    if k == Denied then DeniedPortScan else AllowedPortScan
  }

  /** The port of the event and those of the evidence among the 250 newest rows. */
  ghost function PortsSeen(k: ScanKind, rows: seq<EventRow>, e: Event, i: string, s: string, d: string, port: int):
      set<int> {
    {port} + set j | 0 <= j < |rows| && ListedRow(rows, ListingOf(k), 250, j)
      && ScanEvidenceFor(k, e, i, s, d)(rows[j].payload) :: rows[j].payload.attributes.destinationPort.value
  }

  ghost predicate ScanSeen(k: ScanKind, rows: seq<EventRow>, e: Event, i: string, s: string, d: string) {
    exists j :: ListedRow(rows, NetworkScan, 50, j) && InWindow(rows[j].payload, e, 60)
      && rows[j].payload.attributes.attackType == Some(AttackOf(k))
      && rows[j].payload.attributes.integrationId == Some(i) && rows[j].payload.attributes.sourceIp == Some(s)
      && rows[j].payload.attributes.destinationIp == Some(d)
  }

  lemma {:induction false} ScanSeenMeaning(k: ScanKind, rows: seq<EventRow>, e: Event, i: string, s: string, d: string,
                                           port: int)
    requires KeyIs(e, i, s, d, port)
    ensures ScanSuppressed(k, rows, e) <==> ScanSeen(k, rows, e, i, s, d)
  {
    FlowMeaning(e, e, i, s, d);
    var recent := Newest(rows, Some(NetworkScan), SUPPRESSION_LIMIT);
    if ScanSuppressed(k, rows, e) {
      var n :| 0 <= n < |recent| && Within(recent[n], e.occurredAt - SCAN_WINDOW, e.occurredAt) && ScanRow(k, e, recent[n]);
      ListingMembers(rows, NetworkScan, SUPPRESSION_LIMIT, recent[n]);
    }
    if j :| ListedRow(rows, NetworkScan, 50, j) && InWindow(rows[j].payload, e, 60) && ScanRow(k, e, rows[j].payload) {
      ListingMembers(rows, NetworkScan, SUPPRESSION_LIMIT, rows[j].payload);
      var n :| 0 <= n < |recent| && recent[n] == rows[j].payload;
      assert Within(recent[n], e.occurredAt - SCAN_WINDOW, e.occurredAt) && ScanRow(k, e, recent[n]);
    }
  }

  lemma {:induction false} ScanEvidenceMeaning(k: ScanKind, e: Event, i: string, s: string, d: string, port: int, p: Event)
    requires KeyIs(e, i, s, d, port)
    ensures ScanMatch(k, e, p) <==> ScanEvidenceFor(k, e, i, s, d)(p)
  {
    FlowMeaning(e, p, i, s, d);
    ForwardedMeaning(p);
  }

  lemma {:induction false} MatchingMembers(s: seq<Event>, pred: Event -> bool, p: Event)
    ensures p in Matching(s, pred) <==> p in s && pred(p)
  {
    if s != [] {
      var n := |s| - 1;
      MatchingMembers(s[..n], pred, p);
      assert s == s[..n] + [s[n]];
    }
  }

  lemma {:induction false} EvidenceMembers(k: ScanKind, rows: seq<EventRow>, e: Event, i: string, s: string, d: string,
                                           port: int, p: Event)
    requires KeyIs(e, i, s, d, port)
    ensures p in ScanEvidence(k, rows, e) <==>
      exists j :: ListedRow(rows, ListingOf(k), 250, j) && rows[j].payload == p && ScanEvidenceFor(k, e, i, s, d)(p)
  {
    var pred := (p: Event) => ScanMatch(k, e, p);
    var newest := Newest(rows, Some(ScanType(k)), SCAN_LIMIT);
    SortRecentSorted(newest);
    assert p in SortRecent(newest) <==> p in multiset(SortRecent(newest));
    assert p in newest <==> p in multiset(newest);
    MatchingMembers(SortRecent(newest), pred, p);
    assert ScanEvidence(k, rows, e) == Matching(SortRecent(newest), pred);
    ScanEvidenceMeaning(k, e, i, s, d, port, p);
    ListingMembers(rows, ListingOf(k), 250, p);
  }

  lemma {:induction false} PortsMeaning(k: ScanKind, rows: seq<EventRow>, e: Event, i: string, s: string, d: string,
                                        port: int)
    requires KeyIs(e, i, s, d, port)
    ensures Ports(e, ScanEvidence(k, rows, e)) == PortsSeen(k, rows, e, i, s, d, port)
  {
    var found, seen := ScanEvidence(k, rows, e), PortsSeen(k, rows, e, i, s, d, port);
    forall x
      ensures x in Ports(e, found) <==> x in seen
    {
      if x in Ports(e, found) && x != port {
        var p :| p in found && p.attributes.destinationPort == Some(x);
        EvidenceMembers(k, rows, e, i, s, d, port, p);
      }
      if x in seen && x != port {
        var j :| 0 <= j < |rows| && ListedRow(rows, ListingOf(k), 250, j)
          && ScanEvidenceFor(k, e, i, s, d)(rows[j].payload) && rows[j].payload.attributes.destinationPort.value == x;
        EvidenceMembers(k, rows, e, i, s, d, port, rows[j].payload);
      }
    }
  }

  lemma {:induction false} ScanStarts(k: ScanKind, rows: seq<EventRow>, e: Event, i: string, s: string, d: string,
                                      port: int)
    requires ScanCandidate(k, e) && KeyIs(e, i, s, d, port)
    ensures ScanEligible(k, e) && (ScanSuppressed(k, rows, e) <==> ScanSeen(k, rows, e, i, s, d))
    ensures Ports(e, ScanEvidence(k, rows, e)) == PortsSeen(k, rows, e, i, s, d, port)
  {
    KeyMeaning(e);
    ForwardedMeaning(e);
    ScanSeenMeaning(k, rows, e, i, s, d, port);
    PortsMeaning(k, rows, e, i, s, d, port);
  }

  /** A candidate with a full key becomes a scan exactly if no scan of its flow and kind was seen and 20 distinct ports were. */
  lemma {:induction false} ScanInferred(k: ScanKind, rows: seq<EventRow>, e: Event, i: string, s: string, d: string,
                                        port: int)
    requires ScanCandidate(k, e) && KeyIs(e, i, s, d, port)
    ensures var r := EnrichScan(k, rows, e);
      && (r.eventType == NetworkScan
          <==> !ScanSeen(k, rows, e, i, s, d) && |PortsSeen(k, rows, e, i, s, d, port)| >= 20)
      && (r.eventType != NetworkScan ==> r == e)
  {
    ScanStarts(k, rows, e, i, s, d, port);
  }

  /** What an inferred scan says: exactly the ports seen in ascending order, the flow, and nothing else. */
  ghost predicate SaysScan(k: ScanKind, e: Event, r: Event, ports: set<int>, i: string, s: string, d: string) {
    && StrictlyIncreasing(r.attributes.destinationPorts)
    && (forall x :: x in r.attributes.destinationPorts <==> x in ports)
    && r == e.(eventType := NetworkScan, severity := "high", attributes := e.attributes.(
         attackType := Some(AttackOf(k)), windowSeconds := Some(60), integrationId := Some(i), sourceIp := Some(s),
         destinationIp := Some(d), destinationPorts := r.attributes.destinationPorts,
         uniqueDestinationPortCount := Some(|ports|), relatedEventIds := r.attributes.relatedEventIds))
  }

  lemma {:induction false} MarkSaysScan(k: ScanKind, e: Event, ports: set<int>, related: seq<string>, i: string, s: string,
                                        d: string, port: int)
    requires KeyIs(e, i, s, d, port)
    ensures SaysScan(k, e, MarkScan(k, e, ports, related), ports, i, s, d)
  {
    FlowMeaning(e, e, i, s, d);
    AscendingFacts(ports);
  }

  lemma {:induction false} ScanContent(k: ScanKind, rows: seq<EventRow>, e: Event, i: string, s: string, d: string,
                                       port: int)
    requires ScanCandidate(k, e) && KeyIs(e, i, s, d, port) && EnrichScan(k, rows, e) != e
    ensures SaysScan(k, e, EnrichScan(k, rows, e), PortsSeen(k, rows, e, i, s, d, port), i, s, d)
  {
    ScanStarts(k, rows, e, i, s, d, port);
    var found := ScanEvidence(k, rows, e);
    MarkSaysScan(k, e, Ports(e, found), OwnId(e) + NamedIds(found), i, s, d, port);
  }

  /** Nothing else becomes a scan or a flood. */
  lemma {:induction false} NothingElseInferred(rows: seq<EventRow>, e: Event)
    ensures (!ScanCandidate(Allowed, e) || !exists i, s, d, port :: KeyIs(e, i, s, d, port)) ==>
      EnrichScan(Allowed, rows, e) == e
    ensures (!ScanCandidate(Denied, e) || !exists i, s, d, port :: KeyIs(e, i, s, d, port)) ==>
      EnrichScan(Denied, rows, e) == e
    ensures (!ScanCandidate(Allowed, e) || !exists i, s, d, port :: KeyIs(e, i, s, d, port)) ==> EnrichFlood(rows, e) == e
  {
    KeyMeaning(e);
    ForwardedMeaning(e);
  }

  // ---------- Failed logins ----------

  /** Where both events tell a value, it is the same. */
  ghost predicate NoConflict(first: Text, second: Text, otherFirst: Text, otherSecond: Text) {
    forall v, u :: v != "" && u != "" && ValueIs(first, second, v) && ValueIs(otherFirst, otherSecond, u) ==> v == u
  }

  lemma {:induction false} NoConflictMeaning(first: Text, second: Text, otherFirst: Text, otherSecond: Text)
    ensures Agree(Or(first, second), Or(otherFirst, otherSecond)) <==> NoConflict(first, second, otherFirst, otherSecond)
  {
    var a, b := Or(first, second), Or(otherFirst, otherSecond);
    if Present(a) && Present(b) {
      assert ValueIs(first, second, a.value) && ValueIs(otherFirst, otherSecond, b.value);
    }
  }

  /** A failed login of the five minutes before, whose integration, source, user and device do not contradict. */
  ghost function LoginEvidenceFor(e: Event): Event -> bool {
    (p: Event) => InWindow(p, e, 300)
      && NoConflict(e.entities.integrationId, e.attributes.integrationId, p.entities.integrationId, p.attributes.integrationId)
      && NoConflict(e.entities.sourceIp, e.attributes.sourceIp, p.entities.sourceIp, p.attributes.sourceIp)
      && NoConflict(e.entities.user, e.attributes.user, p.entities.user, p.attributes.user)
      && NoConflict(e.entities.deviceName, e.attributes.deviceName, p.entities.deviceName, p.attributes.deviceName)
  }

  lemma {:induction false} LoginEvidenceMeaning(e: Event, p: Event)
    ensures LoginMatch(e, p) <==> LoginEvidenceFor(e)(p)
  {
    NoConflictMeaning(e.entities.integrationId, e.attributes.integrationId, p.entities.integrationId,
                      p.attributes.integrationId);
    NoConflictMeaning(e.entities.sourceIp, e.attributes.sourceIp, p.entities.sourceIp, p.attributes.sourceIp);
    NoConflictMeaning(e.entities.user, e.attributes.user, p.entities.user, p.attributes.user);
    NoConflictMeaning(e.entities.deviceName, e.attributes.deviceName, p.entities.deviceName, p.attributes.deviceName);
  }

  /** All that a failed login and the evidence among the 50 newest failed logins count for. */
  ghost function LoginTotal(rows: seq<EventRow>, e: Event): nat {
    CountsFor(e) + ListedTotal(rows, AuthFailedLogin, 50, LoginEvidenceFor(e), |rows|)
  }

  lemma {:induction false} LoginTotalMeaning(rows: seq<EventRow>, e: Event)
    ensures Weight(e) + Sum(Weights(EarlierLogins(rows, e))) == LoginTotal(rows, e)
  {
    var pred := (p: Event) => LoginMatch(e, p);
    var newest := Newest(rows, Some(AuthFailedLogin), LOGIN_LIMIT);
    forall p
      ensures pred(p) <==> LoginEvidenceFor(e)(p)
    {
      LoginEvidenceMeaning(e, p);
    }
    MatchingSame(newest, pred, LoginEvidenceFor(e));
    ListingTotal(rows, AuthFailedLogin, 50, LoginEvidenceFor(e));
    assert EarlierLogins(rows, e) == Matching(newest, pred);
  }

  /**
    A failed login is marked exactly if the total reaches three, its own count
    included; the mark is at least three and high, unless the severity was critical.
   */
  lemma {:induction false} LoginMarked(rows: seq<EventRow>, e: Event)
    requires e.eventType == AuthFailedLogin
    ensures var r := EnrichLogin(rows, e);
      && (LoginTotal(rows, e) < 3 ==> r == e)
      && (CountsFor(e) >= 3 ==>
            r.attributes.count == Some(CountsFor(e)) && r.attributes.aggregatedEventIds == e.attributes.aggregatedEventIds)
      && (LoginTotal(rows, e) >= 3 ==>
            && r.attributes.count.Some? && 3 <= r.attributes.count.value <= LoginTotal(rows, e)
            && r.severity == (if e.severity == "critical" then "critical" else "high")
            && r.attributes.attackType
               == (if e.attributes.attackType == None || e.attributes.attackType == Some(OtherAttack(""))
                   then Some(BruteForce) else e.attributes.attackType)
            && r == e.(severity := r.severity, attributes := e.attributes.(
                 count := r.attributes.count, attackType := r.attributes.attackType,
                 aggregatedEventIds := r.attributes.aggregatedEventIds)))
  {
    var found := EarlierLogins(rows, e);
    LoginTotalMeaning(rows, e);
    ShortestReaches(Weights(found), LOGIN_MIN - Weight(e));
    PrefixWeights(found, Shortest(Weights(found), LOGIN_MIN - Weight(e)));
    PrefixSum(Weights(found), Shortest(Weights(found), LOGIN_MIN - Weight(e)));
  }

  lemma {:induction false} PrefixSum(ws: seq<nat>, k: nat)
    requires k <= |ws|
    ensures Sum(ws[..k]) <= Sum(ws)
  {
    if k > 0 {
      PrefixSum(ws[1..], k - 1);
      assert ws[..k][1..] == ws[1..][..k - 1];
    }
  }

  // ---------- Related events ----------

  lemma {:induction false} NamedIdsMembers(s: seq<Event>, id: string)
    ensures id in NamedIds(s) <==> id != "" && exists k :: 0 <= k < |s| && s[k].id == id
  {
    if s != [] {
      var n := |s| - 1;
      NamedIdsMembers(s[..n], id);
      if k :| 0 <= k < |s| && s[k].id == id && k < n {
        assert s[..n][k].id == id;
      }
    }
  }

  /** Events that all have an id are named in order, each once. */
  lemma {:induction false} NamedIdsInOrder(s: seq<Event>)
    requires forall k :: 0 <= k < |s| ==> s[k].id != ""
    ensures |NamedIds(s)| == |s| && forall k :: 0 <= k < |s| ==> NamedIds(s)[k] == s[k].id
  {
    if s != [] {
      NamedIdsInOrder(s[..|s| - 1]);
    }
  }

  /** The matches of a list are the elements at the indices `at`: ascending, matching, and none missing. */
  ghost predicate MatchesAt(s: seq<Event>, pred: Event -> bool, r: seq<Event>, at: seq<int>) {
    && |at| == |r|
    && (forall k :: 0 <= k < |at| ==> 0 <= at[k] < |s| && pred(s[at[k]]) && r[k] == s[at[k]])
    && (forall k, l :: 0 <= k < l < |at| ==> at[k] < at[l])
    && (forall j :: 0 <= j < |s| && pred(s[j]) ==> j in at)
  }

  lemma {:induction false} MatchesExtend(s: seq<Event>, e: Event, pred: Event -> bool, r: seq<Event>, at: seq<int>)
    requires MatchesAt(s, pred, r, at)
    ensures pred(e) ==> MatchesAt(s + [e], pred, r + [e], at + [|s|])
    ensures !pred(e) ==> MatchesAt(s + [e], pred, r, at)
  {
  }

  lemma {:induction false} MatchingInOrder(s: seq<Event>, pred: Event -> bool) returns (at: seq<int>)
    ensures MatchesAt(s, pred, Matching(s, pred), at)
  {
    at := [];
    if s != [] {
      var n := |s| - 1;
      var before := MatchingInOrder(s[..n], pred);
      MatchesExtend(s[..n], s[n], pred, Matching(s[..n], pred), before);
      assert s == s[..n] + [s[n]];
      at := if pred(s[n]) then before + [n] else before;
    }
  }

  /** An inferred scan relates to itself and to all its evidence, and to nothing else. */
  lemma {:induction false} ScanRelates(k: ScanKind, rows: seq<EventRow>, e: Event, i: string, s: string, d: string,
                                       port: int, id: string)
    requires ScanCandidate(k, e) && KeyIs(e, i, s, d, port) && EnrichScan(k, rows, e) != e && id != ""
    ensures id in EnrichScan(k, rows, e).attributes.relatedEventIds
      <==> id == e.id || exists j ::
        ListedRow(rows, ListingOf(k), 250, j) && ScanEvidenceFor(k, e, i, s, d)(rows[j].payload) && rows[j].payload.id == id
  {
    var found := ScanEvidence(k, rows, e);
    NamedIdsMembers(found, id);
    assert EnrichScan(k, rows, e).attributes.relatedEventIds == OwnId(e) + NamedIds(found);
    if n :| 0 <= n < |found| && found[n].id == id {
      EvidenceMembers(k, rows, e, i, s, d, port, found[n]);
    }
    if j :| ListedRow(rows, ListingOf(k), 250, j) && ScanEvidenceFor(k, e, i, s, d)(rows[j].payload)
            && rows[j].payload.id == id {
      EvidenceMembers(k, rows, e, i, s, d, port, rows[j].payload);
      var n :| 0 <= n < |found| && found[n] == rows[j].payload;
    }
  }

  lemma {:induction false} EarlierLoginsMeaning(rows: seq<EventRow>, e: Event)
    ensures EarlierLogins(rows, e) == Matching(Newest(rows, Some(AuthFailedLogin), 50), LoginEvidenceFor(e))
  {
    var pred := (p: Event) => LoginMatch(e, p);
    forall p
      ensures pred(p) <==> LoginEvidenceFor(e)(p)
    {
      LoginEvidenceMeaning(e, p);
    }
    MatchingSame(Newest(rows, Some(AuthFailedLogin), 50), pred, LoginEvidenceFor(e));
  }

  /** The first k of the found events are the shortest run that lifts `base` to three. */
  ghost predicate LiftsToThree(found: seq<Event>, base: nat, k: nat) {
    && k <= |found| && base + Sum(Weights(found[..k])) >= 3
    && forall j :: 0 <= j < k ==> base + Sum(Weights(found[..j])) < 3
  }

  lemma {:induction false} ShortestLifts(found: seq<Event>, base: nat)
    requires base + Sum(Weights(found)) >= 3
    ensures LiftsToThree(found, base, Shortest(Weights(found), 3 - base))
  {
    var k := Shortest(Weights(found), 3 - base);
    ShortestReaches(Weights(found), 3 - base);
    forall j | 0 <= j <= k
      ensures Weights(found[..j]) == Weights(found)[..j]
    {
      PrefixWeights(found, j);
    }
  }

  lemma {:induction false} MarkUsesShortest(rows: seq<EventRow>, e: Event) returns (k: nat)
    requires e.eventType == AuthFailedLogin && EnrichLogin(rows, e) != e && CountsFor(e) < 3
    ensures var found := EarlierLogins(rows, e);
      && CountsFor(e) + Sum(Weights(found)) >= 3 && k == Shortest(Weights(found), 3 - CountsFor(e)) <= |found|
      && SaysLogins(e, found, k, EnrichLogin(rows, e))
  {
    k := Shortest(Weights(EarlierLogins(rows, e)), 3 - CountsFor(e));
  }

  /** A marked login reports the shortest run of earlier logins, newest row first, that lifts it to three. */
  ghost predicate SaysLogins(e: Event, found: seq<Event>, k: nat, r: Event)
    requires k <= |found|
  {
    && r.attributes.count == Some(CountsFor(e) + Sum(Weights(found[..k])))
    && r.attributes.aggregatedEventIds
       == if NamedIds(found[..k]) != [] then NamedIds(found[..k]) + [e.id] else e.attributes.aggregatedEventIds
  }

  lemma {:induction false} LoginReportsShortest(rows: seq<EventRow>, e: Event) returns (k: nat)
    requires e.eventType == AuthFailedLogin && EnrichLogin(rows, e) != e && CountsFor(e) < 3
    ensures var found := Matching(Newest(rows, Some(AuthFailedLogin), 50), LoginEvidenceFor(e));
      LiftsToThree(found, CountsFor(e), k) && SaysLogins(e, found, k, EnrichLogin(rows, e))
  {
    k := MarkUsesShortest(rows, e);
    EarlierLoginsMeaning(rows, e);
    ShortestLifts(EarlierLogins(rows, e), CountsFor(e));
  }
}
