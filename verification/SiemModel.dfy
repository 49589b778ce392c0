/**
  Data of the SIEM service and the declarative meaning of its enrichers.
  Times are seconds; ports and counts are optional integers; event types, attack
  types and rule ids that the code compares are constructors.
 */
module SiemModel {
  import opened Sorting
  import opened Wrappers

  // ---------- Events ----------

  datatype EventType =
    | AuthFailedLogin
    | AuthPrivilegedLogon
    | NetworkEvent
    | NetworkDeny
    | NetworkScan
    | FileChange
    | EndpointSuspiciousConnection
    | FortigateSystemStatus
    | WafAttack
    | HttpAttack
    | WafDos
    | WafBlockedRequest
    | OtherEvent(name: string)

  datatype AttackType = HttpFlood | AllowedPortScan | DeniedPortScan | BruteForce | OtherAttack(name: string)

  datatype IngestionMode = FlowInference | OtherMode(name: string)

  datatype Entities = Entities(integrationId: Text, sourceIp: Text, destinationIp: Text, user: Text, deviceName: Text)

  datatype Attributes = Attributes(
    integrationId: Text,
    sourceIp: Text,
    destinationIp: Text,
    user: Text,
    deviceName: Text,
    destinationPort: Option<int>,
    action: Text,
    service: Text,
    count: Option<int>,
    attackType: Option<AttackType>,
    ingestionMode: Option<IngestionMode>,
    destinationPorts: seq<int>,
    uniqueDestinationPortCount: Option<int>,
    windowSeconds: Option<int>,
    relatedEventIds: seq<string>,
    aggregatedEventIds: seq<string>,
    cpuPercent: Option<int>,
    memoryPercent: Option<int>,
    privileged: bool,
    unusualHost: bool,
    criticalPath: bool)

  /** `stamp` ranks the text of the event time among all texts, which need not follow the time it denotes. */
  datatype Event = Event(
    id: string,
    eventType: EventType,
    severity: string,
    occurredAt: int,
    stamp: int,
    entities: Entities,
    attributes: Attributes)

  /** A table row: the indexed columns are stored beside the payload. */
  datatype EventRow = EventRow(id: string, eventType: EventType, severity: string, occurredAt: int, payload: Event)

  function RowOf(e: Event): EventRow {
    EventRow(e.id, e.eventType, e.severity, e.occurredAt, e)
  }

  // ---------- Listing ----------

  /** Payloads of the newest `limit` rows of one type (or of all types), newest row first. */
  function Newest(rows: seq<EventRow>, t: Option<EventType>, limit: nat): (r: seq<Event>)
  {
    if rows == [] || limit == 0 then []
    else
      var n := |rows| - 1;
      if t.None? || t.value == rows[n].eventType then [rows[n].payload] + Newest(rows[..n], t, limit - 1)
      else Newest(rows[..n], t, limit)
  }

  function Recency(e: Event): int {
    -e.stamp
  }

  /** Largest text of the event time first; events with one text keep their order. */
  function SortRecent(s: seq<Event>): seq<Event> {
    SortBy(Recency, s)
  }

  /** What the enrichers read: the newest rows of a type, sorted by the text of the event time. */
  function Recent(rows: seq<EventRow>, t: EventType, limit: nat): seq<Event> {
    SortRecent(Newest(rows, Some(t), limit))
  }

  ghost predicate LargestStampFirst(s: seq<Event>) {
    forall i, j :: 0 <= i < j < |s| ==> s[i].stamp >= s[j].stamp
  }

  /** Sorting keeps the listed rows. */
  lemma {:induction false} SortRecentSorted(s: seq<Event>)
    ensures multiset(SortRecent(s)) == multiset(s)
    ensures LargestStampFirst(SortRecent(s))
  {
    SortBySorts(Recency, s);
  }

  /** Number of rows of a type. */
  function CountType(rows: seq<EventRow>, t: EventType): nat {
    if rows == [] then 0
    else CountType(rows[..|rows| - 1], t) + if rows[|rows| - 1].eventType == t then 1 else 0
  }

  /** A row is listed as long as fewer than `limit` rows of its type came after it. */
  lemma {:induction false} ListedWhileFewAfter(rows: seq<EventRow>, t: EventType, limit: nat, i: nat)
    requires i < |rows| && rows[i].eventType == t
    requires CountType(rows[i + 1..], t) < limit
    ensures rows[i].payload in Newest(rows, Some(t), limit)
  {
    var n := |rows| - 1;
    if i < n {
      assert rows[i + 1..][..n - i - 1] == rows[..n][i + 1..];
      assert rows[i + 1..][n - i - 1] == rows[n];
      ListedWhileFewAfter(rows[..n], t, if rows[n].eventType == t then limit - 1 else limit, i);
    }
  }

  /** If no other row has its payload, exactly as long. */
  lemma {:induction false} ListedExactlyWhileFewAfter(rows: seq<EventRow>, t: EventType, limit: nat, i: nat)
    requires i < |rows| && rows[i].eventType == t
    requires forall j :: 0 <= j < |rows| && rows[j].payload == rows[i].payload ==> j == i
    ensures rows[i].payload in Newest(rows, Some(t), limit) <==> CountType(rows[i + 1..], t) < limit
  {
    var n := |rows| - 1;
    if i < n {
      assert rows[i + 1..][..n - i - 1] == rows[..n][i + 1..];
      assert rows[i + 1..][n - i - 1] == rows[n];
      if limit > 0 {
        ListedExactlyWhileFewAfter(rows[..n], t, if rows[n].eventType == t then limit - 1 else limit, i);
      }
    }
  }

  // ---------- The listing, row by row ----------

  ghost predicate OfType(row: EventRow, t: Option<EventType>) {
    t.None? || row.eventType == t.value
  }

  ghost function RowsOfType(rows: seq<EventRow>, t: Option<EventType>): set<int> {
    set i | 0 <= i < |rows| && OfType(rows[i], t)
  }

  ghost function LaterOfType(rows: seq<EventRow>, t: Option<EventType>, i: int): set<int> {
    set j | i < j < |rows| && 0 <= j && OfType(rows[j], t)
  }

  /** Element k of the listing is the payload of row at[k], the row of the type that exactly k rows of the type come after. */
  ghost predicate ListedInOrder(rows: seq<EventRow>, t: Option<EventType>, r: seq<Event>, at: seq<int>)
    requires |r| == |at|
  {
    forall k :: 0 <= k < |at| ==>
      0 <= at[k] < |rows| && OfType(rows[at[k]], t) && r[k] == rows[at[k]].payload && |LaterOfType(rows, t, at[k])| == k
  }

  ghost predicate Descending(at: seq<int>) {
    forall k, l :: 0 <= k < l < |at| ==> at[k] > at[l]
  }

  /** No row with fewer than `limit` later rows of its type is missing. */
  ghost predicate NoneMissing(rows: seq<EventRow>, t: Option<EventType>, limit: nat, at: seq<int>) {
    forall i :: 0 <= i < |rows| && OfType(rows[i], t) && |LaterOfType(rows, t, i)| < limit ==> i in at
  }

  /** The listing is at the limit, or holds all rows of the type. */
  ghost predicate ListsAt(rows: seq<EventRow>, t: Option<EventType>, limit: nat, r: seq<Event>, at: seq<int>) {
    && |at| == |r| == (if |RowsOfType(rows, t)| < limit then |RowsOfType(rows, t)| else limit)
    && ListedInOrder(rows, t, r, at) && Descending(at) && NoneMissing(rows, t, limit, at)
  }

  ghost predicate IsListing(rows: seq<EventRow>, t: Option<EventType>, limit: nat, r: seq<Event>) {
    exists at :: ListsAt(rows, t, limit, r, at)
  }

  lemma {:induction false} LaterFront(rows: seq<EventRow>, t: Option<EventType>, i: int)
    requires rows != [] && i < |rows| - 1
    ensures var n := |rows| - 1;
      |LaterOfType(rows, t, i)| == |LaterOfType(rows[..n], t, i)| + (if OfType(rows[n], t) then 1 else 0)
  {
    var n := |rows| - 1;
    var all, front := LaterOfType(rows, t, i), LaterOfType(rows[..n], t, i);
    forall j
      ensures j in all <==> j in front || (j == n && OfType(rows[n], t))
    {
      assert 0 <= j < n ==> rows[..n][j] == rows[j];
    }
    if OfType(rows[n], t) {
      assert all == front + {n};
    } else {
      assert all == front;
    }
  }

  lemma {:induction false} RowsAreLater(rows: seq<EventRow>, t: Option<EventType>)
    ensures RowsOfType(rows, t) == LaterOfType(rows, t, -1)
  {
  }

  lemma {:induction false} AtMostAllRows(rows: seq<EventRow>, t: Option<EventType>)
    ensures |RowsOfType(rows, t)| <= |rows|
  {
    if rows != [] {
      RowsAreLater(rows, t);
      RowsAreLater(rows[..|rows| - 1], t);
      LaterFront(rows, t, -1);
      AtMostAllRows(rows[..|rows| - 1], t);
    } else {
      assert RowsOfType(rows, t) == {};
    }
  }

  lemma {:induction false} LastHasNoneLater(rows: seq<EventRow>, t: Option<EventType>)
    requires rows != []
    ensures |LaterOfType(rows, t, |rows| - 1)| == 0
  {
    assert LaterOfType(rows, t, |rows| - 1) == {};
  }

  lemma {:induction false} ListsEmpty(rows: seq<EventRow>, t: Option<EventType>, limit: nat)
    requires rows == [] || limit == 0
    ensures ListsAt(rows, t, limit, [], [])
  {
    if rows == [] {
      assert RowsOfType(rows, t) == {};
    }
  }

  /** A last row of another type changes no listing. */
  lemma {:induction false} ListsSkip(rows: seq<EventRow>, t: Option<EventType>, limit: nat, r: seq<Event>, at: seq<int>)
    requires rows != [] && !OfType(rows[|rows| - 1], t) && ListsAt(rows[..|rows| - 1], t, limit, r, at)
    ensures ListsAt(rows, t, limit, r, at)
  {
    var n := |rows| - 1;
    RowsAreLater(rows, t);
    RowsAreLater(rows[..n], t);
    LaterFront(rows, t, -1);
    forall k | 0 <= k < |at|
      ensures 0 <= at[k] < n && OfType(rows[at[k]], t) && r[k] == rows[at[k]].payload
      ensures |LaterOfType(rows, t, at[k])| == k
    {
      LaterFront(rows, t, at[k]);
    }
    forall i | 0 <= i < |rows| && OfType(rows[i], t) && |LaterOfType(rows, t, i)| < limit
      ensures i in at
    {
      LaterFront(rows, t, i);
      assert rows[..n][i] == rows[i];
    }
  }

  /** A last row of the type comes first in the listing. */
  lemma {:induction false} ListsCons(rows: seq<EventRow>, t: Option<EventType>, limit: nat, r: seq<Event>, at: seq<int>)
    requires rows != [] && OfType(rows[|rows| - 1], t) && limit > 0
    requires ListsAt(rows[..|rows| - 1], t, limit - 1, r, at)
    ensures ListsAt(rows, t, limit, [rows[|rows| - 1].payload] + r, [|rows| - 1] + at)
  {
    var n := |rows| - 1;
    RowsAreLater(rows, t);
    RowsAreLater(rows[..n], t);
    LaterFront(rows, t, -1);
    ConsInOrder(rows, t, r, at);
    ConsNoneMissing(rows, t, limit, at);
  }

  lemma {:induction false} ConsInOrder(rows: seq<EventRow>, t: Option<EventType>, r: seq<Event>, at: seq<int>)
    requires rows != [] && OfType(rows[|rows| - 1], t) && |r| == |at|
    requires ListedInOrder(rows[..|rows| - 1], t, r, at)
    ensures ListedInOrder(rows, t, [rows[|rows| - 1].payload] + r, [|rows| - 1] + at)
  {
    var n := |rows| - 1;
    LastHasNoneLater(rows, t);
    forall k | 0 <= k < |at|
      ensures 0 <= at[k] < n && OfType(rows[at[k]], t) && r[k] == rows[at[k]].payload
      ensures |LaterOfType(rows, t, at[k])| == k + 1
    {
      LaterFront(rows, t, at[k]);
    }
  }

  lemma {:induction false} ConsNoneMissing(rows: seq<EventRow>, t: Option<EventType>, limit: nat, at: seq<int>)
    requires rows != [] && OfType(rows[|rows| - 1], t) && limit > 0
    requires NoneMissing(rows[..|rows| - 1], t, limit - 1, at)
    ensures NoneMissing(rows, t, limit, [|rows| - 1] + at)
  {
    var n := |rows| - 1;
    forall i | 0 <= i < n && OfType(rows[i], t) && |LaterOfType(rows, t, i)| < limit
      ensures i in at
    {
      LaterFront(rows, t, i);
      assert rows[..n][i] == rows[i];
    }
  }

  lemma {:induction false} NewestLists(rows: seq<EventRow>, t: Option<EventType>, limit: nat) returns (at: seq<int>)
    ensures ListsAt(rows, t, limit, Newest(rows, t, limit), at)
  {
    if rows == [] || limit == 0 {
      at := [];
      ListsEmpty(rows, t, limit);
    } else {
      var n := |rows| - 1;
      if OfType(rows[n], t) {
        var rest := NewestLists(rows[..n], t, limit - 1);
        ListsCons(rows, t, limit, Newest(rows[..n], t, limit - 1), rest);
        at := [n] + rest;
      } else {
        at := NewestLists(rows[..n], t, limit);
        ListsSkip(rows, t, limit, Newest(rows[..n], t, limit), at);
      }
    }
  }

  ghost predicate SortedFrom(listed: seq<Event>, r: seq<Event>) {
    && multiset(r) == multiset(listed) && LargestStampFirst(r)
    && forall stamp :: OfKey(Recency, r, stamp) == OfKey(Recency, listed, stamp)
  }

  /** The listing by type, sorted stably by the text of the event time, largest first. */
  ghost predicate IsRecentListing(rows: seq<EventRow>, t: EventType, limit: nat, r: seq<Event>) {
    exists listed :: IsListing(rows, Some(t), limit, listed) && SortedFrom(listed, r)
  }

  lemma {:induction false} RecentIsListing(rows: seq<EventRow>, t: EventType, limit: nat)
    ensures IsRecentListing(rows, t, limit, Recent(rows, t, limit))
  {
    var listed := Newest(rows, Some(t), limit);
    var at := NewestLists(rows, Some(t), limit);
    SortRecentSorted(listed);
    forall stamp
      ensures OfKey(Recency, SortRecent(listed), stamp) == OfKey(Recency, listed, stamp)
    {
      SortByStable(Recency, listed, stamp);
    }
    assert SortedFrom(listed, SortRecent(listed)) && IsListing(rows, Some(t), limit, listed);
  }

  // ---------- Sums with early exit ----------

  function Sum(ws: seq<nat>): nat {
    if ws == [] then 0 else ws[0] + Sum(ws[1..])
  }

  /** Length of the shortest prefix whose sum reaches `need`, or |ws|. */
  function Shortest(ws: seq<nat>, need: int): (k: nat)
    ensures k <= |ws|
  {
    if need <= 0 || ws == [] then 0 else 1 + Shortest(ws[1..], need - ws[0])
  }

  /** The shortest prefix reaches the need exactly when the whole sum does, and no shorter prefix does. */
  lemma {:induction false} ShortestReaches(ws: seq<nat>, need: int)
    ensures Sum(ws[..Shortest(ws, need)]) >= need <==> Sum(ws) >= need
    ensures forall j :: 0 <= j < Shortest(ws, need) ==> Sum(ws[..j]) < need
  {
    if need > 0 && ws != [] {
      var k := Shortest(ws[1..], need - ws[0]);
      ShortestReaches(ws[1..], need - ws[0]);
      assert ws[..k + 1][1..] == ws[1..][..k];
      forall j | 0 <= j < k + 1
        ensures Sum(ws[..j]) < need
      {
        if j > 0 {
          assert ws[..j][1..] == ws[1..][..j - 1];
        }
      }
    }
  }

  lemma {:induction false} SumAppend(ws: seq<nat>, w: nat)
    ensures Sum(ws + [w]) == Sum(ws) + w
  {
    if ws != [] {
      assert (ws + [w])[1..] == ws[1..] + [w];
      SumAppend(ws[1..], w);
    }
  }

  // ---------- Matching events ----------

  const SCAN_WINDOW := 60
  const SCAN_MIN_PORTS := 20
  const SCAN_LIMIT: nat := 250
  const FLOOD_WINDOW := 60
  const FLOOD_MIN := 100
  const FLOOD_LIMIT: nat := 500
  const FLOOD_SUPPRESSION := 300
  const SUPPRESSION_LIMIT: nat := 50
  const LOGIN_WINDOW := 300
  const LOGIN_MIN := 3
  const LOGIN_LIMIT: nat := 50

  predicate Within(p: Event, start: int, end: int) {
    start <= p.occurredAt <= end
  }

  /** The count that an event stands for. */
  function Weight(e: Event): nat {
    if e.attributes.count.Some? && e.attributes.count.value > 1 then e.attributes.count.value else 1
  }

  function Weights(s: seq<Event>): (r: seq<nat>)
    ensures |r| == |s|
  {
    seq(|s|, i requires 0 <= i < |s| => Weight(s[i]))
  }

  predicate Forwarded(e: Event) {
    e.attributes.action.Some? &&
    Lower(e.attributes.action.value)
      in {"accept", "allow", "allowed", "close", "client-rst", "server-rst", "timeout"}
  }

  predicate HttpService(service: Text) {
    service.Some? && (Lower(service.value) == "http" || Lower(service.value) == "https")
  }

  predicate HttpFlow(e: Event) {
    || HttpService(e.attributes.service)
    || e.attributes.destinationPort in {Some(80), Some(443), Some(8080), Some(8443)}
  }

  function IntegrationOf(e: Event): Text { Or(e.attributes.integrationId, e.entities.integrationId) }

  function SourceOf(e: Event): Text { Or(e.attributes.sourceIp, e.entities.sourceIp) }

  function DestinationOf(e: Event): Text { Or(e.attributes.destinationIp, e.entities.destinationIp) }

  predicate SameNetworkFlow(e: Event, p: Event) {
    && IntegrationOf(e) == IntegrationOf(p)
    && SourceOf(e) == SourceOf(p)
    && DestinationOf(e) == DestinationOf(p)
  }

  predicate SameHttpFlow(e: Event, p: Event) {
    SameNetworkFlow(e, p) && e.attributes.destinationPort == p.attributes.destinationPort
  }

  /** Who a failed login is about; an absent value agrees with every value. */
  predicate SameAuthSubject(e: Event, p: Event) {
    && Agree(Or(e.entities.integrationId, e.attributes.integrationId),
             Or(p.entities.integrationId, p.attributes.integrationId))
    && Agree(Or(e.entities.sourceIp, e.attributes.sourceIp), Or(p.entities.sourceIp, p.attributes.sourceIp))
    && Agree(Or(e.entities.user, e.attributes.user), Or(p.entities.user, p.attributes.user))
    && Agree(Or(e.entities.deviceName, e.attributes.deviceName), Or(p.entities.deviceName, p.attributes.deviceName))
  }

  predicate Agree(a: Text, b: Text) {
    Present(a) && Present(b) ==> a == b
  }

  predicate FullKey(e: Event) {
    && Present(IntegrationOf(e)) && Present(SourceOf(e)) && Present(DestinationOf(e))
    && e.attributes.destinationPort.Some?
  }

  function Matching(s: seq<Event>, pred: Event -> bool): (r: seq<Event>) {
    if s == [] then []
    else Matching(s[..|s| - 1], pred) + if pred(s[|s| - 1]) then [s[|s| - 1]] else []
  }

  // ---------- Failed logins ----------

  predicate LoginMatch(e: Event, p: Event) {
    Within(p, e.occurredAt - LOGIN_WINDOW, e.occurredAt) && SameAuthSubject(e, p)
  }

  /** Earlier failed logins of the same subject among the newest rows. */
  function EarlierLogins(rows: seq<EventRow>, e: Event): seq<Event> {
    Matching(Newest(rows, Some(AuthFailedLogin), LOGIN_LIMIT), (p: Event) => LoginMatch(e, p))
  }

  predicate HasAttack(a: Option<AttackType>) {
    a.Some? && a.value != OtherAttack("")
  }

  function MarkBruteForce(e: Event, count: int, previous: seq<string>): Event {
    e.(attributes := e.attributes.(
         count := Some(count),
         attackType := if HasAttack(e.attributes.attackType) then e.attributes.attackType else Some(BruteForce),
         aggregatedEventIds := if previous != [] then previous + [e.id] else e.attributes.aggregatedEventIds),
       severity := if e.severity == "critical" || e.severity == "high" then e.severity
                   else if count >= 3 then "high" else e.severity)
  }

  ghost function EnrichLogin(rows: seq<EventRow>, e: Event): Event {
    if e.eventType != AuthFailedLogin then e
    else if Weight(e) >= LOGIN_MIN then MarkBruteForce(e, Weight(e), [])
    else
      var found := EarlierLogins(rows, e);
      if Weight(e) + Sum(Weights(found)) < LOGIN_MIN then e
      else
        var used := found[..Shortest(Weights(found), LOGIN_MIN - Weight(e))];
        MarkBruteForce(e, Weight(e) + Sum(Weights(used)), NamedIds(used))
  }

  // ---------- Port scans ----------

  /** The two scan enrichers differ in the event type they read and in the action check. */
  datatype ScanKind = Allowed | Denied

  function ScanType(k: ScanKind): EventType { if k.Allowed? then NetworkEvent else NetworkDeny }

  function ScanAttack(k: ScanKind): AttackType { if k.Allowed? then AllowedPortScan else DeniedPortScan }

  predicate ScanAction(k: ScanKind, e: Event) { k.Allowed? ==> Forwarded(e) }

  predicate ScanEligible(k: ScanKind, e: Event) {
    e.eventType == ScanType(k) && ScanAction(k, e) && FullKey(e)
  }

  /** A stored scan row for the flow of e. */
  predicate ScanRow(k: ScanKind, e: Event, p: Event) {
    && p.attributes.attackType == Some(ScanAttack(k))
    && p.attributes.integrationId == IntegrationOf(e)
    && p.attributes.sourceIp == SourceOf(e)
    && p.attributes.destinationIp == DestinationOf(e)
  }

  predicate ScanSuppressed(k: ScanKind, rows: seq<EventRow>, e: Event) {
    var recent := Newest(rows, Some(NetworkScan), SUPPRESSION_LIMIT);
    exists i :: 0 <= i < |recent| &&
      Within(recent[i], e.occurredAt - SCAN_WINDOW, e.occurredAt) && ScanRow(k, e, recent[i])
  }

  predicate ScanMatch(k: ScanKind, e: Event, p: Event) {
    && p.id != e.id && Within(p, e.occurredAt - SCAN_WINDOW, e.occurredAt)
    && SameNetworkFlow(e, p) && ScanAction(k, p) && p.attributes.destinationPort.Some?
  }

  function ScanEvidence(k: ScanKind, rows: seq<EventRow>, e: Event): seq<Event> {
    Matching(Recent(rows, ScanType(k), SCAN_LIMIT), (p: Event) => ScanMatch(k, e, p))
  }

  /** Distinct destination ports of the event and its evidence. */
  function Ports(e: Event, found: seq<Event>): set<int>
    requires e.attributes.destinationPort.Some?
  {
    {e.attributes.destinationPort.value}
    + set p | p in found && p.attributes.destinationPort.Some? :: p.attributes.destinationPort.value
  }

  predicate IsMin(m: int, s: set<int>) {
    m in s && forall x :: x in s ==> m <= x
  }

  lemma {:induction false} MinExists(s: set<int>)
    requires s != {}
    ensures exists m :: IsMin(m, s)
    decreases |s|
  {
    var a := SomeElement(s);
    if s - {a} == {} {
      assert s == {a};
      assert IsMin(a, s);
    } else {
      MinExists(s - {a});
      var n :| IsMin(n, s - {a});
      var m := if n < a then n else a;
      assert forall x :: x in s ==> x == a || x in s - {a};
      assert IsMin(m, s);
    }
  }

  /** The elements of a finite set in ascending order. */
  function Ascending(s: set<int>): seq<int>
    decreases |s|
  {
    if s == {} then []
    else
      var m := Least(s);
      [m] + Ascending(s - {m})
  }

  function Least(s: set<int>): (m: int)
    requires s != {}
    ensures IsMin(m, s)
  {
    MinExists(s);
    var m :| IsMin(m, s);
    m
  }

  lemma {:induction false} AscendingFacts(s: set<int>)
    ensures StrictlyIncreasing(Ascending(s)) && |Ascending(s)| == |s|
    ensures forall x :: x in Ascending(s) <==> x in s
    decreases |s|
  {
    if s != {} {
      var m := Least(s);
      var rest := Ascending(s - {m});
      AscendingFacts(s - {m});
      forall i | 0 <= i < |rest|
        ensures m < rest[i]
      {
        assert rest[i] in rest;
      }
    }
  }

  function OwnId(e: Event): seq<string> { if e.id != "" then [e.id] else [] }

  function NamedIds(s: seq<Event>): seq<string> {
    if s == [] then []
    else NamedIds(s[..|s| - 1]) + OwnId(s[|s| - 1])
  }

  function MarkScan(k: ScanKind, e: Event, ports: set<int>, related: seq<string>): Event {
    e.(eventType := NetworkScan,
       severity := "high",
       attributes := e.attributes.(
         integrationId := IntegrationOf(e),
         sourceIp := SourceOf(e),
         destinationIp := DestinationOf(e),
         attackType := Some(ScanAttack(k)),
         destinationPorts := Ascending(ports),
         uniqueDestinationPortCount := Some(|ports|),
         windowSeconds := Some(SCAN_WINDOW),
         relatedEventIds := related))
  }

  ghost function EnrichScan(k: ScanKind, rows: seq<EventRow>, e: Event): Event {
    if !ScanEligible(k, e) || ScanSuppressed(k, rows, e) then e
    else
      var found := ScanEvidence(k, rows, e);
      if |Ports(e, found)| < SCAN_MIN_PORTS then e
      else MarkScan(k, e, Ports(e, found), OwnId(e) + NamedIds(found))
  }

  // ---------- HTTP floods ----------

  predicate FloodEligible(e: Event) {
    e.eventType == NetworkEvent && Forwarded(e) && HttpFlow(e) && FullKey(e)
  }

  /** A stored flood row, written by inference, for the flow and port of e. */
  predicate FloodRow(e: Event, p: Event) {
    && p.attributes.attackType == Some(HttpFlood)
    && p.attributes.ingestionMode == Some(FlowInference)
    && p.attributes.integrationId == IntegrationOf(e)
    && p.attributes.sourceIp == SourceOf(e)
    && p.attributes.destinationIp == DestinationOf(e)
    && p.attributes.destinationPort == e.attributes.destinationPort
  }

  predicate FloodSuppressed(rows: seq<EventRow>, e: Event) {
    var recent := Newest(rows, Some(WafDos), SUPPRESSION_LIMIT);
    exists i :: 0 <= i < |recent| &&
      Within(recent[i], e.occurredAt - FLOOD_SUPPRESSION, e.occurredAt) && FloodRow(e, recent[i])
  }

  predicate FloodMatch(e: Event, p: Event) {
    && p.id != e.id && Within(p, e.occurredAt - FLOOD_WINDOW, e.occurredAt)
    && SameHttpFlow(e, p) && Forwarded(p)
  }

  function FloodEvidence(rows: seq<EventRow>, e: Event): seq<Event> {
    Matching(Recent(rows, NetworkEvent, FLOOD_LIMIT), (p: Event) => FloodMatch(e, p))
  }

  function MarkFlood(e: Event, count: int, related: seq<string>): Event {
    e.(eventType := WafDos,
       severity := "critical",
       attributes := e.attributes.(
         integrationId := IntegrationOf(e),
         sourceIp := SourceOf(e),
         destinationIp := DestinationOf(e),
         attackType := Some(HttpFlood),
         count := Some(count),
         windowSeconds := Some(FLOOD_WINDOW),
         relatedEventIds := related,
         ingestionMode := Some(FlowInference)))
  }

  ghost function EnrichFlood(rows: seq<EventRow>, e: Event): Event {
    if !FloodEligible(e) || FloodSuppressed(rows, e) then e
    else
      var found := FloodEvidence(rows, e);
      if 1 + Sum(Weights(found)) < FLOOD_MIN then e
      else
        var used := found[..Shortest(Weights(found), FLOOD_MIN - 1)];
        MarkFlood(e, 1 + Sum(Weights(used)), OwnId(e) + NamedIds(used))
  }

  /** All enrichers, in the order of ingestion. */
  ghost function Enrich(rows: seq<EventRow>, e: Event): Event {
    EnrichFlood(rows, EnrichScan(Denied, rows, EnrichScan(Allowed, rows, EnrichLogin(rows, e))))
  }
}
