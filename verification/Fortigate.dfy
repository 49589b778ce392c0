/**
  The FortiGate aggregator: one output per event type and source address, built
  by mutating groups in one pass, proved equal to a description of each group in
  terms of the events that fall into it.
 */
module Fortigate {
  import opened Wrappers
  import opened Grouping

  /** A raw event; a missing text is "".  `at` is the timestamp, or the current time if there was none. */
  datatype Raw = Raw(eventType: string, action: string, sourceIp: string, severity: string, at: int,
                     destinationIp: string, rawType: string, subtype: string, message: string, user: string)

  datatype Key = Key(eventType: string, sourceIp: string)

  datatype Sample = Sample(at: int, user: string, message: string)

  datatype Group = Group(key: Key, severity: string, at: int, destinationIp: string, action: string, rawType: string,
                         subtype: string, message: string, count: nat, destinations: set<string>, users: set<string>,
                         attempts: seq<Sample>)

  const MAX_ATTEMPTS: nat := 20

  function KeyOf(e: Raw): Key {
    Key(if e.eventType != "" then e.eventType
        else if Lower(e.action) in {"deny", "blocked", "block"} then "network.deny" else "network.event",
        if e.sourceIp != "" then e.sourceIp else "unknown")
  }

  function SeverityOf(e: Raw): string {
    Lower(if e.severity != "" then e.severity else "informational")
  }

  function Rank(severity: string): nat {
    if severity == "critical" then 4
    else if severity == "high" then 3
    else if severity == "medium" then 2
    else if severity == "low" then 1
    else 0
  }

  function SampleOf(e: Raw): Sample {
    Sample(e.at, e.user, e.message)
  }

  function Known(s: string): set<string> {
    if s != "" then {s} else {}
  }

  // ---------- What a group is ----------

  ghost function Samples(f: seq<Raw>): (r: seq<Sample>)
    ensures |r| == |f|
  {
    seq(|f|, i requires 0 <= i < |f| => SampleOf(f[i]))
  }

  ghost predicate FirstOfMaximalRank(f: seq<Raw>, m: int) {
    && 0 <= m < |f|
    && (forall i :: 0 <= i < |f| ==> Rank(SeverityOf(f[i])) <= Rank(SeverityOf(f[m])))
    && (forall i :: 0 <= i < m ==> Rank(SeverityOf(f[i])) < Rank(SeverityOf(f[m])))
  }

  /** Event j is later than all before it and has a message; the first event counts in any case. */
  ghost predicate SetsMessage(f: seq<Raw>, j: int) {
    0 <= j < |f| && (j == 0 || (f[j].message != "" && forall i :: 0 <= i < j ==> f[i].at < f[j].at))
  }

  ghost predicate LastToSetMessage(f: seq<Raw>, j: int) {
    SetsMessage(f, j) && forall i :: j < i < |f| ==> !SetsMessage(f, i)
  }

  /** The group of the events f, in terms of f alone. */
  ghost predicate Describes(g: Group, f: seq<Raw>) {
    && f != [] && DescribesStart(g, f)
    && DescribesSets(g, f) && DescribesTimes(g, f) && DescribesSeverity(g, f)
  }

  ghost predicate DescribesStart(g: Group, f: seq<Raw>)
    requires f != []
  {
    && g.count == |f|
    && g.destinationIp == f[0].destinationIp && g.action == f[0].action
    && g.rawType == f[0].rawType && g.subtype == f[0].subtype
    && g.attempts == Samples(f)[..if |f| < MAX_ATTEMPTS then |f| else MAX_ATTEMPTS]
  }

  ghost predicate DescribesSets(g: Group, f: seq<Raw>) {
    && (forall d :: d in g.destinations <==> d != "" && exists i :: 0 <= i < |f| && f[i].destinationIp == d)
    && (forall u :: u in g.users <==> u != "" && exists i :: 0 <= i < |f| && f[i].user == u)
  }

  ghost predicate DescribesSeverity(g: Group, f: seq<Raw>) {
    exists m :: FirstOfMaximalRank(f, m) && g.severity == SeverityOf(f[m])
  }

  ghost predicate DescribesTimes(g: Group, f: seq<Raw>) {
    && (forall i :: 0 <= i < |f| ==> f[i].at <= g.at) && (exists i :: 0 <= i < |f| && f[i].at == g.at)
    && (exists j :: LastToSetMessage(f, j) && g.message == f[j].message)
  }

  // ---------- The aggregation, spelled out on raw events ----------

  ghost predicate IsDenial(action: string) {
    SameIgnoringCase(action, "deny") || SameIgnoringCase(action, "blocked") || SameIgnoringCase(action, "block")
  }

  /** The given type; else a denial is `network.deny` and anything else `network.event`.  A missing source is `unknown`. */
  lemma {:induction false} KeyMeaning(e: Raw)
    ensures e.eventType != "" ==> KeyOf(e).eventType == e.eventType
    ensures e.eventType == "" && IsDenial(e.action) ==> KeyOf(e).eventType == "network.deny"
    ensures e.eventType == "" && !IsDenial(e.action) ==> KeyOf(e).eventType == "network.event"
    ensures KeyOf(e).sourceIp == if e.sourceIp == "" then "unknown" else e.sourceIp
  {
    LowerIs(e.action, "deny");
    LowerIs(e.action, "blocked");
    LowerIs(e.action, "block");
  }

  /** The severities that the service ranks, in ascending order. */
  ghost const SCALE: seq<string> := ["low", "medium", "high", "critical"]

  /** Position on the scale, counted from one; a text that is not on it, such as `informational`, has none. */
  lemma {:induction false} RankMeaning(e: Raw)
    ensures forall k :: 0 <= k < |SCALE| && SameIgnoringCase(e.severity, SCALE[k]) ==> Rank(SeverityOf(e)) == k + 1
    ensures (forall k :: 0 <= k < |SCALE| ==> !SameIgnoringCase(e.severity, SCALE[k])) ==> Rank(SeverityOf(e)) == 0
  {
    forall k | 0 <= k < |SCALE|
      ensures Lower(e.severity) == SCALE[k] <==> SameIgnoringCase(e.severity, SCALE[k])
    {
      LowerIs(e.severity, SCALE[k]);
    }
    LowerIs("informational", "informational");
    assert SCALE[0] == "low" && SCALE[1] == "medium" && SCALE[2] == "high" && SCALE[3] == "critical";
  }

  lemma {:induction false} SeverityMeaning(e: Raw)
    ensures e.severity == "" ==> SeverityOf(e) == "informational"
    ensures e.severity != "" ==> SameIgnoringCase(SeverityOf(e), e.severity) && IsLowerCase(SeverityOf(e))
  {
    LowerIs("informational", "informational");
  }

  /** A group samples the first twenty of its events. */
  lemma {:induction false} AttemptsMeaning(g: Group, f: seq<Raw>)
    requires Describes(g, f)
    ensures |g.attempts| == if |f| < 20 then |f| else 20
    ensures forall i :: 0 <= i < |g.attempts| ==>
      g.attempts[i].at == f[i].at && g.attempts[i].user == f[i].user && g.attempts[i].message == f[i].message
  {
  }

  // ---------- The loop ----------

  function Start(e: Raw): Group {
    Group(KeyOf(e), SeverityOf(e), e.at, e.destinationIp, e.action, e.rawType, e.subtype, e.message, 1,
          Known(e.destinationIp), Known(e.user), [SampleOf(e)])
  }

  /** The in-place update of an existing group. */
  function Merge(g: Group, e: Raw): Group {
    var later := e.at > g.at;
    g.(count := g.count + 1,
       destinations := g.destinations + Known(e.destinationIp),
       users := g.users + Known(e.user),
       attempts := if |g.attempts| < MAX_ATTEMPTS then g.attempts + [SampleOf(e)] else g.attempts,
       severity := if Rank(SeverityOf(e)) > Rank(g.severity) then SeverityOf(e) else g.severity,
       at := if later then e.at else g.at,
       message := if later && e.message != "" then e.message else g.message)
  }

  lemma {:induction false} StartDescribes(e: Raw)
    ensures Describes(Start(e), [e])
  {
    var f := [e];
    assert FirstOfMaximalRank(f, 0);
    assert LastToSetMessage(f, 0);
    assert f[0].at == e.at && f[0].destinationIp == e.destinationIp && f[0].user == e.user;
    assert Samples(f)[..1] == [SampleOf(e)];
  }

  lemma {:induction false} MergeSeverity(g: Group, f: seq<Raw>, e: Raw)
    requires DescribesSeverity(g, f)
    ensures DescribesSeverity(Merge(g, e), f + [e])
  {
    var m :| FirstOfMaximalRank(f, m) && g.severity == SeverityOf(f[m]);
    if Rank(SeverityOf(e)) > Rank(g.severity) {
      assert FirstOfMaximalRank(f + [e], |f|);
    } else {
      assert FirstOfMaximalRank(f + [e], m);
    }
  }

  lemma {:induction false} MergeTimes(g: Group, f: seq<Raw>, e: Raw)
    requires f != [] && DescribesTimes(g, f)
    ensures DescribesTimes(Merge(g, e), f + [e])
  {
    var f', n := f + [e], |f|;
    var latest :| 0 <= latest < |f| && f[latest].at == g.at;
    var j :| LastToSetMessage(f, j) && g.message == f[j].message;
    assert f'[if e.at > g.at then n else latest].at == Merge(g, e).at;
    forall i | 0 <= i < n
      ensures SetsMessage(f', i) <==> SetsMessage(f, i)
    {
      assert forall k :: 0 <= k <= i ==> f'[k] == f[k];
    }
    assert SetsMessage(f', n) ==> f'[latest].at < e.at;
    if e.at > g.at && e.message != "" {
      assert LastToSetMessage(f', n);
    } else {
      assert !SetsMessage(f', n);
      assert LastToSetMessage(f', j);
    }
  }

  lemma {:induction false} MergeStart(g: Group, f: seq<Raw>, e: Raw)
    requires f != [] && DescribesStart(g, f)
    ensures DescribesStart(Merge(g, e), f + [e])
  {
    assert Samples(f + [e]) == Samples(f) + [SampleOf(e)];
  }

  lemma {:induction false} MergeSets(g: Group, f: seq<Raw>, e: Raw)
    requires DescribesSets(g, f)
    ensures DescribesSets(Merge(g, e), f + [e])
  {
    var f' := f + [e];
    assert f'[|f|] == e && forall i :: 0 <= i < |f| ==> f'[i] == f[i];
  }

  lemma {:induction false} MergeDescribes(g: Group, f: seq<Raw>, e: Raw)
    requires Describes(g, f)
    ensures Describes(Merge(g, e), f + [e])
  {
    MergeSeverity(g, f, e);
    MergeTimes(g, f, e);
    MergeStart(g, f, e);
    MergeSets(g, f, e);
  }

  function GroupKey(g: Group): Key {
    g.key
  }

  function CountOf(g: Group): nat {
    g.count
  }

  ghost const BY_SOURCE: Shape<Raw, Group, Key> := Shape(KeyOf, GroupKey, CountOf, Describes)

  lemma {:induction false} GroupStarted(groups: seq<Group>, events: seq<Raw>, e: Raw)
    requires Grouped(BY_SOURCE, groups, events) && Find(GroupKey, groups, KeyOf(e)) == |groups|
    ensures Grouped(BY_SOURCE, groups + [Start(e)], events + [e])
  {
    StartDescribes(e);
    GroupAdded(BY_SOURCE, groups, events, e, Start(e));
  }

  lemma {:induction false} GroupUpdated(groups: seq<Group>, events: seq<Raw>, e: Raw, k: nat)
    requires Grouped(BY_SOURCE, groups, events) && k < |groups| && groups[k].key == KeyOf(e)
    ensures Grouped(BY_SOURCE, groups[k := Merge(groups[k], e)], events + [e])
  {
    assert DescribedIn(BY_SOURCE, groups[k], events);
    MergeDescribes(groups[k], Members(KeyOf, events, KeyOf(e)), e);
    GroupMerged(BY_SOURCE, groups, events, e, k, Merge(groups[k], e));
  }

  /** Adds one event to its group, creating the group if needed. */
  method AddRaw(groups0: seq<Group>, ghost events: seq<Raw>, e: Raw) returns (groups: seq<Group>)
    requires Grouped(BY_SOURCE, groups0, events)
    ensures Grouped(BY_SOURCE, groups, events + [e])
  {
    var k := Find(GroupKey, groups0, KeyOf(e));
    if k == |groups0| {
      GroupStarted(groups0, events, e);
      groups := groups0 + [Start(e)];
    } else {
      GroupUpdated(groups0, events, e, k);
      groups := groups0[k := Merge(groups0[k], e)];
    }
  }

  /** The groups of the events: one per event type and source, in order of first appearance, each described. */
  method Aggregate(events: seq<Raw>) returns (groups: seq<Group>)
    ensures Grouped(BY_SOURCE, groups, events)
  {
    groups := [];
    Prefixes(events, 0);
    for n := 0 to |events|
      invariant Grouped(BY_SOURCE, groups, events[..n])
    {
      Prefixes(events, n);
      groups := AddRaw(groups, events[..n], events[n]);
    }
    Prefixes(events, |events|);
  }

  // ---------- Uniqueness ----------

  lemma {:induction false} SameSeverity(g: Group, h: Group, f: seq<Raw>)
    requires DescribesSeverity(g, f) && DescribesSeverity(h, f)
    ensures g.severity == h.severity
  {
    var m :| FirstOfMaximalRank(f, m) && g.severity == SeverityOf(f[m]);
    var n :| FirstOfMaximalRank(f, n) && h.severity == SeverityOf(f[n]);
    assert m == n;
  }

  lemma {:induction false} SameTimes(g: Group, h: Group, f: seq<Raw>)
    requires DescribesTimes(g, f) && DescribesTimes(h, f)
    ensures g.at == h.at && g.message == h.message
  {
    var m :| LastToSetMessage(f, m) && g.message == f[m].message;
    var n :| LastToSetMessage(f, n) && h.message == f[n].message;
    assert m == n;
  }

  /** The description leaves no choice. */
  lemma {:induction false} DescriptionUnique(g: Group, h: Group, f: seq<Raw>)
    requires g.key == h.key && Describes(g, f) && Describes(h, f)
    ensures g == h
  {
    SameSeverity(g, h, f);
    SameTimes(g, h, f);
    assert g.destinations == h.destinations;
    assert g.users == h.users;
  }

  /** So the aggregation of a list of events is determined by `Grouped`. */
  lemma {:induction false} AggregateUnique(a: seq<Group>, b: seq<Group>, events: seq<Raw>)
    requires Grouped(BY_SOURCE, a, events) && Grouped(BY_SOURCE, b, events)
    ensures a == b
  {
    forall g: Group, h: Group, f: seq<Raw> | g.key == h.key && Describes(g, f) && Describes(h, f)
      ensures g == h
    {
      DescriptionUnique(g, h, f);
    }
    GroupedUnique(BY_SOURCE, a, b, events);
  }
}
