/**
  The payloads that the agent builds from Windows security events.  Failed logons
  are grouped per user and source and put in front, the last new group first;
  privileged logons and file accesses follow one by one, in event order.
 */
module WindowsPayloads {
  import opened Grouping

  const FAILED_LOGON := 4625
  const PRIVILEGED_LOGON := 4672
  const FILE_ACCESS := 4663

  /** `user` and `source` are the resolved account and address, "unknown" if there was none. */
  datatype Event = Event(eventId: int, user: string, source: string, at: int, recordId: string)

  datatype Key = Key(user: string, source: string)

  datatype Logons = Logons(key: Key, at: int, count: nat, recordIds: seq<string>)

  datatype Payload = FailedLogin(logons: Logons) | Single(event: Event)

  function KeyOf(e: Event): Key {
    Key(e.user, e.source)
  }

  predicate IsSingle(e: Event) {
    e.eventId == PRIVILEGED_LOGON || e.eventId == FILE_ACCESS
  }

  // ---------- Meaning ----------

  ghost function Failed(events: seq<Event>): seq<Event> {
    if events == [] then []
    else
      var n := |events| - 1;
      Failed(events[..n]) + if events[n].eventId == FAILED_LOGON then [events[n]] else []
  }

  ghost function Singles(events: seq<Event>): seq<Payload> {
    if events == [] then []
    else
      var n := |events| - 1;
      Singles(events[..n]) + if IsSingle(events[n]) then [Single(events[n])] else []
  }

  /** The failed logons are the events with id 4625, in order. */
  lemma {:induction false} FailedMeaning(events: seq<Event>) returns (at: seq<nat>)
    ensures Selects(events, (e: Event) => e.eventId == 4625, at) && Drawn(events, at, Failed(events))
  {
    at := [];
    if events != [] {
      var n := |events| - 1;
      at := FailedMeaning(events[..n]);
      assert events == events[..n] + [events[n]];
      SelectsStep(events[..n], events[n], (e: Event) => e.eventId == 4625, at);
      DrawnStep(events[..n], events[n], at, Failed(events[..n]));
      if events[n].eventId == 4625 {
        at := at + [n];
      }
    }
  }

  /** The single payloads are those of the events with id 4672 or 4663, in order. */
  lemma {:induction false} SinglesMeaning(events: seq<Event>) returns (at: seq<nat>, out: seq<Event>)
    ensures Selects(events, (e: Event) => e.eventId == 4672 || e.eventId == 4663, at) && Drawn(events, at, out)
    ensures |Singles(events)| == |out| && forall k :: 0 <= k < |out| ==> Singles(events)[k] == Single(out[k])
  {
    at, out := [], [];
    if events != [] {
      var n := |events| - 1;
      at, out := SinglesMeaning(events[..n]);
      assert events == events[..n] + [events[n]];
      SelectsStep(events[..n], events[n], (e: Event) => e.eventId == 4672 || e.eventId == 4663, at);
      DrawnStep(events[..n], events[n], at, out);
      if events[n].eventId == 4672 || events[n].eventId == 4663 {
        at, out := at + [n], out + [events[n]];
      }
    }
  }

  /** Two logons share a group exactly if account and address are equal. */
  lemma {:induction false} KeyMeaning(a: Event, b: Event)
    ensures KeyOf(a) == KeyOf(b) <==> a.user == b.user && a.source == b.source
    ensures KeyOf(a).user == a.user && KeyOf(a).source == a.source
  {
  }

  ghost function RecordIds(f: seq<Event>): (r: seq<string>)
    ensures |r| == |f|
  {
    seq(|f|, i requires 0 <= i < |f| => f[i].recordId)
  }

  ghost predicate Describes(g: Logons, f: seq<Event>) {
    && f != [] && g.count == |f| && g.recordIds == RecordIds(f)
    && (forall i :: 0 <= i < |f| ==> f[i].at <= g.at)
    && (exists i :: 0 <= i < |f| && f[i].at == g.at)
  }

  function GroupKey(g: Logons): Key {
    g.key
  }

  function CountOf(g: Logons): nat {
    g.count
  }

  ghost const BY_ACCOUNT: Shape<Event, Logons, Key> := Shape(KeyOf, GroupKey, CountOf, Describes)

  /** The payloads of the groups, last group first. */
  function Reversed(groups: seq<Logons>): (r: seq<Payload>)
    ensures |r| == |groups|
    ensures forall i :: 0 <= i < |groups| ==> r[i] == FailedLogin(groups[|groups| - 1 - i])
  {
    seq(|groups|, i requires 0 <= i < |groups| => FailedLogin(groups[|groups| - 1 - i]))
  }

  // ---------- Steps of the loop ----------

  function Merge(g: Logons, e: Event): Logons {
    g.(at := if e.at > g.at then e.at else g.at, count := g.count + 1, recordIds := g.recordIds + [e.recordId])
  }

  /** A new group as `setdefault` leaves it before the update. */
  function Fresh(e: Event): Logons {
    Logons(KeyOf(e), e.at, 0, [])
  }

  lemma {:induction false} MergeDescribes(g: Logons, f: seq<Event>, e: Event)
    requires Describes(g, f) || (f == [] && g == Fresh(e))
    ensures Describes(Merge(g, e), f + [e])
  {
    var f' := f + [e];
    assert f'[|f|] == e && RecordIds(f') == RecordIds(f) + [e.recordId];
    if f != [] && e.at <= g.at {
      var i :| 0 <= i < |f| && f[i].at == g.at;
      assert f'[i].at == g.at;
    }
  }

  lemma {:induction false} GroupUpdated(groups: seq<Logons>, f: seq<Event>, e: Event, k: nat)
    requires Grouped(BY_ACCOUNT, groups, f) && k < |groups| && groups[k].key == KeyOf(e)
    ensures Grouped(BY_ACCOUNT, groups[k := Merge(groups[k], e)], f + [e])
  {
    assert DescribedIn(BY_ACCOUNT, groups[k], f);
    MergeDescribes(groups[k], Members(KeyOf, f, KeyOf(e)), e);
    GroupMerged(BY_ACCOUNT, groups, f, e, k, Merge(groups[k], e));
  }

  lemma {:induction false} GroupStarted(groups: seq<Logons>, f: seq<Event>, e: Event)
    requires Grouped(BY_ACCOUNT, groups, f) && Find(GroupKey, groups, KeyOf(e)) == |groups|
    ensures Grouped(BY_ACCOUNT, groups + [Merge(Fresh(e), e)], f + [e])
  {
    MergeDescribes(Fresh(e), [], e);
    assert [] + [e] == [e];
    GroupAdded(BY_ACCOUNT, groups, f, e, Merge(Fresh(e), e));
  }

  /** Records one failed logon in its group, creating the group if needed. */
  method AddLogon(groups0: seq<Logons>, ghost f: seq<Event>, e: Event) returns (groups: seq<Logons>)
    requires Grouped(BY_ACCOUNT, groups0, f)
    ensures Grouped(BY_ACCOUNT, groups, f + [e])
  {
    var k := Find(GroupKey, groups0, KeyOf(e));
    if k == |groups0| {
      GroupStarted(groups0, f, e);
      groups := groups0 + [Merge(Fresh(e), e)];
    } else {
      GroupUpdated(groups0, f, e, k);
      groups := groups0[k := Merge(groups0[k], e)];
    }
  }

  lemma {:induction false} SplitStep(events: seq<Event>, n: nat)
    requires n < |events|
    ensures Failed(events[..n + 1])
      == if events[n].eventId == FAILED_LOGON then Failed(events[..n]) + [events[n]] else Failed(events[..n])
    ensures Singles(events[..n + 1])
      == if IsSingle(events[n]) then Singles(events[..n]) + [Single(events[n])] else Singles(events[..n])
  {
    assert events[..n + 1][..n] == events[..n];
  }

  /** Inserts the group payloads one by one at the front. */
  method InsertInFront(groups: seq<Logons>, rest: seq<Payload>) returns (payloads: seq<Payload>)
    ensures payloads == Reversed(groups) + rest
  {
    payloads := rest;
    for i := 0 to |groups|
      invariant payloads == Reversed(groups[..i]) + rest
    {
      assert Reversed(groups[..i + 1]) == [FailedLogin(groups[i])] + Reversed(groups[..i]);
      payloads := [FailedLogin(groups[i])] + payloads;
    }
    assert groups[..|groups|] == groups;
  }

  /** Group payloads in reverse order of first appearance, then the single ones in order. */
  method BuildPayloads(events: seq<Event>) returns (payloads: seq<Payload>)
    ensures exists groups :: Grouped(BY_ACCOUNT, groups, Failed(events)) && payloads == Reversed(groups) + Singles(events)
  {
    var groups: seq<Logons> := [];
    payloads := [];
    for n := 0 to |events|
      invariant Grouped(BY_ACCOUNT, groups, Failed(events[..n]))
      invariant payloads == Singles(events[..n])
    {
      SplitStep(events, n);
      if events[n].eventId == FAILED_LOGON {
        groups := AddLogon(groups, Failed(events[..n]), events[n]);
      } else if IsSingle(events[n]) {
        payloads := payloads + [Single(events[n])];
      }
    }
    assert events[..|events|] == events;
    payloads := InsertInFront(groups, payloads);
  }

  /** The groups are determined by the events. */
  lemma {:induction false} GroupsUnique(a: seq<Logons>, b: seq<Logons>, f: seq<Event>)
    requires Grouped(BY_ACCOUNT, a, f) && Grouped(BY_ACCOUNT, b, f)
    ensures a == b
  {
    GroupedUnique(BY_ACCOUNT, a, b, f);
  }
}
