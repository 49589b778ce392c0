/**
  The realtime broker: one bounded queue per subscriber, eviction on overflow.
  Ghost state records everything published and everything a subscriber took
  from its queue, so that `Valid` states what each subscriber has seen.
 */
module Realtime {

  /** An event without an owner has the empty owner. */
  datatype Event = Event(owner: string, body: string)

  datatype Publication = Publication(event: Event, toAll: bool)

  const QUEUE_LIMIT: nat := 100

  predicate Meant(p: Publication, owner: string) {
    p.toAll || (p.event.owner != "" && p.event.owner == owner)
  }

  /** The published events that are meant for an owner, in order. */
  ghost function Inbox(log: seq<Publication>, owner: string): seq<Event> {
    if log == [] then []
    else
      var n := |log| - 1;
      Inbox(log[..n], owner) + if Meant(log[n], owner) then [log[n].event] else []
  }

  /** To all, or to the owner that the event names. */
  ghost predicate AddressedTo(p: Publication, owner: string) {
    p.toAll || (owner != "" && owner == p.event.owner)
  }

  /** The events at the indices `at`: in order, addressed to the owner, and none missing. */
  ghost predicate InboxAt(log: seq<Publication>, owner: string, r: seq<Event>, at: seq<int>) {
    && |at| == |r|
    && (forall k :: 0 <= k < |at| ==> 0 <= at[k] < |log| && AddressedTo(log[at[k]], owner) && r[k] == log[at[k]].event)
    && (forall k, l :: 0 <= k < l < |at| ==> at[k] < at[l])
    && (forall j :: 0 <= j < |log| && AddressedTo(log[j], owner) ==> j in at)
  }

  lemma {:induction false} InboxExtends(log: seq<Publication>, p: Publication, owner: string, r: seq<Event>, at: seq<int>)
    requires InboxAt(log, owner, r, at)
    ensures AddressedTo(p, owner) ==> InboxAt(log + [p], owner, r + [p.event], at + [|log|])
    ensures !AddressedTo(p, owner) ==> InboxAt(log + [p], owner, r, at)
  {
  }

  /** The inbox is the log filtered by what is addressed to the owner. */
  lemma {:induction false} InboxMeaning(log: seq<Publication>, owner: string) returns (at: seq<int>)
    ensures InboxAt(log, owner, Inbox(log, owner), at)
  {
    at := [];
    if log != [] {
      var n := |log| - 1;
      var before := InboxMeaning(log[..n], owner);
      InboxExtends(log[..n], log[n], owner, Inbox(log[..n], owner), before);
      assert log == log[..n] + [log[n]];
      at := if AddressedTo(log[n], owner) then before + [n] else before;
    }
  }

  function QueueAfter(queue: seq<Event>, p: Publication, owner: string): seq<Event> {
    if Meant(p, owner) && |queue| < QUEUE_LIMIT then queue + [p.event] else queue
  }

  lemma {:induction false} InboxStep(log: seq<Publication>, p: Publication, since: nat, owner: string)
    requires since <= |log|
    ensures Inbox((log + [p])[since..], owner)
      == if Meant(p, owner) then Inbox(log[since..], owner) + [p.event] else Inbox(log[since..], owner)
  {
    assert (log + [p])[since..] == log[since..] + [p];
    assert (log[since..] + [p])[..|log| - since] == log[since..];
  }

  class Subscriber {
    const owner: string
    var queue: seq<Event>
    ghost var taken: seq<Event>
    ghost const since: nat

    constructor (owner: string, ghost since: nat)
      ensures this.owner == owner && this.since == since && queue == [] && taken == []
    {
      this.owner, this.since, queue, taken := owner, since, [], [];
    }

    /** All that was put into the queue. */
    ghost function Received(): seq<Event>
      reads this
    {
      taken + queue
    }

    /** Puts an event into the queue unless it is full. */
    method PutNoWait(e: Event) returns (ok: bool)
      modifies this
      ensures ok <==> |old(queue)| < 100
      ensures queue == if ok then old(queue) + [e] else old(queue)
      ensures taken == old(taken)
      ensures Received() == if ok then old(Received()) + [e] else old(Received())
    {
      ok := |queue| < QUEUE_LIMIT;
      if ok {
        queue := queue + [e];
      }
      assert taken + (old(queue) + [e]) == taken + old(queue) + [e];
    }

    method Get() returns (e: Event)
      requires queue != []
      modifies this
      ensures e == old(queue)[0] && queue == old(queue)[1..] && taken == old(taken) + [e]
      ensures Received() == old(Received())
    {
      e := queue[0];
      taken := taken + [e];
      queue := queue[1..];
    }
  }

  class RealtimeBroker {
    var subscribers: set<Subscriber>
    ghost var log: seq<Publication>
    ghost var everyone: set<Subscriber>

    constructor ()
      ensures Valid() && subscribers == {} && everyone == {} && log == []
    {
      subscribers, everyone, log := {}, {}, [];
    }

    /** The events meant for a subscriber since it subscribed. */
    ghost function Due(s: Subscriber): seq<Event>
      reads this, s
      requires s.since <= |log|
    {
      Inbox(log[s.since..], s.owner)
    }

    /** A registered subscriber has received exactly its events; one that left, a prefix of them. */
    ghost predicate Served(s: Subscriber)
      reads this, s
    {
      && s.since <= |log| && |s.queue| <= QUEUE_LIMIT
      && s.Received() <= Due(s)
      && (s in subscribers ==> s.Received() == Due(s))
    }

    ghost predicate Valid()
      reads this, everyone
    {
      subscribers <= everyone && forall s :: s in everyone ==> Served(s)
    }

    /** What a registered subscriber took and still has queued is what was addressed to it since it subscribed. */
    lemma {:induction false} ReceivedMeaning(s: Subscriber) returns (at: seq<int>)
      requires Valid() && s in subscribers
      ensures s.since <= |log| && |s.queue| <= 100
      ensures InboxAt(log[s.since..], s.owner, s.taken + s.queue, at)
    {
      assert Served(s);
      at := InboxMeaning(log[s.since..], s.owner);
    }

    /** What an evicted or departed subscriber saw is the beginning of what was addressed to it. */
    lemma {:induction false} DepartedMeaning(s: Subscriber) returns (all: seq<Event>, at: seq<int>)
      requires Valid() && s in everyone
      ensures s.since <= |log| && InboxAt(log[s.since..], s.owner, all, at) && s.taken + s.queue <= all
    {
      assert Served(s);
      all := Inbox(log[s.since..], s.owner);
      at := InboxMeaning(log[s.since..], s.owner);
    }

    method Subscribe(owner: string) returns (s: Subscriber)
      requires Valid()
      modifies this
      ensures Valid() && log == old(log)
      ensures fresh(s) && s.owner == owner && s.since == |log| && s.Received() == []
      ensures subscribers == old(subscribers) + {s} && everyone == old(everyone) + {s}
    {
      s := new Subscriber(owner, |log|);
      assert log[|log|..] == [];
      subscribers := subscribers + {s};
      everyone := everyone + {s};
    }

    /** Leaving the subscription; an evicted subscriber may leave too. */
    method Unsubscribe(s: Subscriber)
      requires Valid() && s in everyone
      modifies this
      ensures Valid() && log == old(log) && everyone == old(everyone)
      ensures subscribers == old(subscribers) - {s}
    {
      subscribers := subscribers - {s};
    }

    method Consume(s: Subscriber) returns (e: Event)
      requires Valid() && s in everyone && s.queue != []
      modifies s
      ensures Valid() && e == old(s.queue)[0] && s.queue == old(s.queue)[1..] && s.taken == old(s.taken) + [e]
    {
      e := s.Get();
      assert forall t :: t in everyone && t != s ==> old(Served(t));
    }

    method Publish(e: Event)
      requires Valid()
      modifies this, subscribers
      ensures Valid() && everyone == old(everyone) && log == old(log) + [Publication(e, false)]
      ensures subscribers == old(Remaining(Publication(e, false)))
      ensures subscribers <= old(subscribers)
      ensures forall s :: s in old(subscribers) ==> s.taken == old(s.taken)
      ensures forall s :: s in old(subscribers) && (e.owner == "" || s.owner != e.owner) ==>
        s in subscribers && s.queue == old(s.queue)
      ensures forall s :: s in old(subscribers) && e.owner != "" && s.owner == e.owner ==>
        if |old(s.queue)| < 100 then s in subscribers && s.queue == old(s.queue) + [e]
        else s !in subscribers && s.queue == old(s.queue)
    {
      if e.owner == "" {
        ghost var p := Publication(e, false);
        forall s | s in everyone
          ensures s.since <= |log| && Inbox((log + [p])[s.since..], s.owner) == Due(s)
        {
          assert Served(s);
          InboxStep(log, p, s.since, s.owner);
        }
        log := log + [p];
        return;
      }
      PublishTo(Publication(e, false));
    }

    method PublishAll(e: Event)
      requires Valid()
      modifies this, subscribers
      ensures Valid() && everyone == old(everyone) && log == old(log) + [Publication(e, true)]
      ensures subscribers == old(Remaining(Publication(e, true)))
      ensures subscribers <= old(subscribers)
      ensures forall s :: s in old(subscribers) ==> s.taken == old(s.taken)
      ensures forall s :: s in old(subscribers) ==>
        if |old(s.queue)| < 100 then s in subscribers && s.queue == old(s.queue) + [e]
        else s !in subscribers && s.queue == old(s.queue)
    {
      PublishTo(Publication(e, true));
    }

    /** The subscribers that a publication does not overflow. */
    ghost function Remaining(p: Publication): set<Subscriber>
      reads this, subscribers
    {
      set s | s in subscribers && !(Meant(p, s.owner) && |s.queue| >= QUEUE_LIMIT)
    }

    /** Offers the event to every matching subscriber; `stale` are those whose queue is full. */
    method Offer(p: Publication) returns (stale: set<Subscriber>)
      modifies subscribers
      ensures stale == old(subscribers - Remaining(p))
      ensures forall s :: s in subscribers ==> s.taken == old(s.taken) && s.queue == QueueAfter(old(s.queue), p, s.owner)
    {
      stale := {};
      var rest := subscribers;
      while rest != {}
        invariant rest <= subscribers
        invariant stale <= subscribers - rest
        invariant forall s :: s in subscribers - rest ==>
          (s in stale <==> Meant(p, s.owner) && |old(s.queue)| >= QUEUE_LIMIT)
        invariant forall s :: s in subscribers ==> s.taken == old(s.taken)
        invariant forall s :: s in rest ==> s.queue == old(s.queue)
        invariant forall s :: s in subscribers - rest ==> s.queue == QueueAfter(old(s.queue), p, s.owner)
        decreases |rest|
      {
        var s :| s in rest;
        rest := rest - {s};
        if Meant(p, s.owner) {
          var ok := s.PutNoWait(p.event);
          if !ok {
            stale := stale + {s};
          }
        }
      }
    }

    /** Queues the event for every matching subscriber and evicts those whose queue is full. */
    method PublishTo(p: Publication)
      requires Valid()
      modifies this, subscribers
      ensures Valid() && everyone == old(everyone) && log == old(log) + [p]
      ensures subscribers == old(Remaining(p))
      ensures forall s :: s in old(subscribers) ==>
        s.taken == old(s.taken) && s.queue == QueueAfter(old(s.queue), p, s.owner)
    {
      var stale := Offer(p);
      forall s | s in everyone
        ensures s.since <= |log + [p]| && s.Received() <= Inbox((log + [p])[s.since..], s.owner)
        ensures s in subscribers - stale ==> s.Received() == Inbox((log + [p])[s.since..], s.owner)
      {
        assert old(Served(s));
        InboxStep(log, p, s.since, s.owner);
        assert s.taken + (old(s.queue) + [p.event]) == s.taken + old(s.queue) + [p.event];
      }
      subscribers := subscribers - stale;
      log := log + [p];
    }
  }
}
