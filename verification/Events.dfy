/** Characteristic events on their way to a client: pushed on a small queue that keeps the
    newest, and coalesced when they are sent, one per characteristic. */
module Events {
  import opened Options
  import opened RingQueue

  const EVENT_QUEUE_SIZE: nat := 4

  datatype Event = Event(characteristic: nat, value: seq<int>)

  /** The place of a characteristic in the list, or its length. */
  function PlaceOf(list: seq<Event>, ch: nat): (i: nat)
    ensures i <= |list| && (i < |list| ==> list[i].characteristic == ch)
    ensures forall j :: 0 <= j < i ==> list[j].characteristic != ch
  {
    if list == [] || list[0].characteristic == ch then 0 else 1 + PlaceOf(list[1..], ch)
  }

  /** The value of the last event of a characteristic. */
  function LastValue(events: seq<Event>, ch: nat): Option<seq<int>> {
    if events == [] then None
    else if events[|events| - 1].characteristic == ch then Some(events[|events| - 1].value)
    else LastValue(events[..|events| - 1], ch)
  }

  /** The list with one more popped event: its characteristic's entry takes the value. */
  function Merged(list: seq<Event>, e: Event): seq<Event> {
    var i := PlaceOf(list, e.characteristic);
    if i < |list| then list[i := e] else list + [e]
  }

  function Coalesced(list: seq<Event>, popped: seq<Event>): seq<Event>
    decreases |popped|
  {
    if popped == [] then list else Coalesced(Merged(list, popped[0]), popped[1..])
  }

  predicate Distinct(list: seq<Event>) {
    forall i, j :: 0 <= i < j < |list| ==> list[i].characteristic != list[j].characteristic
  }

  predicate Holds(list: seq<Event>, ch: nat) { exists i :: 0 <= i < |list| && list[i].characteristic == ch }

  /** A list sums up the popped events: the same characteristics, each once, in the order
      of their first pop, each with the value of its last. */
  ghost predicate SumsUp(list: seq<Event>, popped: seq<Event>) {
    && Distinct(list)
    && (forall ch :: Holds(list, ch) <==> Holds(popped, ch))
    && (forall i :: 0 <= i < |list| ==> LastValue(popped, list[i].characteristic) == Some(list[i].value))
    && (forall i, j :: 0 <= i < j < |list| ==>
          PlaceOf(popped, list[i].characteristic) < PlaceOf(popped, list[j].characteristic))
  }

  lemma {:induction false} PlaceStays(a: seq<Event>, e: Event, ch: nat)
    ensures PlaceOf(a + [e], ch) == if PlaceOf(a, ch) < |a| || e.characteristic == ch then PlaceOf(a, ch) else |a| + 1
    decreases |a|
  {
    if a == [] {
      assert (a + [e])[1..] == [];
    } else {
      assert (a + [e])[1..] == a[1..] + [e];
      if a[0].characteristic != ch { PlaceStays(a[1..], e, ch); }
    }
  }

  lemma HoldsPlace(list: seq<Event>, ch: nat)
    ensures Holds(list, ch) <==> PlaceOf(list, ch) < |list|
  {
    var i := PlaceOf(list, ch);
    if i < |list| { assert list[i].characteristic == ch; }
  }

  lemma LastOfSnoc(a: seq<Event>, e: Event, ch: nat)
    ensures LastValue(a + [e], ch) == if e.characteristic == ch then Some(e.value) else LastValue(a, ch)
  {
    assert (a + [e])[..|a|] == a;
  }

  lemma HoldsSnoc(a: seq<Event>, e: Event, ch: nat)
    ensures Holds(a + [e], ch) <==> Holds(a, ch) || e.characteristic == ch
  {
    var b := a + [e];
    assert b[|a|] == e;
    if Holds(a, ch) {
      var i :| 0 <= i < |a| && a[i].characteristic == ch;
      assert b[i].characteristic == ch;
    }
  }

  lemma MergedHolds(list: seq<Event>, e: Event, ch: nat)
    ensures Holds(Merged(list, e), ch) <==> Holds(list, ch) || e.characteristic == ch
  {
    var i := PlaceOf(list, e.characteristic);
    if i < |list| {
      var m := Merged(list, e);
      assert m[i] == e;
      if Holds(list, ch) {
        var k :| 0 <= k < |list| && list[k].characteristic == ch;
        assert m[k].characteristic == ch;
      }
      if Holds(m, ch) {
        var k :| 0 <= k < |m| && m[k].characteristic == ch;
        assert list[k].characteristic == ch;
      }
    } else {
      HoldsSnoc(list, e, ch);
    }
  }

  /** One pop keeps the summary. */
  lemma MergeSumsUp(list: seq<Event>, done: seq<Event>, e: Event)
    requires SumsUp(list, done)
    ensures SumsUp(Merged(list, e), done + [e])
  {
    hide Holds, LastValue;
    var m, d, n := Merged(list, e), done + [e], PlaceOf(list, e.characteristic);
    forall ch ensures Holds(m, ch) <==> Holds(d, ch) {
      MergedHolds(list, e, ch);
      HoldsSnoc(done, e, ch);
    }
    HoldsPlace(list, e.characteristic);
    HoldsPlace(done, e.characteristic);
    forall i | 0 <= i < |m| ensures LastValue(d, m[i].characteristic) == Some(m[i].value) {
      LastOfSnoc(done, e, m[i].characteristic);
    }
    forall i, j | 0 <= i < j < |m| ensures PlaceOf(d, m[i].characteristic) < PlaceOf(d, m[j].characteristic) {
      PlaceStays(done, e, m[i].characteristic);
      PlaceStays(done, e, m[j].characteristic);
      ListPlace(list, done, i);
      if j < |list| { ListPlace(list, done, j); }
    }
  }

  lemma ListPlace(list: seq<Event>, done: seq<Event>, i: nat)
    requires i < |list| && forall ch :: Holds(list, ch) <==> Holds(done, ch)
    ensures PlaceOf(done, list[i].characteristic) < |done|
  {
    assert Holds(list, list[i].characteristic);
    HoldsPlace(done, list[i].characteristic);
  }

  lemma {:induction false} CoalescedSumsUp(list: seq<Event>, done: seq<Event>, popped: seq<Event>)
    requires SumsUp(list, done)
    ensures SumsUp(Coalesced(list, popped), done + popped)
    decreases |popped|
  {
    hide SumsUp, Merged;
    if popped == [] {
      assert done + popped == done;
    } else {
      MergeSumsUp(list, done, popped[0]);
      CoalescedSumsUp(Merged(list, popped[0]), done + [popped[0]], popped[1..]);
      assert (done + [popped[0]]) + popped[1..] == done + popped;
    }
  }

  // Draining the queue

  function Reversed(s: seq<Event>): (r: seq<Event>)
    ensures |r| == |s| && forall i :: 0 <= i < |s| ==> r[i] == s[|s| - 1 - i]
  {
    seq(|s|, i requires 0 <= i < |s| => s[|s| - 1 - i])
  }

  /** homekit_server_process_notifications for one client: pops until the queue is empty. */
  method Drain(q: Queue<Event>) returns (events: seq<Event>)
    requires q.Valid() && q.impl.LIFO?
    modifies q
    ensures q.Valid() && q.Contents() == []
    ensures events == Coalesced([], Reversed(old(q.Contents())))
    ensures SumsUp(events, Reversed(old(q.Contents())))
  {
    hide Merged, SumsUp, LastValue, Coalesced, Reversed, Around;
    ghost var all := Reversed(q.Contents());
    events := [];
    NothingSummed();
    assert [] + all == all;
    CoalescedSumsUp([], [], all);
    LastFirst(q.Contents());
    var e := q.Pop();
    while e.Some?
      invariant q.Valid() && q.impl.LIFO?
      invariant e.None? ==> q.Contents() == [] && events == Coalesced([], all)
      invariant e.Some? ==> Coalesced([], all) == Coalesced(events, [e.value] + Reversed(q.Contents()))
      decreases q.cnt, if e.Some? then 1 else 0
    {
      CoalescedNext(events, e.value, Reversed(q.Contents()));
      events := Enter(events, e.value);
      LastFirst(q.Contents());
      e := q.Pop();
    }
  }

  /** A LIFO queue gives its newest record first. */
  lemma LastFirst(c: seq<Event>)
    ensures c != [] ==> Reversed(c) == [c[|c| - 1]] + Reversed(c[..|c| - 1])
    ensures c == [] ==> forall list :: Coalesced(list, Reversed(c)) == list
  {
  }

  lemma CoalescedNext(list: seq<Event>, e: Event, rest: seq<Event>)
    ensures Coalesced(list, [e] + rest) == Coalesced(Merged(list, e), rest)
  {
    assert ([e] + rest)[1..] == rest;
  }

  lemma NothingSummed()
    ensures SumsUp([], [])
  {
  }

  /** The walk along the list: the entry of the characteristic, or a new one at the end. */
  method Enter(list: seq<Event>, e: Event) returns (r: seq<Event>)
    ensures r == Merged(list, e)
  {
    var i := 0;
    while i < |list| && list[i].characteristic != e.characteristic
      invariant i <= |list| && forall j :: 0 <= j < i ==> list[j].characteristic != e.characteristic
    {
      i := i + 1;
    }
    r := if i < |list| then list[i := e] else list + [e];
  }

  // What a client is told

  /** The value of the first event of a characteristic. */
  function FirstValue(events: seq<Event>, ch: nat): Option<seq<int>> {
    if PlaceOf(events, ch) < |events| then Some(events[PlaceOf(events, ch)].value) else None
  }

  lemma {:induction false} LastOfReversed(events: seq<Event>, ch: nat)
    ensures LastValue(Reversed(events), ch) == FirstValue(events, ch)
    decreases |events|
  {
    if events != [] {
      assert Reversed(events) == Reversed(events[1..]) + [events[0]];
      LastOfSnoc(Reversed(events[1..]), events[0], ch);
      LastOfReversed(events[1..], ch);
    }
  }

  lemma ReversedHolds(events: seq<Event>, ch: nat)
    ensures Holds(Reversed(events), ch) <==> Holds(events, ch)
  {
    if Holds(events, ch) {
      var i :| 0 <= i < |events| && events[i].characteristic == ch;
      assert Reversed(events)[|events| - 1 - i].characteristic == ch;
    }
  }

  /** A client is told of exactly the characteristics among the last four pushes since its
      queue was drained, each once, and of each the oldest of those values: later changes
      of the same characteristic are dropped. */
  lemma OldestOfLastFour(pushes: seq<Event>, events: seq<Event>)
    requires SumsUp(events, Reversed(PushAll([], pushes, EVENT_QUEUE_SIZE)))
    ensures var last := LastOf(pushes, EVENT_QUEUE_SIZE);
      && Distinct(events)
      && (forall ch :: Holds(events, ch) <==> Holds(last, ch))
      && (forall i :: 0 <= i < |events| ==> FirstValue(last, events[i].characteristic) == Some(events[i].value))
  {
    hide LastValue, PlaceOf, Holds;
    var last := LastOf(pushes, EVENT_QUEUE_SIZE);
    HoldsLast([], pushes, EVENT_QUEUE_SIZE);
    assert [] + pushes == pushes;
    forall ch ensures Holds(events, ch) <==> Holds(last, ch) { ReversedHolds(last, ch); }
    forall i | 0 <= i < |events| ensures FirstValue(last, events[i].characteristic) == Some(events[i].value) {
      LastOfReversed(last, events[i].characteristic);
    }
  }
}
