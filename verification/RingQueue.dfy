/** cQueue: records in a fixed array that wraps round, read from either end. */
module RingQueue {
  import opened Options

  datatype Kind = FIFO | LIFO

  /** A place counted on from another in a ring of n places. */
  function Around(start: nat, i: nat, n: nat): (r: nat)
    requires start < n && i <= n
    ensures r < n
  {
    if start + i < n then start + i else start + i - n
  }

  lemma AroundIsMod(start: nat, i: nat, n: nat)
    requires start < n && i <= n
    ensures Around(start, i, n) == (start + i) % n
  {
  }

  /** The bounded sequence a push leaves: when it is full, nothing, or all but the oldest. */
  function Pushed<T>(c: seq<T>, x: T, n: nat, overwrite: bool): (r: seq<T>)
    requires |c| <= n && n > 0
    ensures |r| <= n
  {
    if |c| < n then c + [x] else if overwrite then c[1..] + [x] else c
  }

  /** The record the next pop takes. */
  function NextOut<T>(c: seq<T>, kind: Kind): T
    requires c != []
  {
    if kind.FIFO? then c[0] else c[|c| - 1]
  }

  function Popped<T>(c: seq<T>, kind: Kind): seq<T>
    requires c != []
  {
    if kind.FIFO? then c[1..] else c[..|c| - 1]
  }

  /** So many records of a ring from this place on. */
  function Ring<T>(q: seq<T>, start: nat, cnt: nat): (c: seq<T>)
    requires start < |q| && cnt <= |q|
    ensures |c| == cnt && forall i :: 0 <= i < cnt ==> c[i] == q[Around(start, i, |q|)]
  {
    seq(cnt, i requires 0 <= i < cnt => q[Around(start, i, |q|)])
  }

  lemma RingGrows<T>(q: seq<T>, start: nat, cnt: nat, x: T)
    requires start < |q| && cnt < |q|
    ensures Ring(q[Around(start, cnt, |q|) := x], start, cnt + 1) == Ring(q, start, cnt) + [x]
  {
  }

  lemma RingTurns<T>(q: seq<T>, start: nat, x: T)
    requires start < |q|
    ensures Ring(q[start := x], Around(start, 1, |q|), |q|) == Ring(q, start, |q|)[1..] + [x]
    ensures Around(start, |q|, |q|) == start
  {
    var a, b := Ring(q[start := x], Around(start, 1, |q|), |q|), Ring(q, start, |q|)[1..] + [x];
    forall i | 0 <= i < |q| ensures a[i] == b[i] {
      if i < |q| - 1 { assert Ring(q, start, |q|)[i + 1] == q[Around(start, i + 1, |q|)]; }
    }
  }

  lemma RingPushed<T>(q: seq<T>, start: nat, n: nat, x: T, ovw: bool)
    requires start < |q| && n <= |q| && (n < |q| || ovw)
    ensures var q' := q[Around(start, n, |q|) := x];
      Pushed(Ring(q, start, n), x, |q|, ovw)
        == if n < |q| then Ring(q', start, n + 1) else Ring(q', Around(start, 1, |q|), n)
  {
    hide Ring;
    if n < |q| { RingGrows(q, start, n, x); } else { RingTurns(q, start, x); }
  }

  lemma RingShrinks<T>(q: seq<T>, start: nat, cnt: nat)
    requires start < |q| && 0 < cnt <= |q|
    ensures Ring(q, start, cnt - 1) == Ring(q, start, cnt)[..cnt - 1]
    ensures Ring(q, Around(start, 1, |q|), cnt - 1) == Ring(q, start, cnt)[1..]
  {
    var a, b := Ring(q, Around(start, 1, |q|), cnt - 1), Ring(q, start, cnt);
    forall i | 0 <= i < cnt - 1 ensures a[i] == b[i + 1] {
      assert b[i + 1] == q[Around(start, i + 1, |q|)];
    }
  }

  class Queue<T(0)> {
    const queue: array<T>
    const impl: Kind
    const ovw: bool
    var inn: nat
    var out: nat
    var cnt: nat

    ghost predicate Valid() reads this {
      && 0 < queue.Length && inn < queue.Length && out < queue.Length && cnt <= queue.Length
      && (impl.FIFO? ==> inn == Around(out, cnt, queue.Length))
    }

    /** Where the oldest record is. */
    ghost function Oldest(): (s: nat)
      reads this
      requires Valid()
      ensures s < queue.Length
    {
      if impl.FIFO? then out else Around(inn, queue.Length - cnt, queue.Length)
    }

    /** The records, oldest first. */
    ghost function Contents(): (c: seq<T>)
      reads this, queue
      requires Valid()
      ensures |c| == cnt
    {
      Ring(queue[..], Oldest(), cnt)
    }

    constructor (n: nat, impl: Kind, overwrite: bool)
      requires n > 0
      ensures Valid() && fresh(queue) && queue.Length == n && this.impl == impl && ovw == overwrite
      ensures Contents() == [] && Oldest() == 0
    {
      queue := new T[n];
      this.impl, ovw := impl, overwrite;
      inn, out, cnt := 0, 0, 0;
    }

    method Flush()
      requires Valid()
      modifies this
      ensures Valid() && Contents() == [] && Oldest() == 0
    {
      inn, out, cnt := 0, 0, 0;
    }

    method IncIdx(i: nat) returns (j: nat)
      requires i < queue.Length
      ensures j == Around(i, 1, queue.Length)
    {
      j := if i < queue.Length - 1 then i + 1 else 0;
    }

    method DecIdx(i: nat) returns (j: nat)
      requires i < queue.Length
      ensures j == Around(i, queue.Length - 1, queue.Length)
    {
      j := if i > 0 then i - 1 else queue.Length - 1;
    }

    /** q_push */
    method Push(x: T) returns (ok: bool)
      requires Valid()
      modifies this, queue
      ensures Valid() && Contents() == Pushed(old(Contents()), x, queue.Length, ovw)
      ensures ok <==> ovw || old(cnt) < queue.Length
      ensures Oldest() == if ok && old(cnt) == queue.Length then Around(old(Oldest()), 1, queue.Length) else old(Oldest())
    {
      if !ovw && cnt == queue.Length { return false; }
      hide Ring, Around, Pushed, Contents;
      ghost var q, start, n := queue[..], Oldest(), cnt;
      hide Oldest;
      RingPushed(q, start, n, x, ovw);
      Seen(q, start) by { Places(); }
      Places();
      ok := true;
      queue[inn] := x;
      assert queue[..] == q[inn := x];
      inn := IncIdx(inn);
      if cnt != queue.Length {
        cnt := cnt + 1;
      } else if ovw {
        if impl.FIFO? { out := IncIdx(out); }
      }
      Seen(q[Around(start, n, |q|) := x], if n < |q| then start else Around(start, 1, |q|));
    }

    lemma Places()
      requires Valid()
      ensures (impl.FIFO? ==> Oldest() == out) && inn == Around(Oldest(), cnt, queue.Length)
      ensures impl.LIFO? ==> Oldest() == Around(inn, queue.Length - cnt, queue.Length)
      ensures cnt < queue.Length ==> Around(inn, 1, queue.Length) == Around(Oldest(), cnt + 1, queue.Length)
      ensures cnt < queue.Length ==>
        Around(Around(Oldest(), cnt + 1, queue.Length), queue.Length - (cnt + 1), queue.Length) == Oldest()
      ensures cnt == queue.Length ==> inn == Oldest()
      ensures Around(Around(inn, 1, queue.Length), 0, queue.Length) == Around(inn, 1, queue.Length)
      ensures Around(Around(inn, 1, queue.Length), queue.Length, queue.Length) == Around(inn, 1, queue.Length)
    {
    }

    /** What the fields say. */
    lemma Seen(q: seq<T>, start: nat)
      requires queue[..] == q && start < |q| && inn < |q| && out < |q| && cnt <= |q|
      requires if impl.FIFO? then out == start && inn == Around(start, cnt, |q|) else Around(inn, |q| - cnt, |q|) == start
      ensures Valid() && Oldest() == start && Contents() == Ring(q, start, cnt)
    {
    }

    /** q_pop */
    method Pop() returns (x: Option<T>)
      requires Valid()
      modifies this
      ensures Valid()
      ensures x.None? <==> old(Contents()) == []
      ensures x.None? ==> Contents() == []
      ensures x.Some? ==> x.value == NextOut(old(Contents()), impl) && Contents() == Popped(old(Contents()), impl)
      ensures impl.LIFO? ==> Oldest() == old(Oldest())
    {
      hide Ring;
      if cnt == 0 { return None; }
      RingShrinks(queue[..], Oldest(), cnt);
      if impl.FIFO? {
        x := Some(queue[out]);
        out := IncIdx(out);
      } else {
        inn := DecIdx(inn);
        x := Some(queue[inn]);
      }
      cnt := cnt - 1;
    }

    /** q_peek */
    method Peek() returns (x: Option<T>)
      requires Valid()
      ensures x.None? <==> Contents() == []
      ensures x.Some? ==> x.value == NextOut(Contents(), impl)
    {
      if cnt == 0 { return None; }
      if impl.FIFO? {
        x := Some(queue[out]);
      } else {
        var rec := DecIdx(inn);
        x := Some(queue[rec]);
      }
    }

    /** q_drop */
    method Drop() returns (ok: bool)
      requires Valid()
      modifies this
      ensures Valid() && (ok <==> old(Contents()) != [])
      ensures ok ==> Contents() == Popped(old(Contents()), impl)
      ensures !ok ==> Contents() == old(Contents())
    {
      hide Ring;
      if cnt == 0 { return false; }
      RingShrinks(queue[..], Oldest(), cnt);
      if impl.FIFO? { out := IncIdx(out); } else { inn := DecIdx(inn); }
      cnt := cnt - 1;
      ok := true;
    }

    /** q_peekIdx: the i-th record, oldest first, for a FIFO queue; for a LIFO queue the
        i-th place of the array, which is that record when the oldest is still in the
        first place, that is, until a push has overwritten one. */
    method PeekIdx(idx: nat) returns (x: Option<T>)
      requires Valid()
      ensures x.None? <==> idx >= cnt
      ensures x.Some? && (impl.FIFO? || Oldest() == 0) ==> x.value == Contents()[idx]
      ensures x.Some? && impl.LIFO? ==> x.value == queue[idx]
    {
      if idx + 1 > cnt { return None; }
      if impl.FIFO? {
        AroundIsMod(out, idx, queue.Length);
        x := Some(queue[(out + idx) % queue.Length]);
      } else {
        x := Some(queue[idx]);
      }
    }
  }

  /** In a full queue every place of the array holds a record: which one depends on where
      the oldest is. */
  lemma FullPlace<T>(q: seq<T>, start: nat, i: nat)
    requires start < |q| && i < |q|
    ensures q[i] == Ring(q, start, |q|)[Around(i, |q| - start, |q|)]
  {
    var k := Around(i, |q| - start, |q|);
    assert Around(start, k, |q|) == i;
  }

  /** In a LIFO queue whose places hold distinct records, full or not, the place of each
      number holds the record of that number exactly while the oldest is in the first place. */
  lemma PlacesAgree<T>(q: seq<T>, start: nat, cnt: nat)
    requires start < |q| && 0 < cnt <= |q| && forall i, j :: 0 <= i < j < |q| ==> q[i] != q[j]
    ensures (forall i :: 0 <= i < cnt ==> q[i] == Ring(q, start, cnt)[i]) <==> start == 0
  {
    if start != 0 { assert Ring(q, start, cnt)[0] == q[start]; }
  }

  /** One push over a full LIFO queue of any capacity, wherever its oldest record is: the
      place of the oldest takes the new record, so a peek at the place that held the
      oldest finds the newest. */
  method LifoPeekAfterOverwrite<T(0)>(q: Queue<T>, x: T) returns (peeked: Option<T>)
    requires q.Valid() && q.impl.LIFO? && q.ovw && q.cnt == q.queue.Length
    modifies q, q.queue
    ensures q.Valid() && q.Contents() == old(q.Contents())[1..] + [x]
    ensures peeked == Some(x) && x == q.Contents()[q.queue.Length - 1]
    ensures q.Oldest() == Around(old(q.Oldest()), 1, q.queue.Length)
    ensures forall i :: 0 <= i < q.queue.Length ==> q.queue[i] == q.Contents()[Around(i, q.queue.Length - q.Oldest(), q.queue.Length)]
  {
    hide Ring, Around, Queue.Contents, Queue.Oldest;
    var first := PushFull(q, x);
    NewestIs(q, first);
    FullPlaces(q);
    peeked := q.PeekIdx(first);
  }

  /** A push over the oldest record of a full LIFO queue, and where that record was. */
  method PushFull<T(0)>(q: Queue<T>, x: T) returns (first: nat)
    requires q.Valid() && q.impl.LIFO? && q.ovw && q.cnt == q.queue.Length
    modifies q, q.queue
    ensures q.Valid() && q.cnt == q.queue.Length && q.Contents() == old(q.Contents())[1..] + [x]
    ensures first == old(q.Oldest()) && q.Oldest() == Around(first, 1, q.queue.Length)
  {
    first := q.inn;
    assert q.Oldest() == first;
    hide Ring, Pushed, Around, Queue.Contents, Queue.Oldest;
    PushedOver(q.Contents(), x);
    var ok := q.Push(x);
  }

  lemma PushedOver<T>(c: seq<T>, x: T)
    requires c != []
    ensures Pushed(c, x, |c|, true) == c[1..] + [x]
  {
  }

  lemma FullPlaces<T(0)>(q: Queue<T>)
    requires q.Valid() && q.cnt == q.queue.Length
    ensures forall i :: 0 <= i < q.queue.Length ==> q.queue[i] == q.Contents()[Around(i, q.queue.Length - q.Oldest(), q.queue.Length)]
  {
    hide Ring, Around;
    FullRing(q.queue[..], q.Oldest());
  }

  lemma FullRing<T>(q: seq<T>, start: nat)
    requires start < |q|
    ensures forall i :: 0 <= i < |q| ==> q[i] == Ring(q, start, |q|)[Around(i, |q| - start, |q|)]
  {
    hide Ring, Around;
    forall i | 0 <= i < |q| ensures q[i] == Ring(q, start, |q|)[Around(i, |q| - start, |q|)] { FullPlace(q, start, i); }
  }

  lemma NewestIs<T(0)>(q: Queue<T>, first: nat)
    requires q.Valid() && q.cnt == q.queue.Length && first < q.queue.Length && q.Oldest() == Around(first, 1, q.queue.Length)
    ensures q.queue[first] == q.Contents()[q.queue.Length - 1]
  {
    hide Ring, Around;
    NewestPlace(first, q.queue.Length);
    FullRing(q.queue[..], q.Oldest());
  }

  lemma NewestPlace(first: nat, n: nat)
    requires first < n
    ensures Around(first, n - Around(first, 1, n), n) == n - 1
  {
  }

  // Runs

  function PushAll<T>(c: seq<T>, xs: seq<T>, n: nat): (r: seq<T>)
    requires |c| <= n && n > 0
    ensures |r| <= n
    decreases |xs|
  {
    if xs == [] then c else PushAll(Pushed(c, xs[0], n, true), xs[1..], n)
  }

  function LastOf<T>(xs: seq<T>, n: nat): seq<T> { if |xs| <= n then xs else xs[|xs| - n..] }

  /** An overwriting queue holds the last pushes made since it was empty. */
  lemma {:induction false} HoldsLast<T>(c: seq<T>, xs: seq<T>, n: nat)
    requires |c| <= n && n > 0
    ensures PushAll(c, xs, n) == LastOf(c + xs, n)
    decreases |xs|
  {
    if xs == [] {
      assert c + xs == c;
    } else {
      var d := Pushed(c, xs[0], n, true);
      HoldsLast(d, xs[1..], n);
      assert c + xs == (c + [xs[0]]) + xs[1..];
      if |c| == n {
        assert c + xs == [c[0]] + (d + xs[1..]);
        LastOfLater(c[0], d + xs[1..], n);
      }
    }
  }

  lemma LastOfLater<T>(x: T, rest: seq<T>, n: nat)
    requires n <= |rest|
    ensures LastOf([x] + rest, n) == LastOf(rest, n)
  {
  }
}
