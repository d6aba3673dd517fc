/** Accessory and instance ids: given by counters that run through the tree of
    accessories, services and characteristics, and never below an id set by hand. */
module Identifiers {
  import opened Options

  // The counter on a list of ids

  /** Ids and counters are 32-bit words. */
  const WORD: nat := 0x1_0000_0000

  /** The id an entry gets when the counter stands at `next`, and where it stands then. */
  function Given(id: nat, next: nat): nat { if id != 0 then id else next }

  function After(id: nat, next: nat): nat {
    if id == 0 then (next + 1) % WORD else if id >= next then (id + 1) % WORD else next
  }

  function Assigned(ids: seq<nat>, next: nat): (r: seq<nat>)
    ensures |r| == |ids|
  {
    if ids == [] then [] else [Given(ids[0], next)] + Assigned(ids[1..], After(ids[0], next))
  }

  function Next(ids: seq<nat>, next: nat): nat {
    if ids == [] then next else Next(ids[1..], After(ids[0], next))
  }

  predicate Increasing(ids: seq<nat>) { forall i, j :: 0 <= i < j < |ids| ==> ids[i] < ids[j] }

  predicate Words(ids: seq<nat>) { forall i :: 0 <= i < |ids| ==> ids[i] < WORD }

  /** Every id set by hand is beyond all ids before it, and the counter has not wrapped
      round while entries are left. */
  predicate InOrder(ids: seq<nat>, next: nat) {
    ids == [] || (next > 0 && (ids[0] == 0 || ids[0] >= next) && InOrder(ids[1..], After(ids[0], next)))
  }

  lemma {:induction false} AssignedAbove(ids: seq<nat>, next: nat)
    requires InOrder(ids, next) && Words(ids) && next < WORD
    ensures forall i :: 0 <= i < |ids| ==> Assigned(ids, next)[i] >= next
    ensures Increasing(Assigned(ids, next))
    decreases |ids|
  {
    if ids != [] {
      var rest := Assigned(ids[1..], After(ids[0], next));
      AssignedTail(ids, next);
      AssignedAbove(ids[1..], After(ids[0], next));
      assert Assigned(ids, next) == [Given(ids[0], next)] + rest;
    }
  }

  lemma AssignedTail(ids: seq<nat>, next: nat)
    requires ids != [] && Words(ids) && InOrder(ids, next) && next < WORD
    ensures Words(ids[1..]) && InOrder(ids[1..], After(ids[0], next)) && After(ids[0], next) < WORD
    ensures ids[1..] != [] ==> After(ids[0], next) == Given(ids[0], next) + 1
  {
  }

  /** ids that came out increasing, the first beyond the one before, were in order. */
  lemma {:induction false} OrderNeeded(ids: seq<nat>, before: nat)
    requires before < WORD && Words(ids)
    requires Increasing([before] + Assigned(ids, (before + 1) % WORD))
    ensures InOrder(ids, (before + 1) % WORD)
    decreases |ids|
  {
    if ids != [] {
      var next := (before + 1) % WORD;
      var all, first := [before] + Assigned(ids, next), Given(ids[0], next);
      var rest := Assigned(ids[1..], After(ids[0], next));
      assert Assigned(ids, next) == [first] + rest;
      assert all[0] < all[1] && all[1] == first;
      assert After(ids[0], next) == (first + 1) % WORD;
      var tail := [first] + rest;
      forall i, j | 0 <= i < j < |tail| ensures tail[i] < tail[j] {
        assert tail[i] == all[i + 1] && tail[j] == all[j + 1];
      }
      OrderNeeded(ids[1..], first);
    }
  }

  /** The ids come out strictly increasing exactly when every id set by hand is beyond all
      before it and the counter does not wrap round. */
  lemma IncreasingWhenInOrder(ids: seq<nat>)
    requires Words(ids)
    ensures Increasing(Assigned(ids, 1)) <==> InOrder(ids, 1)
  {
    hide Increasing;
    var a := Assigned(ids, 1);
    if InOrder(ids, 1) { AssignedAbove(ids, 1); }
    if Increasing(a) {
      assert ids != [] ==> a[0] == Given(ids[0], 1);
      AboveNone(a);
      OrderNeeded(ids, 0);
    }
  }

  lemma AboveNone(a: seq<nat>)
    requires Increasing(a) && (a != [] ==> a[0] > 0)
    ensures Increasing([0] + a)
  {
    var all := [0] + a;
    forall i, j | 0 <= i < j < |all| ensures all[i] < all[j] {
      if i > 0 { assert a[i - 1] < a[j - 1]; } else if j > 1 { assert a[0] < a[j - 1]; }
    }
  }

  /** A second run changes nothing, wherever its counter starts, when the first has given
      every entry an id. */
  lemma {:induction false} AssignedTwice(ids: seq<nat>, next: nat, again: nat)
    requires 0 !in Assigned(ids, next)
    ensures Assigned(Assigned(ids, next), again) == Assigned(ids, next)
    decreases |ids|
  {
    if ids != [] {
      var first, rest := Given(ids[0], next), Assigned(ids[1..], After(ids[0], next));
      assert Assigned(ids, next) == [first] + rest && ([first] + rest)[1..] == rest;
      assert Assigned(ids, next)[0] == first;
      AssignedTwice(ids[1..], After(ids[0], next), After(first, again));
    }
  }

  /** So it does when the ids came out increasing. */
  lemma SecondRun(ids: seq<nat>)
    requires Words(ids) && InOrder(ids, 1)
    ensures Assigned(Assigned(ids, 1), 1) == Assigned(ids, 1)
  {
    AssignedAbove(ids, 1);
    AssignedTwice(ids, 1, 1);
  }

  // The objects

  class Node {
    var id: nat

    constructor (id: nat)
      ensures this.id == id
    {
      this.id := id;
    }
  }

  /** A service stands before its characteristics; both take ids from one counter. */
  datatype Service = Service(node: Node, characteristics: seq<Node>)

  datatype Accessory = Accessory(node: Node, services: seq<Service>)

  function Parts(services: seq<Service>): seq<Node> {
    if services == [] then [] else [services[0].node] + services[0].characteristics + Parts(services[1..])
  }

  function Heads(accessories: seq<Accessory>): seq<Node> {
    if accessories == [] then [] else [accessories[0].node] + Heads(accessories[1..])
  }

  function Ids(nodes: seq<Node>): (r: seq<nat>)
    reads nodes
    ensures |r| == |nodes| && forall i :: 0 <= i < |nodes| ==> r[i] == nodes[i].id
  {
    seq(|nodes|, i requires 0 <= i < |nodes| reads nodes => nodes[i].id)
  }

  predicate Apart(nodes: seq<Node>) { forall i, j :: 0 <= i < j < |nodes| ==> nodes[i] != nodes[j] }

  /** The k-th id, from where the counter stands when it is reached. */
  lemma {:induction false} AssignedAt(ids: seq<nat>, next: nat, k: nat)
    requires k < |ids|
    ensures Assigned(ids, next)[k] == Given(ids[k], Next(ids[..k], next))
    ensures Next(ids[..k + 1], next) == After(ids[k], Next(ids[..k], next))
    decreases k
  {
    if k > 0 {
      assert ids[..k][1..] == ids[1..][..k - 1] && ids[..k + 1][1..] == ids[1..][..k];
      AssignedAt(ids[1..], After(ids[0], next), k - 1);
    } else {
      assert ids[..1][1..] == [];
    }
  }

  /** The counter has run over the first `at` entries of `all`, whose ids were `was`. */
  ghost predicate Reached(all: seq<Node>, was: seq<nat>, at: nat, next: nat)
    reads all
  {
    && at <= |all| == |was| && next == Next(was[..at], 1)
    && (forall k :: 0 <= k < at ==> all[k].id == Assigned(was, 1)[k])
    && (forall k :: at <= k < |all| ==> all[k].id == was[k])
  }

  /** One entry: keeps its id and pushes the counter, or takes the counter. */
  method Give(n: Node, next: nat, ghost all: seq<Node>, ghost was: seq<nat>, ghost at: nat) returns (after: nat)
    requires Apart(all) && Reached(all, was, at, next) && at < |all| && n == all[at]
    modifies n
    ensures Reached(all, was, at + 1, after)
  {
    AssignedAt(was, 1, at);
    after := next;
    if n.id != 0 {
      if n.id >= next { after := (n.id + 1) % WORD; }
    } else {
      n.id := next;
      after := (next + 1) % WORD;
    }
  }

  /** homekit_accessories_init for the accessories themselves: one counter for all. */
  method GiveAccessoryIds(accessories: seq<Accessory>)
    requires Apart(Heads(accessories))
    modifies Heads(accessories)
    ensures Ids(Heads(accessories)) == Assigned(old(Ids(Heads(accessories))), 1)
  {
    ghost var heads := Heads(accessories);
    ghost var was := Ids(heads);
    var aid, i := 1, 0;
    HeadCount(accessories);
    assert was[..0] == [];
    while i < |accessories|
      invariant i <= |accessories| && Reached(heads, was, i, aid)
    {
      HeadAt(accessories, i);
      aid := Give(accessories[i].node, aid, heads, was, i);
      i := i + 1;
    }
  }

  lemma {:induction false} HeadAt(accessories: seq<Accessory>, i: nat)
    requires i < |accessories|
    ensures i < |Heads(accessories)| && Heads(accessories)[i] == accessories[i].node
    decreases i
  {
    if i > 0 { HeadAt(accessories[1..], i - 1); }
  }

  lemma {:induction false} HeadCount(accessories: seq<Accessory>)
    ensures |Heads(accessories)| == |accessories|
    decreases |accessories|
  {
    if accessories != [] { HeadCount(accessories[1..]); }
  }

  /** Where a service stands among the parts of its accessory. */
  function Position(services: seq<Service>, j: nat): nat
    requires j <= |services|
  {
    if j == 0 then 0 else 1 + |services[0].characteristics| + Position(services[1..], j - 1)
  }

  lemma {:induction false} PartsAt(services: seq<Service>, j: nat)
    requires j < |services|
    ensures var p := Position(services, j); var n := |services[j].characteristics|;
      && Position(services, j + 1) == p + 1 + n <= |Parts(services)|
      && Parts(services)[p] == services[j].node && Parts(services)[p + 1..p + 1 + n] == services[j].characteristics
    decreases j
  {
    var first, rest := [services[0].node] + services[0].characteristics, Parts(services[1..]);
    assert Parts(services) == first + rest;
    if j > 0 {
      PartsAt(services[1..], j - 1);
      var p, n := Position(services[1..], j - 1), |services[j].characteristics|;
      assert (first + rest)[|first| + p + 1..|first| + p + 1 + n] == rest[p + 1..p + 1 + n];
    } else {
      assert Position(services[1..], 0) == 0;
    }
  }

  lemma {:induction false} PartsEnd(services: seq<Service>)
    ensures Position(services, |services|) == |Parts(services)|
    decreases |services|
  {
    if services != [] { PartsEnd(services[1..]); }
  }

  /** ... and for what one accessory holds: each service, then its characteristics. */
  method GiveInstanceIds(a: Accessory)
    requires Apart(Parts(a.services))
    modifies Parts(a.services)
    ensures Ids(Parts(a.services)) == Assigned(old(Ids(Parts(a.services))), 1)
  {
    hide Reached;
    ghost var all := Parts(a.services);
    ghost var was := Ids(all);
    var iid, j := 1, 0;
    ghost var at := 0;
    assert Reached(all, was, 0, 1) by { NothingReached(all, was); }
    while j < |a.services|
      invariant j <= |a.services| && at == Position(a.services, j) && Reached(all, was, at, iid)
    {
      PartsAt(a.services, j);
      assert a.services[j].node in all;
      iid := Give(a.services[j].node, iid, all, was, at);
      iid := GiveCharacteristics(a.services[j].characteristics, iid, all, was, at + 1);
      at := at + 1 + |a.services[j].characteristics|;
      j := j + 1;
    }
    PartsEnd(a.services);
    AllReached(all, was, iid);
  }

  lemma NothingReached(all: seq<Node>, was: seq<nat>)
    requires was == Ids(all)
    ensures Reached(all, was, 0, 1)
  {
    assert was[..0] == [];
  }

  lemma AllReached(all: seq<Node>, was: seq<nat>, next: nat)
    requires Reached(all, was, |all|, next)
    ensures Ids(all) == Assigned(was, 1)
  {
  }

  method GiveCharacteristics(nodes: seq<Node>, next: nat, ghost all: seq<Node>, ghost was: seq<nat>, ghost at: nat)
    returns (after: nat)
    requires Apart(all) && Reached(all, was, at, next)
    requires at + |nodes| <= |all| && nodes == all[at..at + |nodes|]
    modifies nodes
    ensures Reached(all, was, at + |nodes|, after)
  {
    hide Reached;
    after := next;
    var i := 0;
    while i < |nodes|
      invariant i <= |nodes| && Reached(all, was, at + i, after)
    {
      assert nodes[i] == all[at + i];
      after := Give(nodes[i], after, all, was, at + i);
      i := i + 1;
    }
  }

  // Looking a characteristic up

  /** The k-th characteristic of the j-th service of the i-th accessory has these ids. */
  ghost predicate Matches(accessories: seq<Accessory>, i: int, j: int, k: int, aid: nat, iid: nat)
    reads *
  {
    && 0 <= i < |accessories| && 0 <= j < |accessories[i].services|
    && 0 <= k < |accessories[i].services[j].characteristics|
    && accessories[i].node.id == aid && accessories[i].services[j].characteristics[k].id == iid
  }

  /** homekit_characteristic_by_aid_and_iid */
  method ByAidAndIid(accessories: seq<Accessory>, aid: nat, iid: nat) returns (r: Option<Node>)
    ensures r.None? ==> forall i, j, k :: !Matches(accessories, i, j, k, aid, iid)
    ensures r.Some? ==> exists i, j, k ::
      Matches(accessories, i, j, k, aid, iid) && r.value == accessories[i].services[j].characteristics[k]
  {
    var i := 0;
    while i < |accessories|
      invariant i <= |accessories|
      invariant forall x, j, k :: x < i ==> !Matches(accessories, x, j, k, aid, iid)
    {
      if accessories[i].node.id == aid {
        var j := 0;
        while j < |accessories[i].services|
          invariant j <= |accessories[i].services|
          invariant forall y, k :: y < j ==> !Matches(accessories, i, y, k, aid, iid)
        {
          var k := 0;
          var list := accessories[i].services[j].characteristics;
          while k < |list|
            invariant k <= |list|
            invariant forall z :: z < k ==> !Matches(accessories, i, j, z, aid, iid)
          {
            if list[k].id == iid {
              assert Matches(accessories, i, j, k, aid, iid);
              return Some(list[k]);
            }
            k := k + 1;
          }
          j := j + 1;
        }
      }
      i := i + 1;
    }
    r := None;
  }

  /** With increasing ids there is no other characteristic the search could have meant. */
  lemma OneMatch(accessories: seq<Accessory>, i: int, j: int, k: int, i': int, j': int, k': int, aid: nat, iid: nat)
    requires Matches(accessories, i, j, k, aid, iid) && Matches(accessories, i', j', k', aid, iid)
    requires Increasing(Ids(Heads(accessories)))
    requires Increasing(Ids(Parts(accessories[i].services)))
    ensures i == i'
    ensures accessories[i].services[j].characteristics[k] == accessories[i'].services[j'].characteristics[k']
  {
    HeadAt(accessories, i);
    HeadAt(accessories, i');
    var heads := Ids(Heads(accessories));
    assert heads[i] == aid && heads[i'] == aid;
    var services := accessories[i].services;
    var all := Parts(services);
    var p := PlaceOf(services, j, k);
    var p' := PlaceOf(services, j', k');
    assert Ids(all)[p] == iid && Ids(all)[p'] == iid;
  }

  /** Where a characteristic stands among the parts of its accessory. */
  lemma PlaceOf(services: seq<Service>, j: nat, k: nat) returns (p: nat)
    requires j < |services| && k < |services[j].characteristics|
    ensures p < |Parts(services)| && Parts(services)[p] == services[j].characteristics[k]
  {
    PartsAt(services, j);
    p := Position(services, j) + 1 + k;
    var from := Position(services, j) + 1;
    assert Parts(services)[p] == Parts(services)[from..from + |services[j].characteristics|][k];
  }
}
