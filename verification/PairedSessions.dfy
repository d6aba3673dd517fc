/** The pairing store and the sessions together. A session remembers the slot its device had
    when it was verified, and removing a device marks the sessions with the slot it has then:
    these are its sessions exactly as long as its record has not moved. */
module PairedSessions {
  import opened Bytes
  import opened Options
  import opened PairingLog
  import opened PairingStore
  import opened Sessions

  // Where a record stands over a run

  predicate Touches(op: Op, id: seq<byte>) { !op.Adds? && op.id == id }

  predicate Touched(ops: seq<Op>, id: seq<byte>) { exists i :: 0 <= i < |ops| && Touches(ops[i], id) }

  /** What one operation does to the slot of a device while blank slots are left. */
  lemma SlotStays(slots: seq<Slot>, op: Op, id: seq<byte>)
    requires Ordered(slots) && FirstOf(slots, id) < |slots| && (!op.Removes? ==> FirstBlank(slots) < |slots|)
    ensures var at, now := FirstOf(slots, id), SlotsApplied(slots, op);
      if Touches(op, id) then now[at] == Dead else now[at] == slots[at] && FirstOf(now, id) == at
  {
    var at := FirstOf(slots, id);
    match op
    case Adds(r) =>
      BlankBehind(slots, id);
      FirstIs(SlotsAdded(slots, r).slots, id, at);
    case Updates(other, permissions) =>
      BlankBehind(slots, id);
      if other != id { UpdateElsewhere(slots, id, other, permissions); }
    case Removes(other) =>
      if other != id { FirstIs(SlotsRemoved(slots, other), id, at); }
  }

  lemma BlankBehind(slots: seq<Slot>, id: seq<byte>)
    requires Ordered(slots) && FirstOf(slots, id) < |slots| && FirstBlank(slots) < |slots|
    ensures FirstOf(slots, id) < FirstBlank(slots)
  {
    assert slots[FirstOf(slots, id)].Used? && slots[FirstBlank(slots)].Blank?;
  }

  lemma UpdateElsewhere(slots: seq<Slot>, id: seq<byte>, other: seq<byte>, permissions: byte)
    requires FirstOf(slots, id) < FirstBlank(slots) < |slots| && other != id
    ensures var at, now := FirstOf(slots, id), SlotsUpdated(slots, other, permissions).slots;
      now[at] == slots[at] && FirstOf(now, id) == at
  {
    var at := FirstOf(slots, id);
    var now := SlotsUpdated(slots, other, permissions).slots;
    assert now[at] == slots[at];
    FirstIs(now, id, at);
  }

  lemma FirstIs(slots: seq<Slot>, id: seq<byte>, at: nat)
    requires at < |slots| && slots[at].Used? && slots[at].record.id == id
    requires forall j :: 0 <= j < at && slots[j].Used? ==> slots[j].record.id != id
    ensures FirstOf(slots, id) == at
  {
  }

  lemma DeadStays(slots: seq<Slot>, op: Op, i: nat)
    requires i < |slots| && slots[i].Dead? && (!op.Removes? ==> FirstBlank(slots) < |slots|)
    ensures SlotsApplied(slots, op)[i].Dead?
  {
  }

  lemma {:induction false} DeadForGood(slots: seq<Slot>, ops: seq<Op>, i: nat)
    requires Ordered(slots) && WritesIn(ops) <= Blanks(slots) && i < |slots| && slots[i].Dead?
    ensures SlotsAll(slots, ops)[i].Dead?
    decreases |ops|
  {
    hide SlotsApplied, Ordered, Blanks, LogOf, Applied;
    if ops != [] {
      NoBlanks(slots);
      DeadStays(slots, ops[0], i);
      ApplyActs(slots, ops[0]);
      DeadForGood(SlotsApplied(slots, ops[0]), ops[1..], i);
    }
  }

  /** The slot of a device keeps its record until the device is updated or removed, and holds
      no record from then on. */
  lemma {:induction false} RecordStays(slots: seq<Slot>, ops: seq<Op>, id: seq<byte>)
    requires Ordered(slots) && WritesIn(ops) <= Blanks(slots) && FirstOf(slots, id) < |slots|
    ensures var at, now := FirstOf(slots, id), SlotsAll(slots, ops);
      if Touched(ops, id) then now[at].Dead? else now[at] == slots[at] && FirstOf(now, id) == at
    decreases |ops|
  {
    hide SlotsApplied, Ordered, Blanks, LogOf, Applied, Touched, Touches;
    if ops == [] {
      NoneTouched(id);
    } else {
      NoBlanks(slots);
      TouchedFirst(ops, id);
      SlotStays(slots, ops[0], id);
      ApplyActs(slots, ops[0]);
      if Touches(ops[0], id) {
        DeadForGood(SlotsApplied(slots, ops[0]), ops[1..], FirstOf(slots, id));
      } else {
        RecordStays(SlotsApplied(slots, ops[0]), ops[1..], id);
      }
    }
  }

  lemma NoneTouched(id: seq<byte>)
    ensures !Touched([], id)
  {
  }

  lemma TouchedFirst(ops: seq<Op>, id: seq<byte>)
    requires ops != []
    ensures Touched(ops, id) <==> Touches(ops[0], id) || Touched(ops[1..], id)
  {
    hide Touches;
    var rest := ops[1..];
    if i :| 0 <= i < |ops| && Touches(ops[i], id) {
      if i > 0 { assert Touches(rest[i - 1], id); }
    }
    if i :| 0 <= i < |rest| && Touches(rest[i], id) { assert Touches(ops[i + 1], id); }
  }

  /** A session verified as a device carries the slot the device had then. When a device is
      removed later, the session is marked exactly if it was verified as that device and the
      device has not been updated or removed since: no other session is ever marked, and a
      session whose device has been updated is missed. */
  lemma MarkedExactly(slots: seq<Slot>, ops: seq<Op>, device: seq<byte>, removed: seq<byte>)
    requires Ordered(slots) && WritesIn(ops) <= Blanks(slots) && FirstOf(slots, device) < |slots|
    requires FirstOf(SlotsAll(slots, ops), removed) < |slots|
    ensures FirstOf(slots, device) == FirstOf(SlotsAll(slots, ops), removed)
       <==> device == removed && !Touched(ops, device)
  {
    hide SlotsAll, Ordered, Blanks, Touched;
    RecordStays(slots, ops, device);
  }

  // The request that removes a device

  /** pairing_permissions_admin is the lowest bit. */
  predicate IsAdmin(r: Record) { r.permissions % 2 == 1 }

  predicate HasAdmin(log: seq<Record>) { exists i :: 0 <= i < |log| && IsAdmin(log[i]) }

  lemma AdminFirst(r: Record, rest: seq<Record>)
    ensures HasAdmin([r] + rest) <==> IsAdmin(r) || HasAdmin(rest)
  {
    var log := [r] + rest;
    assert log[0] == r && forall i :: 0 <= i < |rest| ==> log[i + 1] == rest[i];
    if i :| 0 <= i < |log| && IsAdmin(log[i]) {
      if i > 0 { assert IsAdmin(rest[i - 1]); }
    }
  }

  /** Whether a stored administrator is left, by the iterator. */
  method FindAdmin(store: Store, imports: seq<byte> -> bool) returns (found: bool)
    requires store.Valid()
    ensures found <==> HasAdmin(Importable(LogOf(store.Slots()), imports))
  {
    hide LogOf, Importable, HasAdmin, IsAdmin, Ordered;
    ghost var all := Importable(LogOf(store.Slots()), imports);
    var it := new Iterator();
    found := false;
    var more := true;
    assert store.Slots()[0..] == store.Slots();
    while more
      invariant it.idx <= MAX_PAIRINGS
      invariant if found then HasAdmin(all) && !more
                else HasAdmin(all) == (more && HasAdmin(Importable(LogOf(store.Slots()[it.idx..]), imports)))
      invariant fresh(it)
      decreases if more then MAX_PAIRINGS + 1 - it.idx else 0
    {
      var p := it.Next(store, imports);
      if p.None? {
        NoAdmin();
        more := false;
      } else {
        AdminFirst(p.value.record, Importable(LogOf(store.Slots()[it.idx..]), imports));
        if p.value.record.permissions % 2 == 1 {
          assert IsAdmin(p.value.record) by { AdminBit(p.value.record); }
          found, more := true, false;
        } else {
          assert !IsAdmin(p.value.record) by { AdminBit(p.value.record); }
        }
      }
    }
  }

  lemma AdminBit(r: Record)
    ensures IsAdmin(r) <==> r.permissions % 2 == 1
  {
  }

  lemma NoAdmin()
    ensures !HasAdmin([])
  {
  }

  /** The removal branch of homekit_server_on_pairings, for an administrator: the record is
      taken out, the sessions with its slot are marked, and with the last administrator gone
      the accessory may be paired again. An unknown device, or one whose key cannot be
      imported, changes nothing. */
  method RemoveDevice(server: Server, store: Store, c: Client, id: seq<byte>, imports: seq<byte> -> bool)
    returns (removed: bool)
    requires server.Valid() && c in server.clients && c.encrypted && store.Valid()
    modifies store.flash, server`paired, server.clients`disconnect
    ensures server.Valid() && store.Valid()
    ensures removed <==> Find(old(store.Log()), id).Some? && imports(Find(old(store.Log()), id).value.key)
    ensures !removed ==> store.flash[..] == old(store.flash[..]) && server.paired == old(server.paired) &&
                         forall x :: x in server.clients ==> x.disconnect == old(x.disconnect)
    ensures removed ==>
      && store.Slots() == SlotsRemoved(old(store.Slots()), id)
      && (forall x :: x in server.clients ==>
            x.disconnect == (old(x.disconnect) || x.pairingId == FirstOf(old(store.Slots()), id)))
      && server.paired == (old(server.paired) &&
           !(IsAdmin(Find(old(store.Log()), id).value) && !HasAdmin(Importable(LogOf(store.Slots()), imports))))
  {
    hide LogOf, Importable, HasAdmin, IsAdmin, Ordered;
    var r, p := store.FindPairing(id, imports);
    if r != 0 { return false; }
    var ok := store.Remove(id);
    var found := true;
    if p.value.record.permissions % 2 == 1 { found := FindAdmin(store, imports); }
    assert IsAdmin(p.value.record) <==> p.value.record.permissions % 2 == 1 by { AdminBit(p.value.record); }
    server.RemovePairing(c, p.value.slot, p.value.record.permissions % 2 == 1 && !found);
    removed := true;
  }
}
