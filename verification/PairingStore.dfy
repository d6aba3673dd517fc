/** The pairing store on its flash sector: writing clears bits and never sets them, so a
    record can only be written where the memory is blank, and only be taken out by
    zeroing it. The routines refine the log of PairingLog. */
module PairingStore {
  import opened Bytes
  import opened Bits
  import opened Options
  import opened PairingLog

  const SECTOR_SIZE: nat := 4096
  const MAX_PAIRINGS: nat := 16
  const RECORD_SIZE: nat := 80
  const PAIRINGS_OFFSET: nat := 128

  const MAGIC: seq<byte> := [72, 65, 80, 0]
  const ID_SIZE: nat := 36
  const KEY_SIZE: nat := 32

  function Fill(n: nat, b: byte): (z: seq<byte>)
    ensures |z| == n && forall i :: 0 <= i < n ==> z[i] == b
  {
    seq(n, _ => b)
  }

  predicate Writable(r: Record) { |r.id| == ID_SIZE && |r.key| == KEY_SIZE }

  /** pairing_data_t */
  function Encoded(r: Record): (b: seq<byte>)
    requires Writable(r)
    ensures |b| == RECORD_SIZE
  {
    MAGIC + [r.permissions] + r.id + r.key + Fill(7, 0)
  }

  /** What the bytes of a slot say. */
  function Decoded(b: seq<byte>): (s: Slot)
    requires |b| == RECORD_SIZE
    ensures s.Used? ==> Writable(s.record)
  {
    if b[..4] == MAGIC then Used(Record(b[4], b[5..41], b[41..73]))
    else if b == Fill(RECORD_SIZE, 0xFF) then Blank
    else Dead
  }

  lemma DecodesRecord(r: Record)
    requires Writable(r)
    ensures Decoded(Encoded(r)) == Used(r)
  {
    var b := Encoded(r);
    assert b[..4] == MAGIC && b[5..41] == r.id && b[41..73] == r.key;
  }

  lemma DecodesBlank()
    ensures Decoded(Fill(RECORD_SIZE, 0xFF)) == Blank && Decoded(Fill(RECORD_SIZE, 0)) == Dead
  {
    assert Fill(RECORD_SIZE, 0xFF)[..4][0] == 0xFF;
    assert Fill(RECORD_SIZE, 0)[..4][0] == 0 && Fill(RECORD_SIZE, 0)[0] != 0xFF;
  }

  function Address(i: nat): nat { PAIRINGS_OFFSET + RECORD_SIZE * i }

  /** What a write leaves: the bits both had. */
  function Programmed(was: seq<byte>, b: seq<byte>): (now: seq<byte>)
    requires |was| == |b|
    ensures |now| == |b|
  {
    seq(|b|, i requires 0 <= i < |b| => And(was[i], b[i]))
  }

  lemma BlankTakes(b: seq<byte>)
    ensures Programmed(Fill(|b|, 0xFF), b) == b
  {
    hide And;
    forall i | 0 <= i < |b| ensures Programmed(Fill(|b|, 0xFF), b)[i] == b[i] { AndLaws(b[i]); }
  }

  lemma ZeroClears(was: seq<byte>)
    ensures Programmed(was, Fill(|was|, 0)) == Fill(|was|, 0)
  {
    hide And;
    forall i | 0 <= i < |was| ensures Programmed(was, Fill(|was|, 0))[i] == 0 { AndLaws(was[i]); }
  }

  datatype Pairing = Pairing(slot: nat, record: Record)

  /** The slots of a sector's bytes. */
  function SlotsIn(bytes: seq<byte>): (s: seq<Slot>)
    requires |bytes| == SECTOR_SIZE
    ensures |s| == MAX_PAIRINGS
  {
    seq(MAX_PAIRINGS, i requires 0 <= i < MAX_PAIRINGS => Decoded(bytes[Address(i)..Address(i) + RECORD_SIZE]))
  }

  class Store {
    const flash: array<byte>

    /** The bytes of a slot. */
    function Bytes(i: nat): (b: seq<byte>)
      requires flash.Length == SECTOR_SIZE && i < MAX_PAIRINGS
      reads flash
      ensures |b| == RECORD_SIZE
    {
      flash[Address(i)..Address(i) + RECORD_SIZE]
    }

    function Slots(): (s: seq<Slot>)
      requires flash.Length == SECTOR_SIZE
      reads flash
      ensures |s| == MAX_PAIRINGS
    {
      seq(MAX_PAIRINGS, i requires 0 <= i < MAX_PAIRINGS && flash.Length == SECTOR_SIZE reads flash => Decoded(Bytes(i)))
    }

    ghost predicate Valid() reads flash { flash.Length == SECTOR_SIZE && Ordered(Slots()) }

    /** The records, oldest first. */
    ghost function Log(): seq<Record>
      requires Valid()
      reads flash
    {
      LogOf(Slots())
    }

    /** How many slots can still be written before the sector must be erased. */
    ghost function Room(): nat
      requires Valid()
      reads flash
    {
      Blanks(Slots())
    }

    /** spiflash_write */
    method Write(at: nat, bytes: seq<byte>)
      requires flash.Length == SECTOR_SIZE && at + |bytes| <= SECTOR_SIZE
      modifies flash
      ensures flash[at..at + |bytes|] == Programmed(old(flash[at..at + |bytes|]), bytes)
      ensures forall k :: 0 <= k < SECTOR_SIZE && !(at <= k < at + |bytes|) ==> flash[k] == old(flash[k])
    {
      hide And;
      var i := 0;
      while i < |bytes|
        invariant i <= |bytes|
        invariant forall k :: 0 <= k < i ==> flash[at + k] == And(old(flash[at + k]), bytes[k])
        invariant forall k :: 0 <= k < SECTOR_SIZE && !(at <= k < at + i) ==> flash[k] == old(flash[k])
      {
        flash[at + i] := And(flash[at + i], bytes[i]);
        i := i + 1;
      }
    }

    /** A whole slot written; the other slots keep their bytes. */
    method WriteSlot(i: nat, bytes: seq<byte>)
      requires flash.Length == SECTOR_SIZE && i < MAX_PAIRINGS && |bytes| == RECORD_SIZE
      modifies flash
      ensures Bytes(i) == Programmed(old(Bytes(i)), bytes)
      ensures Slots() == old(Slots())[i := Decoded(Bytes(i))]
      ensures forall k :: 0 <= k < SECTOR_SIZE && !(Address(i) <= k < Address(i) + RECORD_SIZE) ==> flash[k] == old(flash[k])
    {
      hide Programmed, Decoded;
      Write(Address(i), bytes);
      forall j | 0 <= j < MAX_PAIRINGS && j != i ensures Bytes(j) == old(Bytes(j)) {
        assert Address(j) + RECORD_SIZE <= Address(i) || Address(i) + RECORD_SIZE <= Address(j);
      }
    }

    /** The state of a sector just formatted: nothing is left of what it held. */
    ghost predicate Erased()
      requires flash.Length == SECTOR_SIZE
      reads flash
    {
      flash[..4] == MAGIC && forall k :: 4 <= k < SECTOR_SIZE ==> flash[k] == 0xFF
    }

    lemma ErasedSlots()
      requires flash.Length == SECTOR_SIZE && Erased()
      ensures Slots() == Wiped(MAX_PAIRINGS) && Valid() && Log() == [] && Room() == MAX_PAIRINGS
    {
      forall j | 0 <= j < MAX_PAIRINGS ensures Slots()[j].Blank? {
        assert Bytes(j) == Fill(RECORD_SIZE, 0xFF);
        DecodesBlank();
      }
      LogBlank(Slots());
      NoBlanks(Slots());
    }

    /** The sector erased and the magic written. */
    method Format()
      requires flash.Length == SECTOR_SIZE
      modifies flash
      ensures Erased() && Valid() && Log() == [] && Room() == MAX_PAIRINGS && Slots() == Wiped(MAX_PAIRINGS)
    {
      var i := 0;
      while i < SECTOR_SIZE
        invariant i <= SECTOR_SIZE && forall k :: 0 <= k < i ==> flash[k] == 0xFF
      {
        flash[i] := 0xFF;
        i := i + 1;
      }
      assert flash[0..4] == Fill(4, 0xFF);
      BlankTakes(MAGIC);
      Write(0, MAGIC);
      assert flash[..4] == flash[0..4];
      ErasedSlots();
    }

    /** homekit_storage_init: 1 when the magic was missing and the sector has been formatted. */
    method Init() returns (r: int)
      requires flash.Length == SECTOR_SIZE
      modifies flash
      ensures r == if old(flash[..4]) == MAGIC then 0 else 1
      ensures if r == 0 then flash[..] == old(flash[..]) else Erased() && Slots() == Wiped(MAX_PAIRINGS)
    {
      if flash[..4] != MAGIC {
        Format();
        return 1;
      }
      r := 0;
    }

    /** homekit_storage_reset: the magic is spoilt, so that the sector is formatted; the
        answer is that of the initialisation, 1. */
    method Reset() returns (r: int)
      requires flash.Length == SECTOR_SIZE
      modifies flash
      ensures r == 1 && Erased() && Slots() == Wiped(MAX_PAIRINGS)
    {
      ZeroClears(flash[0..4]);
      Write(0, Fill(4, 0));
      assert flash[..4] == flash[0..4] && flash[..4][0] == 0;
      r := Init();
    }

    /** find_empty_block: the first blank slot, or -1. */
    method FindEmptyBlock() returns (r: int)
      requires flash.Length == SECTOR_SIZE
      ensures r == if FirstBlank(Slots()) < MAX_PAIRINGS then FirstBlank(Slots()) else -1
    {
      var i := 0;
      while i < MAX_PAIRINGS
        invariant i <= MAX_PAIRINGS && forall j :: 0 <= j < i ==> !Slots()[j].Blank?
      {
        var empty := AllOnes(i);
        if empty { return i; }
        i := i + 1;
      }
      r := -1;
    }

    method AllOnes(i: nat) returns (empty: bool)
      requires flash.Length == SECTOR_SIZE && i < MAX_PAIRINGS
      ensures empty <==> Slots()[i].Blank?
    {
      var data := Bytes(i);
      assert Slots()[i] == Decoded(data);
      assert Fill(RECORD_SIZE, 0xFF)[..4][0] == 0xFF;
      var j := 0;
      while j < RECORD_SIZE
        invariant j <= RECORD_SIZE && forall k :: 0 <= k < j ==> data[k] == 0xFF
      {
        if data[j] != 0xFF { return false; }
        j := j + 1;
      }
      assert data == Fill(RECORD_SIZE, 0xFF);
      empty := true;
    }

    /** compact_data. A full store stays as it is. Any other is erased, and then the answer of
        the reset is taken for a failure: the records gathered before are not written back. */
    method Compact() returns (r: int)
      requires flash.Length == SECTOR_SIZE
      modifies flash
      ensures r == if AllUsed(old(Slots())) then 0 else -1
      ensures if r == 0 then flash[..] == old(flash[..]) else Erased() && Slots() == Wiped(MAX_PAIRINGS)
    {
      var next := CountRecords();
      if next == MAX_PAIRINGS { return 0; }
      var reset := Reset();
      r := if reset != 0 then -1 else 0;
    }

    /** The loop of compact_data, as far as flash memory is concerned: how many slots hold records. */
    method CountRecords() returns (next: nat)
      requires flash.Length == SECTOR_SIZE
      ensures next <= MAX_PAIRINGS && (next == MAX_PAIRINGS <==> AllUsed(Slots()))
    {
      hide Decoded;
      next := 0;
      var i := 0;
      while i < MAX_PAIRINGS
        invariant next <= i <= MAX_PAIRINGS && (next == i <==> forall j :: 0 <= j < i ==> Slots()[j].Used?)
      {
        assert Slots()[i] == Decoded(Bytes(i));
        if Decoded(Bytes(i)).Used? { next := next + 1; }
        i := i + 1;
      }
    }

    /** find_empty_block, with compaction when there is none. */
    method Search() returns (next: int)
      requires flash.Length == SECTOR_SIZE
      modifies flash
      ensures Slots() == Searched(old(Slots()))
      ensures next == if FirstBlank(Slots()) < MAX_PAIRINGS then FirstBlank(Slots()) else -1
      ensures if Wipes(old(Slots())) then Erased() else flash[..] == old(flash[..])
    {
      next := FindEmptyBlock();
      if next == -1 {
        SlotsOf(flash[..]);
        var r := Compact();
        SlotsOf(flash[..]);
        next := FindEmptyBlock();
      }
    }

    lemma SlotsOf(bytes: seq<byte>)
      requires flash.Length == SECTOR_SIZE && bytes == flash[..]
      ensures Slots() == SlotsIn(bytes)
    {
      hide Decoded;
      forall i | 0 <= i < MAX_PAIRINGS ensures Bytes(i) == bytes[Address(i)..Address(i) + RECORD_SIZE] {}
    }

    /** What the first bytes of the sector are, the accessory's id and key among them, after an
        operation that has looked for a blank slot. */
    ghost predicate HeaderAfter(slots: seq<Slot>, was: seq<byte>)
      requires flash.Length == SECTOR_SIZE
      reads flash
    {
      flash[..PAIRINGS_OFFSET] == if Wipes(slots) then MAGIC + Fill(PAIRINGS_OFFSET - 4, 0xFF) else was
    }

    lemma ErasedHeader()
      requires flash.Length == SECTOR_SIZE && Erased()
      ensures flash[..PAIRINGS_OFFSET] == MAGIC + Fill(PAIRINGS_OFFSET - 4, 0xFF)
    {
      forall k | 0 <= k < PAIRINGS_OFFSET ensures flash[k] == (MAGIC + Fill(PAIRINGS_OFFSET - 4, 0xFF))[k] {
        if k < 4 { assert flash[k] == flash[..4][k]; }
      }
    }

    lemma RoomLeft()
      requires Valid()
      ensures Room() > 0 <==> FirstBlank(Slots()) < MAX_PAIRINGS
    {
      NoBlanks(Slots());
    }

    /** homekit_storage_add_pairing: -2 when sixteen records are stored. The log grows by the
        record exactly if a blank slot was left or nothing was stored; otherwise the record
        is all that is stored afterwards, and the header of the sector is erased. */
    method Add(id: seq<byte>, key: seq<byte>, permissions: byte) returns (r: int)
      requires Valid() && |id| == ID_SIZE && |key| == KEY_SIZE
      modifies flash
      ensures Valid() && Written(Slots(), r) == SlotsAdded(old(Slots()), Record(permissions, id, key))
      ensures r == if AllUsed(old(Slots())) then -2 else 0
      ensures r == 0 ==> Log() == (if old(Room()) > 0 then old(Log()) else []) + [Record(permissions, id, key)]
      ensures r == 0 ==>
        (Log() == old(Log()) + [Record(permissions, id, key)] <==> old(Room()) > 0 || old(Log()) == [])
      ensures r == 0 ==> HeaderAfter(old(Slots()), old(flash[..PAIRINGS_OFFSET]))
      ensures r != 0 ==> flash[..] == old(flash[..])
    {
      hide Decoded, LogOf, Ordered;
      ghost var data := Record(permissions, id, key);
      RoomLeft();
      AddActs(Slots(), data);
      assert [] + [data] == [data];
      var next := Search();
      if next == -1 { return -2; }
      if Wipes(old(Slots())) { ErasedHeader(); }
      AppendRecord(next, Record(permissions, id, key));
      r := 0;
    }

    /** The write of a record into a blank slot stores it exactly; in the first one it is
        appended to the log. */
    method AppendRecord(next: nat, data: Record)
      requires flash.Length == SECTOR_SIZE && Writable(data) && next < MAX_PAIRINGS && Slots()[next].Blank?
      modifies flash
      ensures Slots() == old(Slots())[next := Used(data)] && Bytes(next) == Encoded(data)
      ensures old(Valid()) && next == FirstBlank(old(Slots())) ==> Valid() && Log() == LogOf(old(Slots())) + [data]
      ensures flash[..PAIRINGS_OFFSET] == old(flash[..PAIRINGS_OFFSET])
    {
      hide Programmed, Encoded;
      BlankBytes(next);
      BlankTakes(Encoded(data));
      DecodesRecord(data);
      if Ordered(Slots()) && next == FirstBlank(Slots()) { Appends(Slots(), next, data); }
      WriteSlot(next, Encoded(data));
    }

    lemma BlankBytes(i: nat)
      requires flash.Length == SECTOR_SIZE && i < MAX_PAIRINGS && Slots()[i].Blank?
      ensures Bytes(i) == Fill(RECORD_SIZE, 0xFF)
    {
    }

    /** A slot zeroed in place. */
    method ClearSlot(i: nat)
      requires flash.Length == SECTOR_SIZE && i < MAX_PAIRINGS
      modifies flash
      ensures Slots() == old(Slots())[i := Dead]
      ensures flash[..PAIRINGS_OFFSET] == old(flash[..PAIRINGS_OFFSET])
    {
      hide Programmed, Decoded;
      ZeroClears(Bytes(i));
      DecodesBlank();
      WriteSlot(i, Fill(RECORD_SIZE, 0));
    }

    /** The slot of a device: that of its first record, or -1. */
    method FindSlot(id: seq<byte>) returns (r: int)
      requires flash.Length == SECTOR_SIZE
      ensures r == if FirstOf(Slots(), id) < MAX_PAIRINGS then FirstOf(Slots(), id) else -1
    {
      hide Decoded;
      var i := 0;
      while i < MAX_PAIRINGS
        invariant i <= MAX_PAIRINGS
        invariant forall j :: 0 <= j < i && Slots()[j].Used? ==> Slots()[j].record.id != id
      {
        var data := Decoded(Bytes(i));
        assert Slots()[i] == data;
        if data.Used? && data.record.id == id { return i; }
        i := i + 1;
      }
      r := -1;
    }

    /** homekit_storage_update_pairing: -1 for an unknown device, -2 when sixteen records are
        stored. The log is that of an update when a blank slot was left; otherwise the
        changed record is all that is stored afterwards, or nothing at all when the device
        had the first slot. */
    method Update(id: seq<byte>, permissions: byte) returns (r: int)
      requires Valid()
      modifies flash
      ensures Valid() && Written(Slots(), r) == SlotsUpdated(old(Slots()), id, permissions)
      ensures r == if Find(old(Log()), id).None? then -1 else if AllUsed(old(Slots())) then -2 else 0
      ensures r == 0 && old(Room()) > 0 ==> Log() == Updated(old(Log()), id, permissions)
      ensures r == 0 && old(Room()) == 0 ==>
        Log() == if FirstOf(old(Slots()), id) == 0 then [] else [Find(old(Log()), id).value.(permissions := permissions)]
      ensures r == 0 ==> HeaderAfter(old(Slots()), old(flash[..PAIRINGS_OFFSET]))
      ensures r != 0 ==> flash[..] == old(flash[..])
    {
      hide Decoded, LogOf, Ordered, Updated;
      RoomLeft();
      UpdateActs(Slots(), id, permissions);
      var i := FindSlot(id);
      if i == -1 { return -1; }
      var data := Decoded(Bytes(i)).record;
      assert Slots()[i] == Decoded(Bytes(i)) && Writable(data);
      var next := Search();
      if next == -1 { return -2; }
      if Wipes(old(Slots())) { ErasedHeader(); }
      AppendRecord(next, data.(permissions := permissions));
      ClearSlot(i);
      r := 0;
    }

    /** homekit_storage_remove_pairing */
    method Remove(id: seq<byte>) returns (r: int)
      requires Valid()
      modifies flash
      ensures Valid() && r == 0 && Slots() == SlotsRemoved(old(Slots()), id)
      ensures Log() == Without(old(Log()), id)
      ensures flash[..PAIRINGS_OFFSET] == old(flash[..PAIRINGS_OFFSET])
    {
      hide LogOf, Ordered, Without;
      r := 0;
      RemoveActs(Slots(), id);
      var i := FindSlot(id);
      if i != -1 { ClearSlot(i); }
    }

    /** homekit_storage_find_pairing, for keys of which `imports` says whether they can be
        imported: -1 for an unknown device, -2 when its key cannot. */
    method FindPairing(id: seq<byte>, imports: seq<byte> -> bool) returns (r: int, p: Option<Pairing>)
      requires Valid()
      ensures match Find(Log(), id)
        case None => r == -1 && p == None
        case Some(record) =>
          if imports(record.key) then r == 0 && p == Some(Pairing(FirstOf(Slots(), id), record)) else r == -2 && p == None
    {
      hide Decoded;
      Finds(Slots(), id);
      p := None;
      var i := FindSlot(id);
      if i == -1 { return -1, None; }
      var data := Decoded(Bytes(i)).record;
      assert Slots()[i] == Decoded(Bytes(i));
      if !imports(data.key) { return -2, None; }
      r, p := 0, Some(Pairing(i, data));
    }

    /** A run of the store's operations, however much it writes. */
    method RunAll(ops: seq<Op>)
      requires Valid() && forall i :: 0 <= i < |ops| && ops[i].Adds? ==> Writable(ops[i].record)
      modifies flash
      ensures Valid() && Slots() == SlotsAll(old(Slots()), ops)
      ensures WritesIn(ops) <= old(Room()) ==> Log() == AppliedAll(old(Log()), ops)
    {
      hide SlotsAll, SlotsApplied, LogOf, Ordered, AppliedAll, Blanks;
      if WritesIn(ops) <= Room() { RunActs(Slots(), ops); }
      var i := 0;
      assert ops[0..] == ops;
      while i < |ops|
        invariant i <= |ops| && Valid() && SlotsAll(old(Slots()), ops) == SlotsAll(Slots(), ops[i..])
      {
        ghost var rest := ops[i..];
        assert rest[0] == ops[i] && rest[1..] == ops[i + 1..];
        AllNext(Slots(), rest);
        Step(ops[i]);
        i := i + 1;
      }
      AllNext(Slots(), ops[i..]);
    }

    method Step(op: Op)
      requires Valid() && (op.Adds? ==> Writable(op.record))
      modifies flash
      ensures Valid() && Slots() == SlotsApplied(old(Slots()), op)
    {
      hide LogOf, Ordered, SlotsAdded, SlotsUpdated, SlotsRemoved;
      match op {
        case Adds(record) => var r := Add(record.id, record.key, record.permissions);
        case Updates(id, permissions) => var r := Update(id, permissions);
        case Removes(id) => var r := Remove(id);
      }
    }

    constructor (flash: array<byte>)
      ensures this.flash == flash
    {
      this.flash := flash;
    }
  }

  lemma AllNext(slots: seq<Slot>, ops: seq<Op>)
    ensures SlotsAll(slots, ops) == if ops == [] then slots else SlotsAll(SlotsApplied(slots, ops[0]), ops[1..])
  {
  }

  /** From a formatted sector, a run of adds of new devices, updates and removes that writes
      at most sixteen records leaves in flash what a map from device to record holds. */
  method RunFromEmpty(flash: array<byte>, ops: seq<Op>) returns (store: Store)
    requires flash.Length == SECTOR_SIZE && WritesIn(ops) <= MAX_PAIRINGS && AddsNew(map[], ops)
    requires forall i :: 0 <= i < |ops| && ops[i].Adds? ==> Writable(ops[i].record)
    modifies flash
    ensures store.flash == flash && store.Valid() && Represents(store.Log(), MappedAll(map[], ops))
  {
    hide AppliedAll, MappedAll, AddsNew;
    store := new Store(flash);
    store.Format();
    EmptyRepresents();
    RunIsMap([], map[], ops);
    store.RunAll(ops);
  }

  lemma EmptyRepresents()
    ensures Represents([], map[])
  {
  }

  // The store at its limit

  function AddsOf(records: seq<Record>): seq<Op> {
    if records == [] then [] else [Adds(records[0])] + AddsOf(records[1..])
  }

  lemma {:induction false} AddsAre(log: seq<Record>, records: seq<Record>)
    ensures AppliedAll(log, AddsOf(records)) == log + records && WritesIn(AddsOf(records)) == |records|
    ensures |AddsOf(records)| == |records| && forall i :: 0 <= i < |records| ==> AddsOf(records)[i] == Adds(records[i])
    decreases |records|
  {
    if records == [] {
      assert log + records == log;
    } else {
      var ops := AddsOf(records);
      assert ops[1..] == AddsOf(records[1..]);
      AddsAre(log + [records[0]], records[1..]);
      assert (log + [records[0]]) + records[1..] == log + records;
    }
  }

  /** Sixteen devices are paired on a formatted sector, and the last of them is removed. */
  method FifteenAndOneGone(flash: array<byte>, records: seq<Record>) returns (store: Store)
    requires flash.Length == SECTOR_SIZE && |records| == MAX_PAIRINGS && Distinct(records)
    requires forall i :: 0 <= i < |records| ==> Writable(records[i])
    modifies flash
    ensures store.flash == flash && store.Valid() && store.Log() == records[..15]
    ensures store.Room() == 0 && !AllUsed(store.Slots()) && store.Slots()[0] == Used(records[0])
  {
    hide AppliedAll, LogOf, Ordered;
    store := new Store(flash);
    store.Format();
    AddsAre([], records);
    assert [] + records == records;
    store.RunAll(AddsOf(records));
    FullSlots(store.Slots(), records);
    LastGone(store.Slots(), records);
    var r := store.Remove(records[15].id);
  }

  lemma {:induction false} FullSlots(slots: seq<Slot>, records: seq<Record>)
    requires LogOf(slots) == records && |records| == |slots|
    ensures forall i :: 0 <= i < |slots| ==> slots[i] == Used(records[i])
    decreases |slots|
  {
    if slots != [] {
      LogLength(slots);
      assert slots[0].Used? && LogOf(slots[1..]) == records[1..];
      FullSlots(slots[1..], records[1..]);
      forall i | 0 <= i < |slots| ensures slots[i] == Used(records[i]) {
        if i > 0 { assert slots[i] == slots[1..][i - 1] && records[i] == records[1..][i - 1]; }
      }
    }
  }

  lemma {:induction false} LastGone(slots: seq<Slot>, records: seq<Record>)
    requires |slots| == |records| == 16 && Distinct(records) && forall i :: 0 <= i < |slots| ==> slots[i] == Used(records[i])
    ensures var s := SlotsRemoved(slots, records[15].id);
      s == slots[15 := Dead] && Blanks(s) == 0 && !AllUsed(s) && Without(records, records[15].id) == records[..15]
  {
    var id := records[15].id;
    assert FirstOf(slots, id) == 15;
    assert !slots[15 := Dead][15].Used?;
    NoBlanks(slots[15 := Dead]);
    assert records == records[..15] + [records[15]];
    WithoutAfter(records[..15], [records[15]], id);
    assert records[..15] + [] == records[..15];
  }

  /** Pairing a new device with that store loses the other fifteen. */
  method LostByAdding(flash: array<byte>, records: seq<Record>, r: Record) returns (store: Store)
    requires flash.Length == SECTOR_SIZE && |records| == MAX_PAIRINGS && Distinct(records) && Writable(r)
    requires forall i :: 0 <= i < |records| ==> Writable(records[i])
    modifies flash
    ensures store.flash == flash && store.Valid() && store.Log() == [r]
  {
    hide LogOf, Ordered;
    store := FifteenAndOneGone(flash, records);
    var ok := store.Add(r.id, r.key, r.permissions);
    assert [] + [r] == [r];
  }

  /** Changing the permissions of the device paired first loses all fifteen. */
  method LostByUpdating(flash: array<byte>, records: seq<Record>, permissions: byte) returns (store: Store)
    requires flash.Length == SECTOR_SIZE && |records| == MAX_PAIRINGS && Distinct(records)
    requires forall i :: 0 <= i < |records| ==> Writable(records[i])
    modifies flash
    ensures store.flash == flash && store.Valid() && store.Log() == []
  {
    hide LogOf, Ordered;
    store := FifteenAndOneGone(flash, records);
    assert FirstOf(store.Slots(), records[0].id) == 0;
    assert store.Log()[0] == records[0];
    var ok := store.Update(records[0].id, permissions);
  }

  /** The records whose keys can be imported. */
  function Importable(log: seq<Record>, imports: seq<byte> -> bool): seq<Record> {
    if log == [] then [] else (if imports(log[0].key) then [log[0]] else []) + Importable(log[1..], imports)
  }

  lemma ImportableFirst(s: Slot, rest: seq<Slot>, imports: seq<byte> -> bool)
    ensures Importable(LogOf([s] + rest), imports)
         == (if s.Used? && imports(s.record.key) then [s.record] else []) + Importable(LogOf(rest), imports)
  {
    assert ([s] + rest)[1..] == rest;
    if s.Used? { assert ([s.record] + LogOf(rest))[1..] == LogOf(rest); } else { assert [] + LogOf(rest) == LogOf(rest); }
  }

  lemma NoneImportable(imports: seq<byte> -> bool)
    ensures Importable(LogOf([]), imports) == []
  {
  }

  /** The pairing iterator: its index moves over the slots and never back. */
  class Iterator {
    var idx: nat

    constructor ()
      ensures idx == 0
    {
      idx := 0;
    }

    /** homekit_storage_next_pairing: the records whose keys can be imported come in the order
        of the log, each once. */
    method Next(store: Store, imports: seq<byte> -> bool) returns (p: Option<Pairing>)
      requires store.Valid() && idx <= MAX_PAIRINGS
      modifies this
      ensures idx <= MAX_PAIRINGS
      ensures var left := Importable(LogOf(store.Slots()[old(idx)..]), imports);
        match p
        case None => left == [] && idx == MAX_PAIRINGS
        case Some(q) => left == [q.record] + Importable(LogOf(store.Slots()[idx..]), imports) && old(idx) <= q.slot < MAX_PAIRINGS
                        && store.Slots()[q.slot] == Used(q.record) && idx == q.slot + 1
    {
      hide Decoded, Importable, LogOf;
      while idx < MAX_PAIRINGS
        invariant old(idx) <= idx <= MAX_PAIRINGS
        invariant Importable(LogOf(store.Slots()[old(idx)..]), imports) == Importable(LogOf(store.Slots()[idx..]), imports)
      {
        var id := idx;
        idx := idx + 1;
        var data := Decoded(store.Bytes(id));
        ghost var tail := store.Slots()[id..];
        assert tail[0] == data && tail[1..] == store.Slots()[id + 1..];
        ImportableFirst(data, tail[1..], imports);
        assert tail == [data] + tail[1..];
        if data.Used? {
          if imports(data.record.key) { return Some(Pairing(id, data.record)); }
        }
      }
      NoneImportable(imports);
      assert store.Slots()[idx..] == [];
      p := None;
    }
  }
}
