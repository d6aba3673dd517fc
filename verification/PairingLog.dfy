/** The pairing records as a log, apart from how flash memory holds them: what adding,
    updating, removing and finding mean, and when that is a map. */
module PairingLog {
  import opened Bytes
  import opened Options

  /** The device id is the padded field of the record. */
  datatype Record = Record(permissions: byte, id: seq<byte>, key: seq<byte>)

  /** A slot that is neither erased nor a record is dead until the sector is erased. */
  datatype Slot = Blank | Dead | Used(record: Record)

  function LogOf(slots: seq<Slot>): seq<Record> {
    if slots == [] then [] else (if slots[0].Used? then [slots[0].record] else []) + LogOf(slots[1..])
  }

  /** No record stands behind a blank slot. */
  predicate Ordered(slots: seq<Slot>) { forall i, j :: 0 <= i < j < |slots| && slots[i].Blank? ==> !slots[j].Used? }

  /** The slots that can still be written. */
  function Blanks(slots: seq<Slot>): nat {
    if slots == [] then 0 else (if slots[0].Blank? then 1 else 0) + Blanks(slots[1..])
  }

  function Find(log: seq<Record>, id: seq<byte>): Option<Record> {
    if log == [] then None else if log[0].id == id then Some(log[0]) else Find(log[1..], id)
  }

  /** The log without the first record of a device. */
  function Without(log: seq<Record>, id: seq<byte>): seq<Record> {
    if log == [] then [] else if log[0].id == id then log[1..] else [log[0]] + Without(log[1..], id)
  }

  function Count(log: seq<Record>, id: seq<byte>): nat {
    if log == [] then 0 else (if log[0].id == id then 1 else 0) + Count(log[1..], id)
  }

  predicate Distinct(log: seq<Record>) { forall i, j :: 0 <= i < j < |log| ==> log[i].id != log[j].id }

  /** update_pairing on the log: a changed copy at the end, then the old record out. */
  function Updated(log: seq<Record>, id: seq<byte>, permissions: byte): seq<Record> {
    match Find(log, id)
    case None => log
    case Some(r) => Without(log, id) + [r.(permissions := permissions)]
  }

  lemma {:induction false} LogConcat(a: seq<Slot>, b: seq<Slot>)
    ensures LogOf(a + b) == LogOf(a) + LogOf(b)
    decreases |a|
  {
    if a == [] {
      assert a + b == b;
    } else {
      assert (a + b)[1..] == a[1..] + b && (a + b)[0] == a[0];
      LogConcat(a[1..], b);
      var first := if a[0].Used? then [a[0].record] else [];
      assert first + (LogOf(a[1..]) + LogOf(b)) == (first + LogOf(a[1..])) + LogOf(b);
    }
  }

  lemma {:induction false} LogBlank(slots: seq<Slot>)
    requires forall i :: 0 <= i < |slots| ==> !slots[i].Used?
    ensures LogOf(slots) == []
    decreases |slots|
  {
    if slots != [] { LogBlank(slots[1..]); }
  }

  /** A slot changed in place: the log around it stays. */
  lemma LogSplit(slots: seq<Slot>, i: nat, s: Slot)
    requires i < |slots|
    ensures LogOf(slots[i := s]) == LogOf(slots[..i]) + (if s.Used? then [s.record] else []) + LogOf(slots[i + 1..])
  {
    var t := slots[i := s];
    assert t == t[..i] + ([s] + t[i + 1..]) && t[..i] == slots[..i] && t[i + 1..] == slots[i + 1..];
    LogConcat(t[..i], [s] + t[i + 1..]);
    assert ([s] + t[i + 1..])[1..] == t[i + 1..];
  }

  /** Writing a record into the first blank slot appends it to the log. */
  lemma Appends(slots: seq<Slot>, i: nat, r: Record)
    requires Ordered(slots) && i < |slots| && slots[i].Blank? && forall j :: 0 <= j < i ==> !slots[j].Blank?
    ensures LogOf(slots[i := Used(r)]) == LogOf(slots) + [r] && Ordered(slots[i := Used(r)])
  {
    LogSplit(slots, i, Used(r));
    LogSplit(slots, i, slots[i]);
    assert slots[i := slots[i]] == slots;
    LogBlank(slots[i + 1..]);
  }

  /** Zeroing the first record of a device takes it out of the log. */
  lemma Drops(slots: seq<Slot>, i: nat, id: seq<byte>)
    requires i < |slots| && slots[i].Used? && slots[i].record.id == id && Ordered(slots)
    requires forall j :: 0 <= j < i && slots[j].Used? ==> slots[j].record.id != id
    ensures LogOf(slots[i := Dead]) == Without(LogOf(slots), id) && Ordered(slots[i := Dead])
    ensures Find(LogOf(slots), id) == Some(slots[i].record)
  {
    LogSplit(slots, i, Dead);
    LogSplit(slots, i, slots[i]);
    assert slots[i := slots[i]] == slots;
    NoneBefore(slots[..i], id);
    var a, b := LogOf(slots[..i]), LogOf(slots[i + 1..]);
    WithoutAfter(a, [slots[i].record] + b, id);
    assert a + [slots[i].record] + b == a + ([slots[i].record] + b);
  }

  lemma {:induction false} NoneBefore(slots: seq<Slot>, id: seq<byte>)
    requires forall j :: 0 <= j < |slots| && slots[j].Used? ==> slots[j].record.id != id
    ensures forall k :: 0 <= k < |LogOf(slots)| ==> LogOf(slots)[k].id != id
    decreases |slots|
  {
    if slots != [] { NoneBefore(slots[1..], id); }
  }

  lemma {:induction false} WithoutAfter(a: seq<Record>, b: seq<Record>, id: seq<byte>)
    requires forall k :: 0 <= k < |a| ==> a[k].id != id
    ensures Without(a + b, id) == a + Without(b, id) && Find(a + b, id) == Find(b, id)
    decreases |a|
  {
    if a == [] {
      assert a + b == b;
    } else {
      assert (a + b)[1..] == a[1..] + b;
      WithoutAfter(a[1..], b, id);
    }
  }

  lemma {:induction false} NotFound(log: seq<Record>, id: seq<byte>)
    ensures Find(log, id).None? <==> forall k :: 0 <= k < |log| ==> log[k].id != id
    ensures Find(log, id).None? <==> Count(log, id) == 0
    ensures Find(log, id).None? ==> Without(log, id) == log
    decreases |log|
  {
    if log != [] {
      NotFound(log[1..], id);
      assert forall k :: 0 < k < |log| ==> log[k] == log[1..][k - 1];
      assert forall k :: 0 <= k < |log| - 1 ==> log[1..][k] == log[k + 1];
    }
  }

  // The log as a map

  lemma {:induction false} FindAppended(log: seq<Record>, r: Record, id: seq<byte>)
    ensures Find(log + [r], id) == (if Find(log, id).Some? then Find(log, id) else if r.id == id then Some(r) else None)
    ensures Count(log + [r], id) == Count(log, id) + (if r.id == id then 1 else 0)
    decreases |log|
  {
    if log == [] {
      assert [r][1..] == [] && log + [r] == [r];
    } else {
      assert (log + [r])[1..] == log[1..] + [r];
      FindAppended(log[1..], r, id);
    }
  }

  lemma {:induction false} FindWithout(log: seq<Record>, id: seq<byte>, other: seq<byte>)
    ensures other != id ==> Find(Without(log, id), other) == Find(log, other)
    ensures Count(Without(log, id), other) ==
            if other == id && Count(log, id) > 0 then Count(log, id) - 1 else Count(log, other)
    decreases |log|
  {
    if log != [] && log[0].id != id {
      FindWithout(log[1..], id, other);
      assert Without(log, id)[1..] == Without(log[1..], id);
    } else if log != [] {
      assert log == [log[0]] + log[1..];
    }
  }

  ghost predicate Single(log: seq<Record>) { forall id :: Count(log, id) <= 1 }

  lemma DistinctTail(log: seq<Record>)
    requires log != []
    ensures Distinct(log) <==> Distinct(log[1..]) && forall k :: 0 <= k < |log[1..]| ==> log[1..][k].id != log[0].id
  {
    var rest := log[1..];
    assert forall k :: 0 <= k < |rest| ==> rest[k] == log[k + 1];
    assert forall k :: 0 < k < |log| ==> log[k] == rest[k - 1];
  }

  lemma SingleTail(log: seq<Record>)
    requires log != []
    ensures Single(log) <==> Single(log[1..]) && Count(log[1..], log[0].id) == 0
  {
    var rest := log[1..];
    if Single(log) {
      forall id ensures Count(rest, id) <= 1 { assert Count(log, id) <= 1; }
      assert Count(log, log[0].id) <= 1;
    }
    if Single(rest) && Count(rest, log[0].id) == 0 {
      forall id ensures Count(log, id) <= 1 { assert Count(rest, id) <= 1; }
    }
  }

  /** The devices are distinct exactly when none has two records. */
  lemma {:induction false} DistinctCounts(log: seq<Record>)
    ensures Distinct(log) <==> Single(log)
    decreases |log|
  {
    if log != [] {
      hide Distinct, Single;
      DistinctCounts(log[1..]);
      NotFound(log[1..], log[0].id);
      DistinctTail(log);
      SingleTail(log);
    } else {
      assert Single(log);
    }
  }

  /** The three changes on a log of distinct devices are those of a map from device to
      record, and leave the devices distinct. Adding asks for a new device. */
  lemma MapSteps(log: seq<Record>, r: Record, id: seq<byte>, permissions: byte, other: seq<byte>)
    requires Distinct(log)
    ensures Find(log, r.id).None? ==>
      Distinct(log + [r]) && Find(log + [r], other) == if other == r.id then Some(r) else Find(log, other)
    ensures Distinct(Without(log, id))
    ensures Find(Without(log, id), other) == if other == id then None else Find(log, other)
    ensures Distinct(Updated(log, id, permissions))
    ensures Find(Updated(log, id, permissions), other) ==
      if other == id && Find(log, id).Some? then Some(Find(log, id).value.(permissions := permissions))
      else Find(log, other)
  {
    if Find(log, r.id).None? { AddStep(log, r, other); }
    RemoveStep(log, id, other);
    UpdateStep(log, id, permissions, other);
  }

  lemma AddStep(log: seq<Record>, r: Record, other: seq<byte>)
    requires Distinct(log) && Find(log, r.id).None?
    ensures Distinct(log + [r]) && Find(log + [r], other) == if other == r.id then Some(r) else Find(log, other)
  {
    FindAppended(log, r, other);
    NotFound(log, r.id);
  }

  lemma RemoveStep(log: seq<Record>, id: seq<byte>, other: seq<byte>)
    requires Distinct(log)
    ensures Distinct(Without(log, id)) && Find(Without(log, id), other) == if other == id then None else Find(log, other)
  {
    DistinctCounts(log);
    forall x ensures Count(Without(log, id), x) <= 1 {
      FindWithout(log, id, x);
      assert Count(log, x) <= 1;
    }
    DistinctCounts(Without(log, id));
    FindWithout(log, id, other);
    FindWithout(log, id, id);
    assert Count(log, id) <= 1;
    NotFound(Without(log, id), id);
  }

  lemma UpdateStep(log: seq<Record>, id: seq<byte>, permissions: byte, other: seq<byte>)
    requires Distinct(log)
    ensures Distinct(Updated(log, id, permissions))
    ensures Find(Updated(log, id, permissions), other) ==
      if other == id && Find(log, id).Some? then Some(Find(log, id).value.(permissions := permissions))
      else Find(log, other)
  {
    if Find(log, id).Some? {
      RemoveStep(log, id, id);
      RemoveStep(log, id, other);
      FoundHasId(log, id);
      AddStep(Without(log, id), Find(log, id).value.(permissions := permissions), other);
    }
  }

  lemma {:induction false} FoundHasId(log: seq<Record>, id: seq<byte>)
    ensures Find(log, id).Some? ==> Find(log, id).value.id == id
    decreases |log|
  {
    if log != [] { FoundHasId(log[1..], id); }
  }

  // An update cut short

  /** Stopped between its two writes, update leaves both records: the device is found with
      its old permissions, and every other device as before. */
  lemma Interrupted(log: seq<Record>, id: seq<byte>, permissions: byte, other: seq<byte>)
    requires Find(log, id).Some?
    ensures var between := log + [Find(log, id).value.(permissions := permissions)];
      Find(between, other) == Find(log, other) && Count(between, id) == Count(log, id) + 1
  {
    FoundHasId(log, id);
    FindAppended(log, Find(log, id).value.(permissions := permissions), other);
    FindAppended(log, Find(log, id).value.(permissions := permissions), id);
  }

  /** Removing takes one record out, so a device is gone exactly if it had no more than
      one; after an update cut short it comes back with the permissions of that update. */
  lemma RemovedWhenSingle(log: seq<Record>, id: seq<byte>)
    ensures Find(Without(log, id), id).None? <==> Count(log, id) <= 1
  {
    FindWithout(log, id, id);
    NotFound(Without(log, id), id);
  }

  // Whole runs

  datatype Op = Adds(record: Record) | Updates(id: seq<byte>, permissions: byte) | Removes(id: seq<byte>)

  function Applied(log: seq<Record>, op: Op): seq<Record> {
    match op
    case Adds(r) => log + [r]
    case Updates(id, permissions) => Updated(log, id, permissions)
    case Removes(id) => Without(log, id)
  }

  function AppliedAll(log: seq<Record>, ops: seq<Op>): seq<Record>
    decreases |ops|
  {
    if ops == [] then log else AppliedAll(Applied(log, ops[0]), ops[1..])
  }

  /** The same operations on a map from device to record. */
  function Mapped(m: map<seq<byte>, Record>, op: Op): map<seq<byte>, Record> {
    match op
    case Adds(r) => m[r.id := r]
    case Updates(id, permissions) => if id in m then m[id := m[id].(permissions := permissions)] else m
    case Removes(id) => m - {id}
  }

  function MappedAll(m: map<seq<byte>, Record>, ops: seq<Op>): map<seq<byte>, Record>
    decreases |ops|
  {
    if ops == [] then m else MappedAll(Mapped(m, ops[0]), ops[1..])
  }

  /** Whenever a record is added its device is new. */
  predicate AddsNew(m: map<seq<byte>, Record>, ops: seq<Op>)
    decreases |ops|
  {
    ops == [] || ((ops[0].Adds? ==> ops[0].record.id !in m) && AddsNew(Mapped(m, ops[0]), ops[1..]))
  }

  function Lookup(m: map<seq<byte>, Record>, id: seq<byte>): Option<Record> {
    if id in m then Some(m[id]) else None
  }

  ghost predicate Represents(log: seq<Record>, m: map<seq<byte>, Record>) {
    Distinct(log) && forall id :: Find(log, id) == Lookup(m, id)
  }

  lemma StepIsMap(log: seq<Record>, m: map<seq<byte>, Record>, op: Op)
    requires Represents(log, m) && (op.Adds? ==> op.record.id !in m)
    ensures Represents(Applied(log, op), Mapped(m, op))
  {
    hide Find, Without, Distinct;
    var after, n := Applied(log, op), Mapped(m, op);
    if op.Adds? { assert Find(log, op.record.id) == Lookup(m, op.record.id); }
    if op.Updates? { assert Find(log, op.id) == Lookup(m, op.id); }
    forall id ensures Find(after, id) == Lookup(n, id) && Distinct(after) {
      assert Find(log, id) == Lookup(m, id);
      match op
      case Adds(r) => AddStep(log, r, id);
      case Updates(x, permissions) => UpdateStep(log, x, permissions, id);
      case Removes(x) => RemoveStep(log, x, id);
    }
    var any: seq<byte> := [];
    assert Find(after, any) == Lookup(n, any);
  }

  /** Over every run that adds only new devices, the log is the map: what is found, and
      under which permissions, is what the map holds. */
  lemma {:induction false} RunIsMap(log: seq<Record>, m: map<seq<byte>, Record>, ops: seq<Op>)
    requires Represents(log, m) && AddsNew(m, ops)
    ensures Represents(AppliedAll(log, ops), MappedAll(m, ops))
    decreases |ops|
  {
    hide Represents, Applied, Mapped;
    if ops != [] {
      StepIsMap(log, m, ops[0]);
      RunIsMap(Applied(log, ops[0]), Mapped(m, ops[0]), ops[1..]);
    }
  }

  // How many writes are left

  lemma {:induction false} BlanksConcat(a: seq<Slot>, b: seq<Slot>)
    ensures Blanks(a + b) == Blanks(a) + Blanks(b)
    decreases |a|
  {
    if a == [] {
      assert a + b == b;
    } else {
      assert (a + b)[1..] == a[1..] + b && (a + b)[0] == a[0];
      BlanksConcat(a[1..], b);
    }
  }

  /** A slot changed in place. */
  lemma BlanksChange(slots: seq<Slot>, i: nat, s: Slot)
    requires i < |slots|
    ensures Blanks(slots[i := s]) + (if slots[i].Blank? then 1 else 0) == Blanks(slots) + (if s.Blank? then 1 else 0)
  {
    var t := slots[i := s];
    assert slots == slots[..i] + ([slots[i]] + slots[i + 1..]) && t == slots[..i] + ([s] + slots[i + 1..]);
    BlanksConcat(slots[..i], [slots[i]] + slots[i + 1..]);
    BlanksConcat(slots[..i], [s] + slots[i + 1..]);
    assert ([slots[i]] + slots[i + 1..])[1..] == slots[i + 1..] && ([s] + slots[i + 1..])[1..] == slots[i + 1..];
  }

  lemma {:induction false} NoBlanks(slots: seq<Slot>)
    ensures Blanks(slots) == 0 <==> forall i :: 0 <= i < |slots| ==> !slots[i].Blank?
    ensures Blanks(slots) == |slots| <==> forall i :: 0 <= i < |slots| ==> slots[i].Blank?
    ensures Blanks(slots) <= |slots|
    decreases |slots|
  {
    if slots != [] {
      NoBlanks(slots[1..]);
      assert forall i :: 0 < i < |slots| ==> slots[i] == slots[1..][i - 1];
      assert forall i :: 0 <= i < |slots| - 1 ==> slots[1..][i] == slots[i + 1];
    }
  }

  // What the store makes of its slots

  /** The first blank slot, or the end. */
  function FirstBlank(slots: seq<Slot>): (i: nat)
    ensures i <= |slots| && (i < |slots| ==> slots[i].Blank?) && forall j :: 0 <= j < i ==> !slots[j].Blank?
  {
    if slots == [] || slots[0].Blank? then 0
    else
      assert forall j :: 1 <= j < |slots| ==> slots[j] == slots[1..][j - 1];
      1 + FirstBlank(slots[1..])
  }

  /** The first record of a device, or the end. */
  function FirstOf(slots: seq<Slot>, id: seq<byte>): (i: nat)
    ensures i <= |slots| && (i < |slots| ==> slots[i].Used? && slots[i].record.id == id)
    ensures forall j :: 0 <= j < i && slots[j].Used? ==> slots[j].record.id != id
  {
    if slots == [] || (slots[0].Used? && slots[0].record.id == id) then 0
    else
      assert forall j :: 1 <= j < |slots| ==> slots[j] == slots[1..][j - 1];
      1 + FirstOf(slots[1..], id)
  }

  predicate AllUsed(slots: seq<Slot>) { forall i :: 0 <= i < |slots| ==> slots[i].Used? }

  function Wiped(n: nat): (slots: seq<Slot>)
    ensures |slots| == n && forall i :: 0 <= i < n ==> slots[i].Blank?
  {
    seq(n, _ => Blank)
  }

  /** There is no blank slot, and the store is not full: what is written next is written on
      an erased sector. */
  predicate Wipes(slots: seq<Slot>) { FirstBlank(slots) == |slots| && !AllUsed(slots) }

  /** The slots once a blank one has been looked for. */
  function Searched(slots: seq<Slot>): (s: seq<Slot>)
    ensures |s| == |slots|
  {
    if Wipes(slots) then Wiped(|slots|) else slots
  }

  datatype Written = Written(slots: seq<Slot>, r: int)

  function SlotsAdded(slots: seq<Slot>, r: Record): (w: Written)
    ensures |w.slots| == |slots|
  {
    var s := Searched(slots);
    var next := FirstBlank(s);
    if next == |s| then Written(slots, -2) else Written(s[next := Used(r)], 0)
  }

  /** The place of the old record is the one it had before the search. */
  function SlotsUpdated(slots: seq<Slot>, id: seq<byte>, permissions: byte): (w: Written)
    ensures |w.slots| == |slots|
  {
    var at, s := FirstOf(slots, id), Searched(slots);
    var next := FirstBlank(s);
    if at == |slots| then Written(slots, -1)
    else if next == |s| then Written(slots, -2)
    else Written(s[next := Used(slots[at].record.(permissions := permissions))][at := Dead], 0)
  }

  function SlotsRemoved(slots: seq<Slot>, id: seq<byte>): (s: seq<Slot>)
    ensures |s| == |slots|
  {
    var at := FirstOf(slots, id);
    if at == |slots| then slots else slots[at := Dead]
  }

  lemma {:induction false} LogLength(slots: seq<Slot>)
    ensures |LogOf(slots)| <= |slots| && (|LogOf(slots)| == |slots| <==> AllUsed(slots))
    decreases |slots|
  {
    if slots != [] {
      LogLength(slots[1..]);
      assert forall j :: 1 <= j < |slots| ==> slots[j] == slots[1..][j - 1];
      if AllUsed(slots[1..]) && slots[0].Used? {
        forall i | 0 <= i < |slots| ensures slots[i].Used? { if i > 0 { assert slots[i] == slots[1..][i - 1]; } }
      }
      if AllUsed(slots) {
        forall i | 0 <= i < |slots[1..]| ensures slots[1..][i].Used? { assert slots[1..][i] == slots[i + 1]; }
      }
    }
  }

  lemma LogOne(slots: seq<Slot>, i: nat, r: Record)
    requires i < |slots| && slots[i] == Used(r) && forall j :: 0 <= j < |slots| && j != i ==> !slots[j].Used?
    ensures LogOf(slots) == [r]
  {
    LogSplit(slots, i, slots[i]);
    assert slots[i := slots[i]] == slots;
    LogBlank(slots[..i]);
    LogBlank(slots[i + 1..]);
  }

  /** Adding. A full store answers -2 and stays. Otherwise the record is stored, and the log
      grows by it exactly if a blank slot was left or there was nothing to lose: else the
      record is all that is stored. */
  lemma AddActs(slots: seq<Slot>, r: Record)
    requires Ordered(slots) && slots != []
    ensures var w := SlotsAdded(slots, r); var log, now := LogOf(slots), LogOf(w.slots);
      && Ordered(w.slots) && (w.r == -2 <==> AllUsed(slots)) && (w.r == -2 || w.r == 0) && (w.r == -2 ==> w.slots == slots)
      && (w.r == 0 && FirstBlank(slots) < |slots| ==> now == log + [r])
      && (w.r == 0 && FirstBlank(slots) == |slots| ==> now == [r])
      && (w.r == 0 ==> (now == log + [r] <==> FirstBlank(slots) < |slots| || log == []))
  {
    var w := SlotsAdded(slots, r);
    if FirstBlank(slots) < |slots| {
      assert slots[FirstBlank(slots)].Blank?;
      Appends(slots, FirstBlank(slots), r);
    } else if Wipes(slots) {
      assert w.slots == Wiped(|slots|)[0 := Used(r)];
      LogOne(w.slots, 0, r);
      assert [] + [r] == [r];
      if LogOf(slots) != [] { assert |LogOf(slots) + [r]| > 1; }
    }
  }

  lemma {:induction false} WithoutLength(log: seq<Record>, id: seq<byte>)
    requires Find(log, id).Some?
    ensures |Without(log, id)| == |log| - 1
    decreases |log|
  {
    if log[0].id != id { WithoutLength(log[1..], id); }
  }

  lemma Finds(slots: seq<Slot>, id: seq<byte>)
    requires Ordered(slots)
    ensures var at := FirstOf(slots, id);
      Find(LogOf(slots), id) == if at < |slots| then Some(slots[at].record) else None
  {
    var at := FirstOf(slots, id);
    if at < |slots| {
      Drops(slots, at, id);
    } else {
      NoneBefore(slots, id);
      NotFound(LogOf(slots), id);
    }
  }

  /** Updating. An unknown device is answered -1, a full store -2, and nothing changes.
      Otherwise the log is that of an update exactly if a blank slot was left, or the device
      is the only one and its record not the first: else the changed record is all that is
      stored, or, when the record was in the first slot, where the changed one is written
      and then cleared, nothing. */
  lemma UpdateActs(slots: seq<Slot>, id: seq<byte>, permissions: byte)
    requires Ordered(slots) && slots != []
    ensures var w := SlotsUpdated(slots, id, permissions); var log, now := LogOf(slots), LogOf(w.slots);
      && Ordered(w.slots)
      && w.r == (if Find(log, id).None? then -1 else if AllUsed(slots) then -2 else 0) && (w.r != 0 ==> w.slots == slots)
      && (w.r == 0 ==>
            && (FirstBlank(slots) < |slots| ==> now == Updated(log, id, permissions))
            && (FirstBlank(slots) == |slots| ==>
                  now == if FirstOf(slots, id) == 0 then [] else [Find(log, id).value.(permissions := permissions)])
            && (now == Updated(log, id, permissions) <==>
                  FirstBlank(slots) < |slots| || (|log| == 1 && FirstOf(slots, id) != 0)))
  {
    var w, at, log := SlotsUpdated(slots, id, permissions), FirstOf(slots, id), LogOf(slots);
    Finds(slots, id);
    if at < |slots| {
      var copy := slots[at].record.(permissions := permissions);
      var next := FirstBlank(slots);
      WithoutLength(log, id);
      if next < |slots| {
        UpdateBlank(slots, id, permissions);
      } else if Wipes(slots) {
        assert w.slots == Wiped(|slots|)[0 := Used(copy)][at := Dead];
        if at == 0 { LogBlank(w.slots); } else { LogOne(w.slots, 0, copy); }
        if |log| == 1 { assert Without(log, id) == []; }
      }
    }
  }

  lemma UpdateBlank(slots: seq<Slot>, id: seq<byte>, permissions: byte)
    requires Ordered(slots) && FirstBlank(slots) < |slots| && FirstOf(slots, id) < |slots|
    ensures var s := SlotsUpdated(slots, id, permissions).slots;
      Ordered(s) && LogOf(s) == Updated(LogOf(slots), id, permissions)
  {
    var at, next := FirstOf(slots, id), FirstBlank(slots);
    var copy := slots[at].record.(permissions := permissions);
    Finds(slots, id);
    Appends(slots, next, copy);
    assert at < next;
    var s := slots[next := Used(copy)];
    Drops(s, at, id);
    WithoutFront(LogOf(slots), copy, id);
  }

  /** Removing takes the first record of the device out, wherever it stands. */
  lemma RemoveActs(slots: seq<Slot>, id: seq<byte>)
    requires Ordered(slots)
    ensures Ordered(SlotsRemoved(slots, id)) && LogOf(SlotsRemoved(slots, id)) == Without(LogOf(slots), id)
  {
    Finds(slots, id);
    NotFound(LogOf(slots), id);
    if FirstOf(slots, id) < |slots| { Drops(slots, FirstOf(slots, id), id); }
  }

  /** Taking out the first record of a device that is there does not touch the end. */
  lemma {:induction false} WithoutFront(log: seq<Record>, last: Record, id: seq<byte>)
    requires Find(log, id).Some?
    ensures Without(log + [last], id) == Without(log, id) + [last]
    decreases |log|
  {
    assert (log + [last])[1..] == log[1..] + [last];
    if log[0].id != id { WithoutFront(log[1..], last, id); }
  }

  // Runs on the slots

  function SlotsApplied(slots: seq<Slot>, op: Op): (s: seq<Slot>)
    ensures |s| == |slots|
  {
    match op
    case Adds(r) => SlotsAdded(slots, r).slots
    case Updates(id, permissions) => SlotsUpdated(slots, id, permissions).slots
    case Removes(id) => SlotsRemoved(slots, id)
  }

  function SlotsAll(slots: seq<Slot>, ops: seq<Op>): (s: seq<Slot>)
    ensures |s| == |slots|
    decreases |ops|
  {
    if ops == [] then slots else SlotsAll(SlotsApplied(slots, ops[0]), ops[1..])
  }

  /** How many slots a run may use up. */
  function WritesIn(ops: seq<Op>): nat {
    if ops == [] then 0 else (if ops[0].Removes? then 0 else 1) + WritesIn(ops[1..])
  }

  lemma ApplyActs(slots: seq<Slot>, op: Op)
    requires Ordered(slots) && slots != [] && (!op.Removes? ==> Blanks(slots) > 0)
    ensures var s := SlotsApplied(slots, op);
      && Ordered(s) && LogOf(s) == Applied(LogOf(slots), op)
      && Blanks(s) >= Blanks(slots) - (if op.Removes? then 0 else 1)
  {
    hide LogOf, Updated, Without;
    NoBlanks(slots);
    match op
    case Adds(r) =>
      AddActs(slots, r);
      BlanksChange(slots, FirstBlank(slots), Used(r));
    case Updates(id, permissions) =>
      UpdateActs(slots, id, permissions);
      UpdateSpends(slots, id, permissions);
    case Removes(id) =>
      RemoveActs(slots, id);
      if FirstOf(slots, id) < |slots| { BlanksChange(slots, FirstOf(slots, id), Dead); }
  }

  lemma UpdateSpends(slots: seq<Slot>, id: seq<byte>, permissions: byte)
    requires Ordered(slots) && FirstBlank(slots) < |slots|
    ensures var w := SlotsUpdated(slots, id, permissions);
      && Blanks(w.slots) >= Blanks(slots) - 1
      && (w.r == -1 ==> Updated(LogOf(slots), id, permissions) == LogOf(slots))
  {
    hide LogOf;
    Finds(slots, id);
    var at, next := FirstOf(slots, id), FirstBlank(slots);
    if at < |slots| {
      var copy := Used(slots[at].record.(permissions := permissions));
      BlanksChange(slots, next, copy);
      BlanksChange(slots[next := copy], at, Dead);
    }
  }

  /** While blank slots are left for all that a run writes, the slots are as good as the log. */
  lemma {:induction false} RunActs(slots: seq<Slot>, ops: seq<Op>)
    requires Ordered(slots) && slots != [] && WritesIn(ops) <= Blanks(slots)
    ensures Ordered(SlotsAll(slots, ops)) && LogOf(SlotsAll(slots, ops)) == AppliedAll(LogOf(slots), ops)
    decreases |ops|
  {
    hide LogOf, Applied, SlotsApplied, Blanks, Ordered;
    if ops != [] {
      ApplyActs(slots, ops[0]);
      RunActs(SlotsApplied(slots, ops[0]), ops[1..]);
    }
  }

  /** Every run keeps the slots in order, however much it writes. */
  lemma {:induction false} RunOrdered(slots: seq<Slot>, ops: seq<Op>)
    requires Ordered(slots) && slots != []
    ensures Ordered(SlotsAll(slots, ops))
    decreases |ops|
  {
    hide LogOf, Ordered;
    if ops != [] {
      match ops[0] {
        case Adds(r) => AddActs(slots, r);
        case Updates(id, permissions) => UpdateActs(slots, id, permissions);
        case Removes(id) => RemoveActs(slots, id);
      }
      RunOrdered(SlotsApplied(slots, ops[0]), ops[1..]);
    }
  }
}
