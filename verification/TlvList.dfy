/** The list object of tlv.c and the routines that write and read it. */
module TlvList {
  import opened Bytes
  import opened Options
  import opened Tlv8

  lemma {:induction false} FormattedConcat(a: seq<Tlv>, b: seq<Tlv>)
    ensures Formatted(a + b) == Formatted(a) + Formatted(b)
    decreases |a|
  {
    hide Fragments;
    if a == [] {
      assert a + b == b;
    } else {
      assert (a + b)[1..] == a[1..] + b;
      FormattedConcat(a[1..], b);
    }
  }

  /** What is left to write after k values. */
  lemma FormattedNext(list: seq<Tlv>, k: nat)
    requires k < |list|
    ensures Formatted(list[..k + 1]) == Formatted(list[..k]) + Fragments(list[k].kind, list[k].value)
    ensures |Formatted(list[..k])| + |Fragments(list[k].kind, list[k].value)| <= |Formatted(list)|
  {
    hide Fragments;
    assert list[..k + 1] == list[..k] + [list[k]];
    FormattedConcat(list[..k], [list[k]]);
    assert [list[k]][1..] == [];
    assert Formatted([list[k]]) == Fragments(list[k].kind, list[k].value) + Formatted([]);
    assert list == list[..k + 1] + list[k + 1..];
    FormattedConcat(list[..k + 1], list[k + 1..]);
  }

  lemma {:induction false} RequiredSum(list: seq<Tlv>, k: nat)
    requires k < |list|
    ensures RequiredSize(list[..k + 1]) == RequiredSize(list[..k]) + SizeOf(list[k].value)
    decreases k
  {
    hide SizeOf;
    if k > 0 {
      assert list[..k + 1][1..] == list[1..][..k] && list[..k][1..] == list[1..][..k - 1];
      RequiredSum(list[1..], k - 1);
    } else {
      assert list[..1][1..] == [];
    }
  }

  /** The k-th value is the first of its type. */
  predicate IsFirst(values: seq<Tlv>, kind: byte, k: int) {
    0 <= k < |values| && values[k].kind == kind && forall j :: 0 <= j < k ==> values[j].kind != kind
  }

  class TlvValues {
    /** The linked list from its head. */
    var values: seq<Tlv>

    constructor ()
      ensures values == []
    {
      values := [];
    }

    /** tlv_add_value_: walks to the last node and links a new one to it. */
    method Add(kind: byte, value: seq<byte>)
      modifies this
      ensures values == old(values) + [Tlv(kind, value)]
    {
      values := values + [Tlv(kind, value)];
    }

    method AddInteger(kind: byte, size: nat, value: int)
      requires size <= 8
      modifies this
      ensures values == old(values) + [Tlv(kind, LittleEndian(size, value))]
    {
      var data := LowBytes(size, value);
      Add(kind, data);
    }

    static method LowBytes(size: nat, value: int) returns (bytes: seq<byte>)
      requires size <= 8
      ensures bytes == LittleEndian(size, value)
    {
      hide LittleEndian;
      var data := new byte[8](_ => 0);
      var i, rest := 0, value;
      assert data[..0] == [];
      while i < size
        invariant i <= size
        invariant LittleEndian(size, value) == data[..i] + LittleEndian(size - i, rest)
      {
        LittleNext(size - i, rest);
        data[i] := rest % 256;
        assert data[..i + 1] == data[..i] + [rest % 256];
        ghost var more := LittleEndian(size - i - 1, rest / 256);
        assert data[..i] + ([rest % 256] + more) == data[..i + 1] + more;
        rest := rest / 256;
        i := i + 1;
      }
      bytes := data[..size];
      assert LittleEndian(0, rest) == [];
      assert bytes + [] == bytes;
    }

    /** The first value of a type. */
    method Get(kind: byte) returns (r: Option<Tlv>)
      ensures r.Some? ==> exists k :: IsFirst(values, kind, k) && r.value == values[k]
      ensures r.None? ==> forall k :: 0 <= k < |values| ==> values[k].kind != kind
    {
      var k := 0;
      while k < |values|
        invariant k <= |values| && forall j :: 0 <= j < k ==> values[j].kind != kind
      {
        if values[k].kind == kind {
          assert IsFirst(values, kind, k);
          return Some(values[k]);
        }
        k := k + 1;
      }
      r := None;
    }

    method GetInteger(kind: byte, def: int) returns (x: int)
      ensures (forall k :: 0 <= k < |values| ==> values[k].kind != kind) ==> x == def
      ensures forall k :: IsFirst(values, kind, k) ==> x == FromLittleEndian(values[k].value)
    {
      var t := Get(kind);
      if t.None? { return def; }
      x := 0;
      var b := t.value.value;
      var i := |b|;
      assert b[|b|..] == [];
      while i > 0
        invariant 0 <= i <= |b| && x == FromLittleEndian(b[i..])
      {
        i := i - 1;
        x := Int32(x * 256 + b[i]);
        assert b[i..][0] == b[i] && b[i..][1..] == b[i + 1..];
      }
      assert b[0..] == b;
    }

    /** tlv_format: -1 and the size needed when the buffer is too small. An empty value
        takes two bytes more than are announced, so the buffer must have room for them. */
    method Format(buffer: array<byte>, size: nat) returns (r: int, required: nat)
      requires RequiredSize(values) <= size ==> |Formatted(values)| <= buffer.Length
      modifies buffer
      ensures required == RequiredSize(values)
      ensures r == if size < required then -1 else 0
      ensures r == 0 ==> buffer[..|Formatted(values)|] == Formatted(values)
      ensures r != 0 ==> buffer[..] == old(buffer[..])
    {
      hide Fragments, Formatted, SizeOf;
      required := Required();
      if size < required { return -1, required; }
      r := 0;
      var at, k := 0, 0;
      assert values[..0] == [] && Formatted([]) == [] by { NothingFormatted(); }
      while k < |values|
        invariant k <= |values| && at == |Formatted(values[..k])| <= buffer.Length
        invariant buffer[..at] == Formatted(values[..k])
      {
        FormattedNext(values, k);
        at := WriteValue(values[k], buffer, at);
        k := k + 1;
      }
      assert values[..k] == values;
    }

    method Required() returns (required: nat)
      ensures required == RequiredSize(values)
    {
      required := 0;
      var k := 0;
      while k < |values|
        invariant k <= |values| && required == RequiredSize(values[..k])
      {
        RequiredSum(values, k);
        required := required + |values[k].value| + 2 * ((|values[k].value| + 254) / 255);
        k := k + 1;
      }
      assert values[..k] == values;
    }

    /** One value in fragments of at most 255 bytes. */
    method WriteValue(t: Tlv, buffer: array<byte>, from: nat) returns (at: nat)
      requires from + |Fragments(t.kind, t.value)| <= buffer.Length
      modifies buffer
      ensures at == from + |Fragments(t.kind, t.value)|
      ensures buffer[..at] == old(buffer[..from]) + Fragments(t.kind, t.value)
    {
      hide Fragments;
      at := from;
      if t.value == [] {
        EmptyFragment(t.kind);
        Copy(buffer, at, [t.kind, 0]);
        at := at + 2;
        return;
      }
      var done: nat, remaining: nat := 0, |t.value|;
      ghost var written: seq<byte> := [];
      assert t.value[0..] == t.value;
      while remaining > 0
        invariant done + remaining == |t.value| && at == from + |written| <= from + |Fragments(t.kind, t.value)|
        invariant Fragments(t.kind, t.value) == written + FragmentsLeft(t.kind, t.value[done..])
        invariant buffer[..at] == old(buffer[..from]) + written
      {
        var chunk := if remaining > 255 then 255 else remaining;
        ghost var piece := [t.kind, chunk] + t.value[done..done + chunk];
        OneFragment(t.kind, t.value, done, chunk);
        Regroup(written, piece, FragmentsLeft(t.kind, t.value[done + chunk..]));
        Copy(buffer, at, [t.kind, chunk] + t.value[done..done + chunk]);
        written := written + piece;
        remaining := remaining - chunk;
        at := at + chunk + 2;
        done := done + chunk;
      }
    }

    /** tlv_parse */
    method Parse(buffer: seq<byte>)
      requires Framed(buffer)
      modifies this
      ensures values == old(values) + ReadAll(buffer)
    {
      hide First, Framed;
      var i := 0;
      assert buffer[0..] == buffer;
      assert ReadAll([]) == [] by { NothingRead(); }
      while i < |buffer|
        invariant i <= |buffer| && Framed(buffer[i..])
        invariant old(values) + ReadAll(buffer) == values + ReadAll(buffer[i..])
      {
        ghost var here := buffer[i..];
        var kind := buffer[i];
        var size := ScanRun(buffer, i);
        var data, next := CopyRun(buffer, i, size);
        Add(kind, data);
        assert ReadAll(here) == [Tlv(kind, data)] + ReadAll(buffer[next..]);
        i := next;
      }
      assert buffer[i..] == [];
    }

    /** The total size of the fragments that belong together. */
    method ScanRun(buffer: seq<byte>, i: nat) returns (size: nat)
      requires i < |buffer| && Framed(buffer[i..])
      ensures size == |First(buffer[i..]).0|
    {
      var kind := buffer[i];
      size := 0;
      var j := i;
      while j < |buffer| && buffer[j] == kind && j + 1 < |buffer| && buffer[j + 1] == 255
        invariant i <= j <= |buffer| && Framed(buffer[j..])
        invariant |First(buffer[i..]).0| == size + (if j < |buffer| && buffer[j] == kind then |First(buffer[j..]).0| else 0)
      {
        assert buffer[j..][257..] == buffer[j + 257..];
        size := size + 255;
        j := j + 257;
      }
      if j < |buffer| && buffer[j] == kind { size := size + buffer[j + 1]; }
    }

    /** The fragments' bytes, one after the other. */
    method CopyRun(buffer: seq<byte>, from: nat, size: nat) returns (data: seq<byte>, i: nat)
      requires from < |buffer| && Framed(buffer[from..]) && size == |First(buffer[from..]).0|
      ensures i <= |buffer| && from < i && data == First(buffer[from..]).0 && buffer[i..] == First(buffer[from..]).1
    {
      hide First, Framed;
      var memory := new byte[size](_ => 0);
      var p: nat, remaining: nat := 0, size;
      i := from;
      ghost var all, here := First(buffer[from..]), buffer[from..];
      ghost var done: seq<byte> := [];
      assert memory[..0] == [] && done + all.0 == all.0;
      while remaining > 0
        invariant p + remaining == size && from <= i <= |buffer| && (p > 0 ==> from < i)
        invariant here == buffer[i..] && memory[..p] == done
        invariant remaining > 0 ==> here != [] && Framed(here) && remaining == |First(here).0|
        invariant remaining > 0 ==> all.0 == done + First(here).0 && all.1 == First(here).1
        invariant remaining == 0 ==> all == (done, here)
      {
        NextFragment(here);
        TakeFragment(buffer, i);
        var chunk := buffer[i + 1];
        var piece := buffer[i + 2..i + 2 + chunk];
        here := here[2 + chunk..];
        if remaining > chunk { Regroup(done, piece, First(here).0); }
        Copy(memory, p, piece);
        done := done + piece;
        p := p + chunk;
        i := i + chunk + 2;
        remaining := remaining - chunk;
      }
      data := memory[..p];
    }
  }

  lemma LittleNext(n: nat, x: int)
    requires n > 0
    ensures LittleEndian(n, x) == [x % 256] + LittleEndian(n - 1, x / 256)
  {
  }

  lemma NothingFormatted()
    ensures Formatted([]) == []
  {
  }

  lemma NothingRead()
    ensures Framed([]) && ReadAll([]) == []
  {
  }

  lemma EmptyFragment(kind: byte)
    ensures Fragments(kind, []) == [kind, 0]
  {
  }

  function FragmentsLeft(kind: byte, v: seq<byte>): seq<byte> { if v == [] then [] else Fragments(kind, v) }

  /** The next fragment of a value of which `done` bytes have been written. */
  lemma OneFragment(kind: byte, value: seq<byte>, done: nat, n: nat)
    requires done < |value| && n == if |value| - done > 255 then 255 else |value| - done
    ensures FragmentsLeft(kind, value[done..])
         == [kind, n] + value[done..done + n] + FragmentsLeft(kind, value[done + n..])
  {
    var v := value[done..];
    assert v[..n] == value[done..done + n] && v[n..] == value[done + n..];
    if |v| > 255 {
      assert Fragments(kind, v) == [kind, 255] + v[..255] + Fragments(kind, v[255..]);
    } else {
      assert v[..n] == v;
      assert Fragments(kind, v) == [kind, |v|] + v;
    }
  }

  lemma TakeFragment(buffer: seq<byte>, i: nat)
    requires i + 2 <= |buffer| && i + 2 + buffer[i + 1] <= |buffer|
    ensures var here, chunk := buffer[i..], buffer[i + 1];
      here[1] == chunk && here[2..2 + chunk] == buffer[i + 2..i + 2 + chunk] && here[2 + chunk..] == buffer[i + 2 + chunk..]
  {
  }

  lemma Regroup(a: seq<byte>, b: seq<byte>, c: seq<byte>)
    ensures a + (b + c) == (a + b) + c
  {
  }

  /** The first fragment of a run, and whether it is the last. */
  lemma NextFragment(b: seq<byte>)
    requires b != [] && Framed(b)
    ensures 2 <= |b| && 0 < b[1] && 2 + b[1] <= |b| && b[1] <= |First(b).0|
    ensures var rest := b[2 + b[1]..];
      if |First(b).0| == b[1] then First(b) == (b[2..2 + b[1]], rest)
      else rest != [] && Framed(rest) && First(b) == (b[2..2 + b[1]] + First(rest).0, First(rest).1)
  {
  }
}
