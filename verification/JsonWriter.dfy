/** The streaming JSON writer: which calls it accepts, what it writes for each, and how
    the text leaves through a buffer of fixed size. */
module JsonWriter {
  import opened Bytes
  import opened JsonTree

  const JSON_MAX_DEPTH: nat := 30

  datatype State = Start | End | InObject | Key | Value | InArray | ArrayItem | Error

  datatype Nesting = ObjectLevel | ArrayLevel

  /** One call of a json_* function. */
  datatype Call =
    | ObjectStart | ObjectEnd | ArrayStart | ArrayEnd
    | PutNumber(digits: seq<byte>) | PutString(text: seq<byte>) | PutBool(value: bool) | PutNull

  /** Where the writer is in its document. */
  datatype Place = Place(state: State, nesting: seq<Nesting>)

  const AtStart := Place(Start, [])

  /** The state after a value inside these containers. */
  function Outer(nesting: seq<Nesting>): State {
    if nesting == [] then End else if nesting[|nesting| - 1].ObjectLevel? then Value else ArrayItem
  }

  predicate TakesValue(s: State) { s.Start? || s.Key? || s.InArray? || s.ArrayItem? }

  /** The place a call leads to. */
  function Next(p: Place, c: Call): Place {
    var depth := |p.nesting|;
    var failed := p.(state := Error);
    match c
    case ObjectStart => if TakesValue(p.state) then Place(InObject, p.nesting + [ObjectLevel]) else failed
    case ArrayStart => if TakesValue(p.state) then Place(InArray, p.nesting + [ArrayLevel]) else failed
    case ObjectEnd =>
      if (p.state.InObject? || p.state.Value?) && depth > 0 then Place(Outer(p.nesting[..depth - 1]), p.nesting[..depth - 1])
      else failed
    case ArrayEnd =>
      if (p.state.InArray? || p.state.ArrayItem?) && depth > 0 then Place(Outer(p.nesting[..depth - 1]), p.nesting[..depth - 1])
      else failed
    case PutString(_) =>
      if p.state.InObject? || p.state.Value? then p.(state := Key)
      else if TakesValue(p.state) then p.(state := AfterScalar(p.state)) else failed
    case _ => if TakesValue(p.state) then p.(state := AfterScalar(p.state)) else failed
  }

  function AfterScalar(s: State): State {
    if s.Start? then End else if s.Key? then Value else ArrayItem
  }

  /** The pieces of text a call writes, in order. */
  function Pieces(s: State, c: Call): seq<seq<byte>> {
    if c.PutString? && (s.InObject? || s.Value?) then
      Comma(s.Value?) + [Quoted(c.text), [COLON]]
    else if (c.ObjectEnd? && (s.InObject? || s.Value?)) || (c.ArrayEnd? && (s.InArray? || s.ArrayItem?)) then
      [Word(c)]
    else if !c.ObjectEnd? && !c.ArrayEnd? && TakesValue(s) then
      Comma(s.ArrayItem?) + [Word(c)]
    else []
  }

  function Comma(wanted: bool): seq<seq<byte>> { if wanted then [[COMMA]] else [] }

  function Word(c: Call): seq<byte> {
    match c
    case ObjectStart => [OPEN_OBJECT]
    case ObjectEnd => [CLOSE_OBJECT]
    case ArrayStart => [OPEN_ARRAY]
    case ArrayEnd => [CLOSE_ARRAY]
    case PutNumber(digits) => digits
    case PutString(s) => Quoted(s)
    case PutBool(b) => BoolText(b)
    case PutNull => NULL_TEXT
  }

  // The buffer

  /** The blocks handed to on_flush so far, and what waits in the buffer. */
  datatype Out = Out(blocks: seq<seq<byte>>, pending: seq<byte>)

  function Flushed(o: Out): Out {
    if o.pending == [] then o else Out(o.blocks + [o.pending], [])
  }

  /** json_write: one byte of the buffer always belongs to vsnprintf's terminator. */
  function Put(size: nat, o: Out, piece: seq<byte>): Out
    requires size > 0
  {
    if |piece| + |o.pending| <= size - 1 then o.(pending := o.pending + piece)
    else if |piece| > size - 1 then Flushed(o)
    else Out(Flushed(o).blocks, piece)
  }

  function PutAll(size: nat, o: Out, pieces: seq<seq<byte>>): Out
    requires size > 0
    decreases |pieces|
  {
    if pieces == [] then o else PutAll(size, Put(size, o, pieces[0]), pieces[1..])
  }

  /** A stream: its place in the document and its output. */
  datatype Stream = Stream(place: Place, out: Out)

  function Do(size: nat, s: Stream, c: Call): Stream
    requires size > 0
  {
    Stream(Next(s.place, c), PutAll(size, s.out, Pieces(s.place.state, c)))
  }

  function DoAll(size: nat, s: Stream, calls: seq<Call>): Stream
    requires size > 0
    decreases |calls|
  {
    if calls == [] then s else DoAll(size, Do(size, s, calls[0]), calls[1..])
  }

  /** What holds of the place before and after every call. */
  predicate PlaceInv(p: Place) {
    match p.state
    case Start => p.nesting == []
    case End => p.nesting == []
    case InArray => p.nesting != [] && p.nesting[|p.nesting| - 1].ArrayLevel?
    case ArrayItem => p.nesting != [] && p.nesting[|p.nesting| - 1].ArrayLevel?
    case Error => true
    case _ => p.nesting != [] && p.nesting[|p.nesting| - 1].ObjectLevel?
  }

  lemma NextKeepsInv(p: Place, c: Call)
    requires PlaceInv(p)
    ensures PlaceInv(Next(p, c))
  {
    if p.nesting != [] {
      var up := p.nesting[..|p.nesting| - 1];
      assert up != [] ==> up[|up| - 1] == p.nesting[|p.nesting| - 2];
    }
  }

  lemma PutOne(size: nat, o: Out, a: seq<byte>)
    requires size > 0
    ensures PutAll(size, o, [a]) == Put(size, o, a) && Comma(false) + [a] == [a]
  {
  }

  /** What the two closing calls do. */
  lemma EndDoes(size: nat, s: Stream, c: Call)
    requires size > 0 && PlaceInv(s.place) && (c.ObjectEnd? || c.ArrayEnd?)
    ensures PlaceInv(s.place.(state := Error))
    ensures var p := s.place; var n := |p.nesting|;
      if (if c.ObjectEnd? then p.state.InObject? || p.state.Value? else p.state.InArray? || p.state.ArrayItem?) then
        && n > 0 && Do(size, s, c).out == Put(size, s.out, Word(c))
        && Do(size, s, c).place == Place(Outer(p.nesting[..n - 1]), p.nesting[..n - 1])
      else Do(size, s, c) == s.(place := p.(state := Error))
  {
    PutOne(size, s.out, Word(c));
  }

  lemma PutTwo(size: nat, o: Out, a: seq<byte>, b: seq<byte>)
    requires size > 0
    ensures PutAll(size, o, [a, b]) == Put(size, Put(size, o, a), b)
    ensures [a] + [b] == [a, b] && Comma(true) == [[COMMA]] && Comma(false) + [a, b] == [a, b]
  {
    assert [a, b][1..] == [b] && [b][1..] == [];
    PutOne(size, Put(size, o, a), b);
  }

  lemma PutThree(size: nat, o: Out, a: seq<byte>, b: seq<byte>, c: seq<byte>)
    requires size > 0
    ensures PutAll(size, o, [a, b, c]) == Put(size, Put(size, Put(size, o, a), b), c)
    ensures [a] + [b, c] == [a, b, c]
  {
    assert [a, b, c][1..] == [b, c];
    PutTwo(size, Put(size, o, a), b, c);
  }

  // Decimal numbers

  function Power10(n: nat): (p: nat)
    ensures p > 0
  {
    if n == 0 then 1 else 10 * Power10(n - 1)
  }

  /** %u */
  function Decimal(x: nat): (d: seq<byte>)
    ensures d != []
  {
    if x < 10 then [48 + x] else Decimal(x / 10) + [48 + x % 10]
  }

  lemma TwentyDigits(rest: nat, n: nat)
    requires rest != 0 && rest * Power10(n) < TWO_TO_64
    ensures n < 20
  {
    if n >= 20 {
      Scales(1, rest, Power10(n));
      PowerGrows(20, n);
      TwentyNoughts();
    }
  }

  lemma TwentyNoughts()
    ensures Power10(20) > TWO_TO_64
  {
    assert Power10(5) == 100000;
    assert Power10(10) == 100000 * Power10(5);
    assert Power10(15) == 100000 * Power10(10);
    assert Power10(20) == 100000 * Power10(15);
  }

  lemma {:induction false} PowerGrows(a: nat, b: nat)
    requires a <= b
    ensures Power10(a) <= Power10(b)
    decreases b
  {
    if a < b { PowerGrows(a, b - 1); }
  }

  lemma PowerStep(rest: nat, n: nat)
    ensures (rest / 10) * Power10(n + 1) <= rest * Power10(n)
  {
    assert rest / 10 * 10 <= rest;
    assert (rest / 10) * Power10(n + 1) == ((rest / 10) * 10) * Power10(n);
    Scales((rest / 10) * 10, rest, Power10(n));
  }

  lemma Scales(a: nat, b: nat, c: nat)
    requires a <= b
    ensures a * c <= b * c
  {
  }

  // The object

  class JsonStream {
    const buffer: array<byte>
    const nesting: array<Nesting>
    var pos: nat
    var state: State
    var nestingIdx: nat
    /** The blocks passed to on_flush, in order. */
    var blocks: seq<seq<byte>>

    ghost predicate Valid()
      reads this, nesting
    {
      && pos < buffer.Length && nesting.Length == JSON_MAX_DEPTH && nestingIdx <= JSON_MAX_DEPTH
      && PlaceInv(Place(state, nesting[..nestingIdx]))
    }

    ghost function View(): Stream
      reads this, buffer, nesting
      requires Valid()
    {
      Stream(Place(state, nesting[..nestingIdx]), Out(blocks, buffer[..pos]))
    }

    constructor (size: nat)
      requires size > 0
      ensures Valid() && fresh(buffer) && fresh(nesting) && buffer.Length == size
      ensures View() == Stream(AtStart, Out([], []))
    {
      buffer := new byte[size](_ => 0);
      nesting := new Nesting[JSON_MAX_DEPTH](_ => ObjectLevel);
      pos, state, nestingIdx, blocks := 0, Start, 0, [];
    }

    method Flush()
      requires Valid()
      modifies this`pos, this`blocks
      ensures Valid() && View() == old(View()).(out := Flushed(old(View().out)))
    {
      if pos == 0 { return; }
      blocks := blocks + [buffer[..pos]];
      pos := 0;
    }

    /** vsnprintf at pos: cut short to leave room for the terminator. */
    method Format(text: seq<byte>) returns (len: nat)
      requires Valid()
      modifies buffer
      ensures len == |text| && buffer[..pos] == old(buffer[..pos])
      ensures pos + len < buffer.Length ==> buffer[..pos + len] == old(buffer[..pos]) + text
    {
      len := |text|;
      var room := buffer.Length - pos - 1;
      var n := if len < room then len else room;
      var i := 0;
      while i < n
        invariant i <= n
        invariant buffer[..pos + i] == old(buffer[..pos]) + text[..i]
      {
        buffer[pos + i] := text[i];
        i := i + 1;
        assert buffer[..pos + i] == buffer[..pos + i - 1] + [text[i - 1]];
        assert text[..i] == text[..i - 1] + [text[i - 1]];
      }
      buffer[pos + n] := 0;
      assert buffer[..pos + n] == old(buffer[..pos]) + text[..n];
      assert buffer[..pos] == buffer[..pos + n][..pos] == old(buffer[..pos]);
    }

    method Write(text: seq<byte>)
      requires Valid()
      modifies this`pos, this`blocks, buffer
      ensures Valid() && View() == old(View()).(out := Put(buffer.Length, old(View().out), text))
    {
      var len := Format(text);
      if len + pos > buffer.Length - 1 {
        Flush();
        len := Format(text);
        if len <= buffer.Length - 1 { pos := pos + len; }
      } else {
        pos := pos + len;
      }
    }

    method Open(s: State, level: Nesting)
      requires pos < buffer.Length && nesting.Length == JSON_MAX_DEPTH && nestingIdx < JSON_MAX_DEPTH
      requires s == if level.ObjectLevel? then InObject else InArray
      modifies this`state, this`nestingIdx, nesting
      ensures Valid() && View().out == Out(blocks, buffer[..pos])
      ensures View().place == Place(s, old(nesting[..nestingIdx]) + [level])
    {
      state := s;
      nesting[nestingIdx] := level;
      nestingIdx := nestingIdx + 1;
    }

    method Close()
      requires pos < buffer.Length && nesting.Length == JSON_MAX_DEPTH && 0 < nestingIdx <= JSON_MAX_DEPTH
      modifies this`state, this`nestingIdx
      ensures Valid() && View().out == Out(blocks, buffer[..pos])
      ensures var up := old(nesting[..nestingIdx - 1]); View().place == Place(Outer(up), up)
    {
      nestingIdx := nestingIdx - 1;
      if nestingIdx == 0 {
        state := End;
      } else {
        match nesting[nestingIdx - 1] {
          case ObjectLevel => state := Value;
          case ArrayLevel => state := ArrayItem;
        }
      }
    }

    method BeginObject()
      requires Valid() && (TakesValue(state) ==> nestingIdx < JSON_MAX_DEPTH)
      modifies this`pos, this`blocks, this`state, this`nestingIdx, buffer, nesting
      ensures Valid() && View() == Do(buffer.Length, old(View()), ObjectStart)
    {
      NextKeepsInv(View().place, ObjectStart);
      ghost var s := View();
      if state.Error? { return; }
      if TakesValue(state) {
        if state.ArrayItem? { Write([COMMA]); }
        Write(Word(ObjectStart));
        PutTwo(buffer.Length, s.out, [COMMA], Word(ObjectStart));
        PutOne(buffer.Length, s.out, Word(ObjectStart));
        Open(InObject, ObjectLevel);
      } else {
        state := Error;
      }
    }

    method EndObject()
      requires Valid()
      modifies this`pos, this`blocks, this`state, this`nestingIdx, buffer
      ensures Valid() && View() == Do(buffer.Length, old(View()), ObjectEnd)
    {
      hide Do, Put, Outer, PlaceInv;
      ghost var s := View();
      EndDoes(buffer.Length, s, ObjectEnd);
      if state.Error? { return; }
      if state.InObject? || state.Value? {
        Write(Word(ObjectEnd));
        assert nesting[..nestingIdx - 1] == nesting[..nestingIdx][..nestingIdx - 1];
        Close();
      } else {
        state := Error;
      }
    }

    method BeginArray()
      requires Valid() && (TakesValue(state) ==> nestingIdx < JSON_MAX_DEPTH)
      modifies this`pos, this`blocks, this`state, this`nestingIdx, buffer, nesting
      ensures Valid() && View() == Do(buffer.Length, old(View()), ArrayStart)
    {
      NextKeepsInv(View().place, ArrayStart);
      ghost var s := View();
      if state.Error? { return; }
      if TakesValue(state) {
        if state.ArrayItem? { Write([COMMA]); }
        Write(Word(ArrayStart));
        PutTwo(buffer.Length, s.out, [COMMA], Word(ArrayStart));
        PutOne(buffer.Length, s.out, Word(ArrayStart));
        Open(InArray, ArrayLevel);
      } else {
        state := Error;
      }
    }

    method EndArray()
      requires Valid()
      modifies this`pos, this`blocks, this`state, this`nestingIdx, buffer
      ensures Valid() && View() == Do(buffer.Length, old(View()), ArrayEnd)
    {
      hide Do, Put, Outer, PlaceInv;
      ghost var s := View();
      EndDoes(buffer.Length, s, ArrayEnd);
      if state.Error? { return; }
      if state.InArray? || state.ArrayItem? {
        Write(Word(ArrayEnd));
        assert nesting[..nestingIdx - 1] == nesting[..nestingIdx][..nestingIdx - 1];
        Close();
      } else {
        state := Error;
      }
    }

    /** json_null, json_boolean and _json_number. */
    method Scalar(c: Call)
      requires Valid() && (c.PutNumber? || c.PutBool? || c.PutNull?)
      modifies this`pos, this`blocks, this`state, buffer
      ensures Valid() && View() == Do(buffer.Length, old(View()), c)
    {
      NextKeepsInv(View().place, c);
      ghost var s := View();
      PutTwo(buffer.Length, s.out, [COMMA], Word(c));
      PutOne(buffer.Length, s.out, Word(c));
      match state {
        case Error => return;
        case Start => Write(Word(c)); state := End;
        case ArrayItem => Write([COMMA]); Write(Word(c));
        case InArray => Write(Word(c)); state := ArrayItem;
        case Key => Write(Word(c)); state := Value;
        case _ => state := Error;
      }
    }

    method Str(text: seq<byte>)
      requires Valid()
      modifies this`pos, this`blocks, this`state, buffer
      ensures Valid() && View() == Do(buffer.Length, old(View()), PutString(text))
    {
      NextKeepsInv(View().place, PutString(text));
      ghost var o := View().out;
      PutThree(buffer.Length, o, [COMMA], Quoted(text), [COLON]);
      PutTwo(buffer.Length, o, Quoted(text), [COLON]);
      PutTwo(buffer.Length, o, [COMMA], Quoted(text));
      PutOne(buffer.Length, o, Quoted(text));
      match state {
        case Error => return;
        case Start => Write(Quoted(text)); state := End;
        case ArrayItem => Write([COMMA]); Write(Quoted(text));
        case InArray => Write(Quoted(text)); state := ArrayItem;
        case Value => Write([COMMA]); Write(Quoted(text)); Write([COLON]); state := Key;
        case InObject => Write(Quoted(text)); Write([COLON]); state := Key;
        case Key => Write(Quoted(text)); state := Value;
        case _ => state := Error;
      }
    }

    method Uint64(x: nat)
      requires Valid() && x < TWO_TO_64
      modifies this`pos, this`blocks, this`state, buffer
      ensures Valid() && View() == Do(buffer.Length, old(View()), PutNumber(Decimal(x)))
    {
      var text := Digits(x);
      Scalar(PutNumber(text));
    }
  }

  /** The digits of json_uint64, written backwards from the end of its 21-byte array. */
  method Digits(x: nat) returns (text: seq<byte>)
    requires x < TWO_TO_64
    ensures text == Decimal(x)
  {
    hide Decimal, Power10;
    var digits := new byte[21](_ => 0);
    var b: nat, rest: nat := 19, x / 10;
    digits[19] := 48 + x % 10;
    assert digits[19..20] == [48 + x % 10];
    FirstDigit(x);
    DecimalNext(x);
    while rest != 0
      invariant 0 <= b < 20 && rest * Power10(20 - b) <= x
      invariant Decimal(x) == (if rest == 0 then [] else Decimal(rest)) + digits[b..20]
      decreases rest
    {
      TwentyDigits(rest, 20 - b);
      DecimalNext(rest);
      b := b - 1;
      digits[b] := 48 + rest % 10;
      assert digits[b..20] == [digits[b]] + digits[b + 1..20];
      PowerStep(rest, 20 - b - 1);
      rest := rest / 10;
    }
    text := digits[b..20];
    assert [] + text == text;
  }

  lemma FirstDigit(x: nat)
    ensures (x / 10) * Power10(1) <= x
  {
    assert Power10(1) == 10;
  }

  lemma DecimalNext(x: nat)
    ensures Decimal(x) == (if x / 10 == 0 then [] else Decimal(x / 10)) + [48 + x % 10]
  {
  }
}
