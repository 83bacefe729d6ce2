/** nanopb: the encoder, which sizes a submessage before it writes it. */
module NanopbEncode {
  import opened Format
  import opened Coding
  import opened NanopbFormat

  /** Can the encoder write this? Byte strings and arrays must not exceed their room. */
  predicate EncodableValue(t: LType, v: Value)
    decreases t
  {
    match t
    case BytesOf(size) => v.Blob? && |v.b| <= size
    case StringOf(_) => v.Blob?
    case FixedBytes(_) => v.Blob?
    case SubMessage(fields) => v.Message? && Encodable(fields, v.slots)
    case _ => v.Int? && InRange(t, v.n)
  }

  predicate EncodableSlot(f: Field, s: Slot)
    decreases f
  {
    match f
    case Required(_, t) => s.Single? && EncodableValue(t, s.v)
    case Optional(_, t) => s.Maybe? && (s.o.Some? ==> EncodableValue(t, s.o.value))
    case Implicit(_, t) => s.Single? && (!IsDefaultValue(t, s.v) ==> EncodableValue(t, s.v))
    case Repeated(_, t, max) => s.Many? && |s.vs| <= max && forall i | 0 <= i < |s.vs| :: EncodableValue(t, s.vs[i])
    case OneOf(ms) =>
      && s.Choice?
      && (s.c.Some? ==> s.c.value.0 < MemberCount(ms) && EncodableValue(MemberType(ms, s.c.value.0), s.c.value.1))
  }

  predicate Encodable(fs: Fields, slots: seq<Slot>)
    decreases fs
  {
    if fs.NoFields? then slots == []
        else slots != [] && EncodableSlot(fs.head, slots[0]) && Encodable(fs.tail, slots[1..])
  }

  // ---------- Streams ----------

  /** A stream that writes to a buffer, or one that only counts. */
  class OStream {
    const sizing: bool
    const maxSize: nat
    var bytesWritten: nat
    var out: Bytes

    ghost predicate Valid()
      reads this
    {
      !sizing ==> bytesWritten == |out| <= maxSize
    }

    constructor (sizing: bool, maxSize: nat)
      ensures Valid() && bytesWritten == 0 && out == [] && this.sizing == sizing && this.maxSize == maxSize
    {
      this.sizing, this.maxSize, bytesWritten, out := sizing, maxSize, 0, [];
    }

    method Write(b: Bytes) returns (ok: bool)
      requires Valid()
      modifies this
      ensures Wrote(this, b, true, ok)
    {
      if |b| > 0 && !sizing {
        if bytesWritten + |b| > maxSize {
          return false;
        }
        out := out + b;
      }
      bytesWritten := bytesWritten + |b|;
      ok := true;
    }
  }

  /** It succeeds if and only if it is possible and there is room, and then has written just this. */
  twostate predicate Wrote(s: OStream, e: Bytes, possible: bool, ok: bool)
    reads s
  {
    && s.Valid()
    && (ok <==> possible && (s.sizing || old(s.bytesWritten) + |e| <= s.maxSize))
    && (ok ==> s.bytesWritten == old(s.bytesWritten) + |e| && (!s.sizing ==> s.out == old(s.out) + e))
  }

  // ---------- Varints ----------

  method EncodeVarint(s: OStream, v: nat) returns (ok: bool)
    requires s.Valid()
    modifies s
    ensures Wrote(s, Varint(v), true, ok)
  {
    if v <= 0x7F {
      ok := s.Write([v]);
      return;
    }
    var value: nat, buffer: Bytes := v, [];
    while value > 0
      invariant value == 0 ==> buffer != [] && buffer[|buffer| - 1] >= 128
                               && buffer[..|buffer| - 1] + [buffer[|buffer| - 1] - 128] == Varint(v)
      invariant value > 0 ==> buffer + Varint(value) == Varint(v)
    {
      ghost var before, current := buffer, value;
      buffer := buffer + [value % 128 + 128];
      value := value / 128;
      assert buffer[..|buffer| - 1] == before;
    }
    buffer := buffer[|buffer| - 1 := buffer[|buffer| - 1] - 128];
    assert buffer == Varint(v);
    ok := s.Write(buffer);
  }

  method EncodeTag(s: OStream, tag: nat, wireType: nat) returns (ok: bool)
    requires s.Valid()
    modifies s
    ensures Wrote(s, EncodedTag(tag, wireType), true, ok)
  {
    ok := EncodeVarint(s, tag * 8 + wireType);
  }

  method EncodeString(s: OStream, b: Bytes) returns (ok: bool)
    requires s.Valid()
    modifies s
    ensures Wrote(s, LengthPrefixed(b), true, ok)
  {
    hide Varint;
    ok := EncodeVarint(s, |b|);
    if ok {
      ok := s.Write(b);
    }
  }

  method EncodeInt(s: OStream, t: LType, n: int) returns (ok: bool)
    requires s.Valid() && Packable(t) && InRange(t, n)
    modifies s
    ensures Wrote(s, EncodedInt(t, n), true, ok)
  {
    hide Varint;
    match t {
      case Bool => ok := EncodeVarint(s, n);
      case SignedVarint(_) => ok := EncodeVarint(s, SignExtended(n));
      case UnsignedVarint(_) => ok := EncodeVarint(s, n);
      case ZigZag(_) => ok := EncodeVarint(s, ZigZagOf(n));
      case Fixed32 => ok := s.Write(LittleEndian(n, 4));
      case Fixed64 => ok := s.Write(LittleEndian(n, 8));
    }
  }

  // ---------- Messages ----------

  method EncodeValue(s: OStream, t: LType, v: Value) returns (ok: bool)
    requires s.Valid()
    modifies s
    ensures Wrote(s, EncodedValue(t, v), EncodableValue(t, v), ok)
    decreases t, 0
  {
    hide LengthPrefixed, Encodable, Encoded, EncodedInt, InRange;
    match t {
      case BytesOf(size) =>
        if !v.Blob? || |v.b| > size {
          return false;
        }
        ok := EncodeString(s, v.b);
      case StringOf(_) =>
        if !v.Blob? {
          return false;
        }
        ok := EncodeString(s, v.b);
      case FixedBytes(_) =>
        if !v.Blob? {
          return false;
        }
        ok := EncodeString(s, v.b);
      case SubMessage(fields) =>
        if !v.Message? {
          return false;
        }
        ok := EncodeSubmessage(s, fields, v.slots);
      case _ =>
        if !v.Int? || !InRange(t, v.n) {
          return false;
        }
        ok := EncodeInt(s, t, v.n);
    }
  }

  /** Count first, then write into a stream that holds exactly so much. */
  method EncodeSubmessage(s: OStream, fields: Fields, slots: seq<Slot>) returns (ok: bool)
    requires s.Valid()
    modifies s
    ensures Wrote(s, LengthPrefixed(Encoded(fields, slots)), Encodable(fields, slots), ok)
    decreases fields, 1
  {
    hide Encodable, Encoded, Varint;
    var counter := new OStream(true, 0);
    ok := EncodeMessage(counter, fields, slots);
    if !ok {
      return;
    }
    var size := counter.bytesWritten;
    ok := EncodeVarint(s, size);
    if !ok {
      return;
    }
    if s.sizing {
      s.bytesWritten := s.bytesWritten + size;
      return true;
    }
    if s.bytesWritten + size > s.maxSize {
      return false;
    }
    var sub := new OStream(false, size);
    var status := EncodeMessage(sub, fields, slots);
    s.bytesWritten := s.bytesWritten + sub.bytesWritten;
    s.out := s.out + sub.out;
    if sub.bytesWritten != size {
      // The size cannot have changed.
      assert false;
    }
    ok := status;
  }

  /** The elements of an array: packed behind their total size, or each with its tag. */
  method EncodeArray(s: OStream, tag: nat, t: LType, vs: seq<Value>, max: nat) returns (ok: bool)
    requires s.Valid()
    modifies s
    ensures Wrote(s, EncodedSlot(Repeated(tag, t, max), Many(vs)), EncodableSlot(Repeated(tag, t, max), Many(vs)), ok)
    decreases t, 3
  {
    hide EncodedValue, EncodableValue, EncodedTag, Varint;
    if vs == [] {
      return true;
    }
    if |vs| > max {
      return false;
    }
    if Packable(t) {
      ok := EncodeTag(s, tag, WT_STRING);
      if !ok {
        return;
      }
      var size;
      ok, size := PackedSize(t, vs);
      if !ok {
        return;
      }
      ok := EncodeVarint(s, size);
      if !ok {
        return;
      }
      if s.sizing {
        s.bytesWritten := s.bytesWritten + size;
        return true;
      }
      ok := EncodeItems(s, t, vs);
    } else {
      ok := EncodeEach(s, tag, t, vs);
    }
  }

  /** The size of a packed array of fixed-size numbers needs no counting. */
  lemma {:induction false} FixedItemsSize(t: LType, vs: seq<Value>)
    requires (t.Fixed32? || t.Fixed64?) && forall i | 0 <= i < |vs| :: EncodableValue(t, vs[i])
    ensures |EncodedItems(t, vs)| == (if t.Fixed32? then 4 else 8) * |vs|
    decreases |vs|
  {
    if vs != [] {
      FixedItemsSize(t, vs[1..]);
    }
  }

  /** The size of a packed array: known for numbers of a fixed size, and counted for others. */
  method PackedSize(t: LType, vs: seq<Value>) returns (ok: bool, size: nat)
    requires Packable(t)
    ensures ok <==> forall i | 0 <= i < |vs| :: EncodableValue(t, vs[i])
    ensures ok ==> size == |EncodedItems(t, vs)|
    decreases t, 2
  {
    hide EncodedItems;
    if t.Fixed32? || t.Fixed64? {
      // What an array of numbers holds can always be encoded.
      ok := forall i | 0 <= i < |vs| :: EncodableValue(t, vs[i]);
      size := (if t.Fixed32? then 4 else 8) * |vs|;
      if ok {
        FixedItemsSize(t, vs);
      }
      return;
    }
    var counter := new OStream(true, 0);
    ok := EncodeItems(counter, t, vs);
    size := counter.bytesWritten;
  }

  lemma {:induction false} ItemsSplit(t: LType, vs: seq<Value>, i: nat)
    requires i < |vs|
    ensures EncodedItems(t, vs[i..]) == EncodedValue(t, vs[i]) + EncodedItems(t, vs[i + 1..])
  {
    hide EncodedValue;
    assert vs[i..][1..] == vs[i + 1..];
  }

  lemma {:induction false} EachSplit(tag: nat, t: LType, vs: seq<Value>, i: nat)
    requires i < |vs|
    ensures EncodedEach(tag, t, vs[i..]) == EncodedTag(tag, WireType(t)) + EncodedValue(t, vs[i])
        + EncodedEach(tag, t, vs[i + 1..])
  {
    hide EncodedValue, EncodedTag;
    assert vs[i..][1..] == vs[i + 1..];
  }

  lemma {:induction false} NothingLeft(tag: nat, t: LType, vs: seq<Value>)
    ensures EncodedItems(t, vs[|vs|..]) == [] && EncodedEach(tag, t, vs[|vs|..]) == [] && vs[0..] == vs
  {
  }

  method EncodeItems(s: OStream, t: LType, vs: seq<Value>) returns (ok: bool)
    requires s.Valid()
    modifies s
    ensures Wrote(s, EncodedItems(t, vs), forall i | 0 <= i < |vs| :: EncodableValue(t, vs[i]), ok)
    decreases t, 1
  {
    hide EncodedValue, EncodableValue, EncodedItems;
    ghost var done: Bytes := [];
    NothingLeft(0, t, vs);
    for i := 0 to |vs|
      invariant Wrote(s, done, true, true) && done + EncodedItems(t, vs[i..]) == EncodedItems(t, vs)
      invariant forall k | 0 <= k < i :: EncodableValue(t, vs[k])
    {
      ItemsSplit(t, vs, i);
      ok := EncodeValue(s, t, vs[i]);
      if !ok {
        return;
      }
      done := done + EncodedValue(t, vs[i]);
    }
    ok := true;
  }

  method EncodeEach(s: OStream, tag: nat, t: LType, vs: seq<Value>) returns (ok: bool)
    requires s.Valid()
    modifies s
    ensures Wrote(s, EncodedEach(tag, t, vs), forall i | 0 <= i < |vs| :: EncodableValue(t, vs[i]), ok)
    decreases t, 2
  {
    hide EncodedValue, EncodableValue, EncodedTag, EncodedEach;
    ghost var done: Bytes := [];
    NothingLeft(tag, t, vs);
    for i := 0 to |vs|
      invariant Wrote(s, done, true, true) && done + EncodedEach(tag, t, vs[i..]) == EncodedEach(tag, t, vs)
      invariant forall k | 0 <= k < i :: EncodableValue(t, vs[k])
    {
      EachSplit(tag, t, vs, i);
      ok := EncodeTagged(s, tag, t, vs[i]);
      if !ok {
        return;
      }
      done := done + (EncodedTag(tag, WireType(t)) + EncodedValue(t, vs[i]));
    }
    ok := true;
  }

  method EncodeTagged(s: OStream, tag: nat, t: LType, v: Value) returns (ok: bool)
    requires s.Valid()
    modifies s
    ensures Wrote(s, EncodedTag(tag, WireType(t)) + EncodedValue(t, v), EncodableValue(t, v), ok)
    decreases t, 1
  {
    hide EncodedValue, EncodableValue, EncodedTag;
    ok := EncodeTag(s, tag, WireType(t));
    if ok {
      ok := EncodeValue(s, t, v);
    }
  }

  method EncodeField(s: OStream, f: Field, slot: Slot) returns (ok: bool)
    requires s.Valid()
    modifies s
    ensures Wrote(s, EncodedSlot(f, slot), EncodableSlot(f, slot), ok)
    decreases f, 0
  {
    hide EncodedValue, EncodableValue, EncodedTag, IsDefaultValue, EncodedItems, EncodedEach;
    match f {
      case Required(tag, t) =>
        if !slot.Single? {
          return false;
        }
        ok := EncodeTagged(s, tag, t, slot.v);
      case Optional(tag, t) =>
        if !slot.Maybe? {
          return false;
        }
        ok := true;
        if slot.o.Some? {
          ok := EncodeTagged(s, tag, t, slot.o.value);
        }
      case Implicit(tag, t) =>
        if !slot.Single? {
          return false;
        }
        ok := true;
        if !IsDefaultValue(t, slot.v) {
          ok := EncodeTagged(s, tag, t, slot.v);
        }
      case Repeated(tag, t, max) =>
        if !slot.Many? {
          return false;
        }
        ok := EncodeArray(s, tag, t, slot.vs, max);
      case OneOf(ms) =>
        if !slot.Choice? || (slot.c.Some? && slot.c.value.0 >= MemberCount(ms)) {
          return false;
        }
        ok := true;
        if slot.c.Some? {
          var (i, v) := slot.c.value;
          ok := EncodeTagged(s, MemberTag(ms, i), MemberType(ms, i), v);
        }
    }
  }

  /** All fields in turn. On a counting stream this finds the size that it writes on any other. */
  method EncodeMessage(s: OStream, fields: Fields, slots: seq<Slot>) returns (ok: bool)
    requires s.Valid()
    modifies s
    ensures Wrote(s, Encoded(fields, slots), Encodable(fields, slots), ok)
    decreases fields, 0
  {
    hide EncodedSlot, EncodableSlot;
    var rest, i := fields, 0;
    ghost var done: Bytes := [];
    assert slots[0..] == slots;
    while rest.FieldsOf?
      invariant i <= |slots| && (rest == fields || rest < fields)
      invariant Wrote(s, done, true, true) && done + Encoded(rest, slots[i..]) == Encoded(fields, slots)
      invariant Encodable(fields, slots) <==> Encodable(rest, slots[i..])
      decreases rest
    {
      if i == |slots| {
        return false;
      }
      assert slots[i..][1..] == slots[i + 1..];
      ok := EncodeField(s, rest.head, slots[i]);
      if !ok {
        return;
      }
      done := done + EncodedSlot(rest.head, slots[i]);
      rest, i := rest.tail, i + 1;
    }
    ok := i == |slots|;
  }

  // ---------- Sizes and buffers ----------

  /** The size of a message, found by counting. */
  method GetEncodedSize(fields: Fields, slots: seq<Slot>) returns (ok: bool, size: nat)
    ensures ok <==> Encodable(fields, slots)
    ensures ok ==> size == |Encoded(fields, slots)|
  {
    var counter := new OStream(true, 0);
    ok := EncodeMessage(counter, fields, slots);
    size := counter.bytesWritten;
  }

  /** Encoding into a buffer succeeds exactly when the buffer holds what counting finds. */
  method EncodeToBuffer(fields: Fields, slots: seq<Slot>, capacity: nat) returns (ok: bool, b: Bytes)
    ensures ok <==> Encodable(fields, slots) && |Encoded(fields, slots)| <= capacity
    ensures ok ==> b == Encoded(fields, slots)
  {
    var s := new OStream(false, capacity);
    ok := EncodeMessage(s, fields, slots);
    b := s.out;
    assert [] + Encoded(fields, slots) == Encoded(fields, slots);
  }

  lemma {:induction false} FittingValueIsEncodable(t: LType, v: Value)
    requires FitsValue(t, v)
    ensures EncodableValue(t, v)
    decreases t
  {
    hide Encoded;
    if t.SubMessage? {
      FittingIsEncodable(t.fields, v.slots);
    }
  }

  /** Every message that fits its schema can be encoded. */
  lemma {:induction false} FittingIsEncodable(fs: Fields, slots: seq<Slot>)
    requires Fits(fs, slots)
    ensures Encodable(fs, slots)
    decreases fs
  {
    hide FitsValue, EncodableValue, EncodedItems, IsDefaultValue;
    if fs.FieldsOf? {
      match fs.head {
        case Required(_, t) => FittingValueIsEncodable(t, slots[0].v);
        case Optional(_, t) => if slots[0].o.Some? { FittingValueIsEncodable(t, slots[0].o.value); }
        case Implicit(_, t) => FittingValueIsEncodable(t, slots[0].v);
        case Repeated(_, t, _) =>
          forall i | 0 <= i < |slots[0].vs| ensures EncodableValue(t, slots[0].vs[i]) {
            FittingValueIsEncodable(t, slots[0].vs[i]);
          }
        case OneOf(ms) =>
          if slots[0].c.Some? {
            FittingValueIsEncodable(MemberType(ms, slots[0].c.value.0), slots[0].c.value.1);
          }
      }
      FittingIsEncodable(fs.tail, slots[1..]);
    }
  }
}
