/** nanopb: whatever bytes come in, the message stays within its structure; and what is refused. */
module NanopbBounds {
  import opened Format
  import opened Coding
  import opened NanopbFormat
  import opened NanopbDecode
  import opened NanopbRoundTrip
  import opened NanopbMerge

  // ---------- Nothing overflows ----------

  /** A value that its field has room for: numbers in their range, bytes within their buffer, and
      strings with their terminator. */
  predicate InBounds(t: LType, v: Value)
    decreases t
  {
    match t
    case BytesOf(size) => v.Blob? && |v.b| <= size
    case StringOf(size) => v.Blob? && 0 !in v.b && (|v.b| < size || v.b == [])
    case FixedBytes(size) => v.Blob? && |v.b| == size
    case SubMessage(fields) => v.Message? && AllInBounds(fields, v.slots)
    case _ => v.Int? && (InRange(t, v.n) || v.n == 0)
  }

  predicate SlotInBounds(f: Field, s: Slot)
    decreases f
  {
    match f
    case Required(_, t) => s.Single? && InBounds(t, s.v)
    case Optional(_, t) => s.Maybe? && (s.o.Some? ==> InBounds(t, s.o.value))
    case Implicit(_, t) => s.Single? && InBounds(t, s.v)
    case Repeated(_, t, max) => s.Many? && |s.vs| <= max && forall i | 0 <= i < |s.vs| :: InBounds(t, s.vs[i])
    case OneOf(ms) =>
      && s.Choice?
      && (s.c.Some? ==> s.c.value.0 < MemberCount(ms) && InBounds(MemberType(ms, s.c.value.0), s.c.value.1))
  }

  predicate AllInBounds(fs: Fields, slots: seq<Slot>)
    decreases fs
  {
    if fs.NoFields? then slots == []
    else slots != [] && SlotInBounds(fs.head, slots[0]) && AllInBounds(fs.tail, slots[1..])
  }

  lemma {:induction false} BoundsBySlot(fs: Fields, slots: seq<Slot>)
    ensures AllInBounds(fs, slots) <==>
        |slots| == Count(fs) && forall i | 0 <= i < Count(fs) :: SlotInBounds(FieldAt(fs, i), slots[i])
    decreases fs
  {
    hide SlotInBounds;
    if fs.FieldsOf? && slots != [] {
      BoundsBySlot(fs.tail, slots[1..]);
      if |slots| == Count(fs) && forall i | 0 <= i < Count(fs) :: SlotInBounds(FieldAt(fs, i), slots[i]) {
        forall i | 0 <= i < Count(fs.tail) ensures SlotInBounds(FieldAt(fs.tail, i), slots[1..][i]) {
          assert FieldAt(fs, i + 1) == FieldAt(fs.tail, i);
        }
      }
    }
  }

  lemma {:induction false} DefaultInBounds(t: LType)
    ensures InBounds(t, DefaultValue(t))
    decreases t
  {
    if t.SubMessage? {
      DefaultsInBounds(t.fields);
    }
  }

  lemma {:induction false} DefaultsInBounds(fs: Fields)
    ensures AllInBounds(fs, Defaults(fs))
    decreases fs
  {
    if fs.FieldsOf? {
      if fs.head.Required? || fs.head.Implicit? {
        DefaultInBounds(fs.head.ltype);
      }
      DefaultsInBounds(fs.tail);
      assert Defaults(fs)[1..] == Defaults(fs.tail);
    }
  }

  lemma {:induction false} UpToZeroIsShort(b: Bytes)
    ensures |UpToZero(b)| <= |b| && 0 !in UpToZero(b)
  {
    if b != [] && b[0] != 0 {
      UpToZeroIsShort(b[1..]);
    }
  }

  lemma {:induction false} NumberInBounds(t: LType, input: Bytes)
    requires Packable(t)
    ensures GetInt(t, input).Some? ==> InBounds(t, GetInt(t, input).value.0)
  {
    hide NanopbDecode.GetVarint32, NanopbDecode.GetVarint64, SignedFrom, ZigZagFrom, FromLittleEndian;
    if t.Fixed32? && |input| >= 4 {
      FixedBelow(input[..4]);
    } else if t.Fixed64? && |input| >= 8 {
      FixedBelow(input[..8]);
    }
  }

  lemma {:induction false} LittleEndianBelow(b: Bytes)
    ensures FromLittleEndian(b) < Power256(|b|)
  {
    if b != [] {
      LittleEndianBelow(b[1..]);
    }
  }

  lemma {:induction false} FixedBelow(b: Bytes)
    ensures |b| == 4 ==> FromLittleEndian(b) < TWO_32
    ensures |b| == 8 ==> FromLittleEndian(b) < TWO_64
  {
    FixedCapacities();
    if |b| == 4 {
      LittleEndianBelow(b);
    } else if |b| == 8 {
      LittleEndianBelow(b);
    }
  }

  lemma {:induction false} ValueInBounds(t: LType, current: Value, input: Bytes, isNew: bool)
    requires isNew || InBounds(t, current)
    ensures var r := DecodedValue(t, current, input, isNew); r.Some? ==> InBounds(t, r.value.0)
    decreases |input|, 0
  {
    hide NanopbDecode.GetVarint32, GetInt, AllInBounds;
    match t
    case SubMessage(fields) =>
      var d := GetDelimited(input);
      if d.Some? {
        var start := if isNew || !current.Message? || |current.slots| != Count(fields) then Defaults(fields)
            else current.slots;
        DefaultsInBounds(fields);
        FieldsInBounds(fields, start, {}, d.value.0);
      }
    case BytesOf(_) =>
    case StringOf(size) =>
      var n := NanopbDecode.GetVarint32(input);
      if n.Some? && n.value.0 <= |n.value.1| {
        UpToZeroIsShort(n.value.1[..n.value.0]);
      }
    case FixedBytes(_) =>
    case _ => NumberInBounds(t, input);
  }

  lemma {:induction false} ItemsInBounds(t: LType, vs: seq<Value>, max: nat, input: Bytes)
    requires |vs| <= max && forall i | 0 <= i < |vs| :: InBounds(t, vs[i])
    ensures var r := DecodedItems(t, vs, max, input);
            r.Some? ==> |r.value| <= max && forall i | 0 <= i < |r.value| :: InBounds(t, r.value[i])
    decreases |input|, 1
  {
    hide DecodedValue, InBounds;
    if input != [] && |vs| < max {
      ValueInBounds(t, Int(0), input, true);
      var d := DecodedValue(t, Int(0), input, true);
      if d.Some? {
        ItemsInBounds(t, vs + [d.value.0], max, d.value.1);
      }
    }
  }

  lemma {:induction false} SlotStaysInBounds(f: Field, s: Slot, wireType: nat, member: nat, input: Bytes)
    requires SlotInBounds(f, s) && (f.OneOf? ==> member < MemberCount(f.members))
    ensures var r := DecodedSlot(f, s, wireType, member, input); r.Some? ==> SlotInBounds(f, r.value.0)
    decreases |input|, 2
  {
    hide DecodedValue, DecodedItems, InBounds, DefaultValue;
    match f
    case Required(_, t) => ValueInBounds(t, s.v, input, false);
    case Optional(_, t) =>
      DefaultInBounds(t);
      ValueInBounds(t, if s.o.Some? then s.o.value else DefaultValue(t), input, false);
    case Implicit(_, t) => ValueInBounds(t, s.v, input, false);
    case Repeated(_, t, max) =>
      var d := GetDelimited(input);
      if wireType == WT_STRING && Packable(t) {
        if d.Some? {
          ItemsInBounds(t, s.vs, max, d.value.0);
        }
      } else {
        ValueInBounds(t, DefaultValue(t), input, true);
      }
    case OneOf(ms) =>
      var t := MemberType(ms, member);
      DefaultInBounds(t);
      ValueInBounds(t, if s.c.Some? && s.c.value.0 == member then s.c.value.1 else DefaultValue(t), input, false);
  }

  lemma {:induction false} FieldsInBounds(fs: Fields, slots: seq<Slot>, seen: set<nat>, input: Bytes)
    requires AllInBounds(fs, slots) && |slots| == Count(fs)
    ensures var r := DecodedFields(fs, slots, seen, input); r.Some? ==> AllInBounds(fs, r.value)
    decreases |input|, 3
  {
    hide DecodedSlot, NanopbDecode.GetVarint32, AllSeen, SkipUnknown, SlotInBounds, AllInBounds;
    var key := NanopbDecode.GetVarint32(input);
    if input != [] && key.Some? && key.value.0 != 0 {
      var (k, rest) := key.value;
      var found := FindField(fs, k / 8);
      if found.None? {
        var skipped := SkipUnknown(fs, k, rest);
        if skipped.Some? {
          FieldsInBounds(fs, slots, seen, skipped.value);
        }
      } else {
        var (i, m) := found.value;
        var f := FieldAt(fs, i);
        BoundsBySlot(fs, slots);
        SlotStaysInBounds(f, slots[i], k % 8, m, rest);
        var d := DecodedSlot(f, slots[i], k % 8, m, rest);
        if d.Some? {
          BoundsBySlot(fs, slots[i := d.value.0]);
          FieldsInBounds(fs, slots[i := d.value.0], if f.Required? then seen + {i} else seen, d.value.1);
        }
      }
    }
  }

  /** Whatever bytes come in, what is decoded has room in its structure. */
  lemma {:induction false} DecodedInBounds(fs: Fields, input: Bytes)
    ensures Decoded(fs, input).Some? ==> AllInBounds(fs, Decoded(fs, input).value)
  {
    hide DecodedFields, AllInBounds;
    DefaultsInBounds(fs);
    FieldsInBounds(fs, Defaults(fs), {}, input);
  }

  // ---------- What is refused ----------

  /** The widest type of the same kind. */
  function Widest(t: LType): LType {
    match t
    case SignedVarint(_) => SignedVarint(64)
    case UnsignedVarint(_) => UnsignedVarint(64)
    case ZigZag(_) => ZigZag(64)
    case _ => t
  }

  /** A number that was sent for a wider field is taken if and only if it is in range. Of a signed
      number that is not zig-zag encoded only the low 32 bits count for a field of 32 bits or less. */
  lemma {:induction false} NarrowField(t: LType, n: int, rest: Bytes)
    requires Packable(t) && InRange(Widest(t), n)
    requires t.SignedVarint? && t.bits != 64 ==> -0x8000_0000 <= n < 0x8000_0000
    ensures GetInt(t, EncodedInt(Widest(t), n) + rest) == if InRange(t, n) then Some((Int(n), rest)) else None
  {
    hide NanopbDecode.GetVarint64, Varint, SignedFrom, SignExtended, ZigZagFrom, ZigZagOf;
    match t
    case SignedVarint(bits) =>
      SignRoundTrip(if bits == 64 then 64 else 32, n);
      SameLowBits(bits, SignExtended(n));
      Varint64Reads(SignExtended(n), rest);
    case UnsignedVarint(_) => Varint64Reads(n, rest);
    case ZigZag(_) =>
      ZigZagRoundTrip(n);
      Varint64Reads(ZigZagOf(n), rest);
    case _ => IntRoundTrip(t, n, rest);
  }

  lemma {:induction false} SameLowBits(bits: nat, n: nat)
    ensures bits != 64 ==> SignedFrom(bits, n) == SignedFrom(32, n)
  {
  }

  /** Byte strings are taken if and only if there is room; those of a fixed size also when they are
      empty, and are zero then. */
  lemma {:induction false} BytesNeedRoom(size: nat, b: Bytes, rest: Bytes)
    requires |b| < TWO_32
    ensures GetBlob(BytesOf(size), LengthPrefixed(b) + rest) == if |b| <= size then Some((Blob(b), rest)) else None
    ensures GetBlob(FixedBytes(size), LengthPrefixed(b) + rest)
         == if b == [] then Some((Blob(seq(size, _ => 0)), rest))
            else if |b| == size then Some((Blob(b), rest)) else None
  {
    hide NanopbDecode.GetVarint32, LengthPrefixed;
    DelimitedReads(b, rest);
    assert b == [] ==> b + rest == rest;
  }

  /** A number or byte string fits its field exactly when it comes back from its encoding. */
  lemma {:induction false} FitsIfItComesBack(t: LType, v: Value, current: Value, isNew: bool)
    requires !t.SubMessage? && (v.Int? || v.Blob?) && (v.Blob? ==> |v.b| + 1 < TWO_32)
    ensures FitsValue(t, v) <==> DecodedValue(t, current, EncodedValue(t, v), isNew) == Some((v, []))
  {
    hide NanopbDecode.GetVarint32, NanopbDecode.GetVarint64, LengthPrefixed, GetInt, EncodedInt;
    if v.Blob? {
      DelimitedReads(v.b, []);
      assert LengthPrefixed(v.b) + [] == LengthPrefixed(v.b) && v.b + [] == v.b;
      UpToZeroIsShort(v.b);
      if 0 !in v.b {
        NoZeroInside(v.b);
      }
      if Packable(t) {
        NumberOrNothing(t, []);
      } else if t.FixedBytes? {
        BytesNeedRoom(t.size, v.b, []);
        assert |seq(t.size, _ => 0 as Byte)| == t.size && (t.size == 0 ==> seq(t.size, _ => 0 as Byte) == []);
      }
    } else if Packable(t) && InRange(t, v.n) {
      IntRoundTrip(t, v.n, []);
      assert EncodedInt(t, v.n) + [] == EncodedInt(t, v.n);
    } else if Packable(t) {
      NumberOrNothing(t, []);
    } else {
      NoLength();
    }
  }

  lemma {:induction false} NumberOrNothing(t: LType, input: Bytes)
    requires Packable(t)
    ensures input == [] ==> GetInt(t, input) == None
  {
  }

  lemma {:induction false} NoLength()
    ensures NanopbDecode.GetVarint32([]) == None
  {
  }

  // ---------- Bytes that end too early ----------

  ghost predicate Unfinished(b: Bytes) {
    forall i | 0 <= i < |b| :: b[i] >= 128
  }

  lemma {:induction false} UnfinishedMore32(input: Bytes, result: nat, position: nat)
    requires Unfinished(input)
    ensures MoreVarint32(input, result, position) == None
    decreases |input|
  {
    hide WithGroup, Or;
    if input != [] {
      var b: nat := input[0];
      UnfinishedMore32(input[1..], if position >= 32 then result else WithGroup(result, b, position),
          NextPosition(position));
    }
  }

  lemma {:induction false} UnfinishedMore64(input: Bytes, result: nat, k: nat)
    requires Unfinished(input)
    ensures MoreVarint64(input, result, k) == None
    decreases |input|
  {
    hide Power128;
    if input != [] && k < 10 {
      UnfinishedMore64(input[1..], result + ((input[0] as nat) % 128 * Power128(k)) % TWO_64, k + 1);
    }
  }

  lemma {:induction false} UnfinishedVarint(input: Bytes)
    requires Unfinished(input)
    ensures NanopbDecode.GetVarint32(input) == None && NanopbDecode.GetVarint64(input) == None
  {
    hide MoreVarint32, MoreVarint64;
    if input != [] {
      UnfinishedMore32(input[1..], (input[0] as nat) - 128, 7);
    }
    UnfinishedMore64(input, 0, 0);
  }

  lemma {:induction false} CutVarint(n: nat, k: nat)
    requires k < |Varint(n)|
    ensures Unfinished(Varint(n)[..k])
    decreases n
  {
    if n >= 128 && k > 0 {
      CutVarint(n / 128, k - 1);
      assert Varint(n)[..k] == [Varint(n)[0]] + Varint(n / 128)[..k - 1];
    }
  }

  lemma {:induction false} CutPrefixed(b: Bytes, k: nat)
    requires |b| < TWO_32 && k < |LengthPrefixed(b)|
    ensures NanopbDecode.GetVarint32(LengthPrefixed(b)[..k]) == None
         || (0 <= k - |Varint(|b|)| < |b|
             && NanopbDecode.GetVarint32(LengthPrefixed(b)[..k]) == Some((|b|, b[..k - |Varint(|b|)|])))
    ensures GetDelimited(LengthPrefixed(b)[..k]) == None
  {
    hide NanopbDecode.GetVarint32, Varint, Unfinished;
    var head := Varint(|b|);
    if k < |head| {
      CutVarint(|b|, k);
      UnfinishedVarint(head[..k]);
      assert LengthPrefixed(b)[..k] == head[..k];
    } else {
      var rest := b[..k - |head|];
      assert LengthPrefixed(b)[..k] == head + rest;
      Varint32Reads(|b|, rest);
    }
  }

  lemma {:induction false} CutNumber(t: LType, n: int, k: nat)
    requires Packable(t) && InRange(t, n) && k < |EncodedInt(t, n)|
    ensures GetInt(t, EncodedInt(t, n)[..k]) == None
  {
    hide NanopbDecode.GetVarint32, NanopbDecode.GetVarint64, Varint, LittleEndian, FromLittleEndian, Unfinished;
    if t.Fixed32? || t.Fixed64? {
      LittleEndianSize(n, if t.Fixed32? then 4 else 8);
    } else {
      var m: nat := match t
        case SignedVarint(_) => SignExtended(n)
        case ZigZag(_) => ZigZagOf(n)
        case _ => n;
      CutVarint(m, k);
      UnfinishedVarint(Varint(m)[..k]);
    }
  }

  lemma {:induction false} LittleEndianSize(n: nat, size: nat)
    ensures |LittleEndian(n, size)| == size
  {
  }

  /** A value that is cut off is refused. */
  lemma {:induction false} CutValue(t: LType, v: Value, current: Value, isNew: bool, k: nat)
    requires FitsValue(t, v) && k < |EncodedValue(t, v)|
    ensures DecodedValue(t, current, EncodedValue(t, v)[..k], isNew) == None
  {
    hide NanopbDecode.GetVarint32, Encoded, LengthPrefixed, EncodedInt, GetInt, DecodedFields;
    match t
    case SubMessage(fields) => CutPrefixed(Encoded(fields, v.slots), k);
    case BytesOf(_) => CutPrefixed(v.b, k);
    case StringOf(_) => CutPrefixed(v.b, k);
    case FixedBytes(_) => CutPrefixed(v.b, k);
    case _ => CutNumber(t, v.n, k);
  }

  /** So is a message that ends inside a field. */
  lemma {:induction false} CutField(fs: Fields, slots: seq<Slot>, seen: set<nat>, i: nat, tag: nat, member: nat,
      v: Value, k: nat)
    requires SchemaOk(fs) && |slots| == Count(fs) && i < Count(fs) && !FieldAt(fs, i).Repeated?
    requires MatchField(FieldAt(fs, i), tag) == Some(member) && 1 <= tag < TAG_LIMIT
    requires FitsValue(TypeOf(FieldAt(fs, i), member), v)
    requires var t := TypeOf(FieldAt(fs, i), member); 0 < k < |EncodedTag(tag, WireType(t)) + EncodedValue(t, v)|
    ensures var t := TypeOf(FieldAt(fs, i), member);
            DecodedFields(fs, slots, seen, (EncodedTag(tag, WireType(t)) + EncodedValue(t, v))[..k]) == None
  {
    hide DecodedValue, EncodedValue, SchemaOk, FitsValue, NanopbDecode.GetVarint32, Varint, Unfinished, AllSeen;
    var t := TypeOf(FieldAt(fs, i), member);
    var head, body := EncodedTag(tag, WireType(t)), EncodedValue(t, v);
    WireTypesAreSmall(t);
    if k < |head| {
      CutVarint(tag * 8 + WireType(t), k);
      UnfinishedVarint(head[..k]);
      assert (head + body)[..k] == head[..k];
    } else {
      var rest := body[..k - |head|];
      assert (head + body)[..k] == head + rest;
      OneField(fs, slots, seen, i, tag, WireType(t), rest);
      var s := slots[i];
      forall current ensures DecodedValue(t, current, rest, false) == None {
        CutValue(t, v, current, false, k - |head|);
      }
    }
  }
}
