/** nanopb: decoding an encoded message gives the message back. */
module NanopbRoundTrip {
  import opened Format
  import opened Coding
  import opened NanopbFormat
  import opened NanopbDecode

  // ---------- Varints ----------

  /** Seven positions make a group. */
  lemma {:induction false} GroupPower(k: nat)
    ensures Power2(7 * k) == Power128(k)
  {
    if k > 0 {
      GroupPower(k - 1);
      var n := 7 * (k - 1);
      assert Power2(n + 1) == 2 * Power2(n) && Power2(n + 2) == 2 * Power2(n + 1) && Power2(n + 3) == 2 * Power2(n + 2);
      assert Power2(n + 4) == 2 * Power2(n + 3) && Power2(n + 5) == 2 * Power2(n + 4);
      assert Power2(n + 6) == 2 * Power2(n + 5) && Power2(n + 7) == 2 * Power2(n + 6);
    }
  }

  /** Bits above those of a number are added by or. */
  lemma {:induction false} OrAdds(a: nat, g: nat, n: nat)
    requires a < Power2(n)
    ensures Or(a, g * Power2(n)) == a + g * Power2(n)
    decreases n
  {
    if a > 0 {
      var p := Power2(n - 1);
      Doubled(g, p);
      OrAdds(a / 2, g, n - 1);
    }
  }

  lemma {:induction false} Doubled(g: nat, p: nat)
    ensures g * (2 * p) == 2 * (g * p) && (g * (2 * p)) / 2 == g * p && (g * (2 * p)) % 2 == 0
  {
    assert g * (2 * p) == 2 * (g * p);
  }

  lemma {:induction false} Powers()
    ensures Power128(1) == 128 && Power128(4) == 0x1000_0000 && Power128(5) == 0x8_0000_0000
    ensures Power128(9) == 0x8000_0000_0000_0000 && Power128(10) > TWO_64
  {
    assert Power128(2) == 0x4000 && Power128(3) == 0x20_0000;
    assert Power128(6) == 0x400_0000_0000 && Power128(7) == 0x2_0000_0000_0000 && Power128(8) == 0x100_0000_0000_0000;
  }

  lemma {:induction false} SplitProduct(v: nat, p: nat)
    ensures v * p == (v % 128) * p + (v / 128) * (128 * p)
  {
    var low, high := v % 128, v / 128;
    assert v == low + 128 * high;
    assert (low + 128 * high) * p == low * p + high * (128 * p);
  }

  lemma {:induction false} SmallRemainder(x: nat, limit: nat)
    requires x < limit
    ensures x % limit == x
  {
  }

  lemma {:induction false} NotNegative(a: nat, b: nat)
    ensures a * b >= 0
  {
  }

  /** A group of bits fits when the whole value does. */
  lemma {:induction false} GroupFits(v: nat, result: nat, k: nat, limit: nat)
    requires result + v * Power128(k) < limit
    ensures result + v % 128 * Power128(k) + (v / 128) * Power128(k + 1) == result + v * Power128(k)
    ensures (v % 128 * Power128(k)) % limit == v % 128 * Power128(k)
    ensures v < 128 ==> v % 128 * Power128(k) == v * Power128(k)
  {
    SplitProduct(v, Power128(k));
    NotNegative(v / 128, Power128(k + 1));
    NotNegative(v % 128, Power128(k));
    SmallRemainder(v % 128 * Power128(k), limit);
  }

  lemma {:induction false} FirstByte(v: nat, rest: Bytes)
    ensures var input := Varint(v) + rest;
            && input != [] && input[0] % 128 == v % 128 && (input[0] >= 128 <==> v >= 128)
            && input[1..] == if v >= 128 then Varint(v / 128) + rest else rest
  {
  }

  lemma {:induction false} AtLeastPower(v: nat, k: nat)
    requires v >= 1
    ensures v * Power128(k) >= Power128(k)
  {
  }

  /** The bytes of a varint above its first k groups. */
  lemma {:induction false} MoreVarint32Reads(v: nat, result: nat, k: nat, rest: Bytes)
    requires 1 <= v && 1 <= k <= 4 && result + v * Power128(k) < TWO_32 && result < Power128(k)
    ensures MoreVarint32(Varint(v) + rest, result, 7 * k) == Some((result + v * Power128(k), rest))
    decreases v
  {
    hide Varint;
    Powers();
    GroupFits(v, result, k, TWO_32);
    FirstByte(v, rest);
    GroupPower(k);
    OrAdds(result, v % 128, 7 * k);
    if v >= 128 {
      AtLeastPower(v / 128, k + 1);
      GroupBelow(result, v % 128, k);
      hide Power128;
      MoreVarint32Reads(v / 128, result + v % 128 * Power128(k), k + 1, rest);
    }
  }

  lemma {:induction false} GroupBelow(result: nat, g: nat, k: nat)
    requires result < Power128(k) && g < 128
    ensures result + g * Power128(k) < Power128(k + 1)
  {
    var p := Power128(k);
    assert (g + 1) * p <= 128 * p;
  }

  lemma {:induction false} Varint32Reads(v: nat, rest: Bytes)
    requires v < TWO_32
    ensures NanopbDecode.GetVarint32(Varint(v) + rest) == Some((v, rest))
  {
    var input := Varint(v) + rest;
    if v >= 128 {
      assert Power128(1) == 128 * Power128(0);
      assert input[0] == v % 128 + 128 && input[1..] == Varint(v / 128) + rest;
      MoreVarint32Reads(v / 128, v % 128, 1, rest);
    } else {
      assert input[0] == v && input[1..] == rest;
    }
  }

  function Padding(n: nat): Bytes {
    seq(n, _ => 128)
  }

  lemma {:induction false} EmptyGroup(position: nat)
    ensures WithGroup(0, 128, position) == 0
  {
    hide Power2;
  }

  lemma {:induction false} PositionsAdd(position: nat, n: nat)
    requires n >= 1
    ensures (NextPosition(position) + 7 * (n - 1)) % 256 == (position + 7 * n) % 256
  {
    var q := (position + 7) / 256;
    assert position + 7 * n == NextPosition(position) + 7 * (n - 1) + 256 * q;
    WrapsAway(NextPosition(position) + 7 * (n - 1), q);
  }

  lemma {:induction false} WrapsAway(x: nat, q: nat)
    ensures (x + 256 * q) % 256 == x % 256
  {
    if q > 0 {
      WrapsAway(x, q - 1);
    }
  }

  lemma {:induction false} PaddingMovesOn(n: nat, position: nat, rest: Bytes)
    requires position < 256
    ensures MoreVarint32(Padding(n) + rest, 0, position) == MoreVarint32(rest, 0, (position + 7 * n) % 256)
    decreases n
  {
    hide WithGroup, NextPosition;
    var input := Padding(n) + rest;
    if n == 0 {
      assert input == rest;
    } else {
      assert input[0] == 128 && input[1..] == Padding(n - 1) + rest;
      EmptyGroup(position);
      PositionsAdd(position, n);
      PositionIsSmall(position);
      PaddingMovesOn(n - 1, NextPosition(position), rest);
    }
  }

  lemma {:induction false} PositionIsSmall(position: nat)
    ensures NextPosition(position) < 256
  {
  }

  lemma {:induction false} LastGroup(b: Byte, position: nat)
    requires b < 128 && position < 256
    ensures var value: nat := if position >= 32 then 0 else b * Power2(position) % TWO_32;
            MoreVarint32([b], 0, position)
            == if (position >= 32 && b > 0) || (position == 28 && b >= 16) then None else Some((value, []))
  {
    hide Power2, WithGroup, Or;
    assert [b][1..] == [];
    FirstGroup(b, position);
  }

  lemma {:induction false} FirstGroup(b: Byte, position: nat)
    requires b < 128
    ensures WithGroup(0, b, position) == b * Power2(position) % TWO_32
  {
    hide Power2;
    assert b % 128 == b;
  }

  /** The position of a group has eight bits. A group behind n empty ones counts at position 7n as
      long as that is below 256; behind 37 it counts at position 3, where it should be refused. */
  lemma {:induction false} PaddedVarint(n: nat, b: Byte)
    requires n >= 1 && b < 128
    ensures var position := 7 * n % 256;
            var value: nat := if position >= 32 then 0 else b * Power2(position) % TWO_32;
            NanopbDecode.GetVarint32(Padding(n) + [b])
            == if (position >= 32 && b > 0) || (position == 28 && b >= 16) then None else Some((value, []))
    ensures b == 1 && n == 37 ==> NanopbDecode.GetVarint32(Padding(n) + [b]) == Some((8, []))
  {
    hide MoreVarint32, Power2;
    var input := Padding(n) + [b];
    assert input[0] == 128 && input[1..] == Padding(n - 1) + [b];
    PaddingMovesOn(n - 1, 7, [b]);
    LastGroup(b, 7 * n % 256);
    Eight();
  }

  lemma {:induction false} Eight()
    ensures Power2(3) == 8
  {
    assert Power2(3) == 2 * Power2(2) && Power2(2) == 2 * Power2(1) && Power2(1) == 2 * Power2(0);
  }

  lemma {:induction false} MoreVarint64Reads(v: nat, result: nat, k: nat, rest: Bytes)
    requires (1 <= v || k == 0) && k <= 9 && result + v * Power128(k) < TWO_64
    ensures MoreVarint64(Varint(v) + rest, result, k) == Some((result + v * Power128(k), rest))
    decreases v
  {
    hide Varint;
    Powers();
    GroupFits(v, result, k, TWO_64);
    FirstByte(v, rest);
    if v >= 128 {
      AtLeastPower(v / 128, k + 1);
      hide Power128;
      MoreVarint64Reads(v / 128, result + v % 128 * Power128(k), k + 1, rest);
    }
  }

  lemma {:induction false} Varint64Reads(v: nat, rest: Bytes)
    requires v < TWO_64
    ensures NanopbDecode.GetVarint64(Varint(v) + rest) == Some((v, rest))
  {
    MoreVarint64Reads(v, 0, 0, rest);
  }

  // ---------- Scalars ----------

  lemma {:induction false} ZigZagRoundTrip(n: int)
    ensures ZigZagFrom(ZigZagOf(n)) == n
    ensures -0x8000_0000_0000_0000 <= n < 0x8000_0000_0000_0000 ==> ZigZagOf(n) < TWO_64
  {
  }

  /** Sign extension is undone, for every width. */
  lemma {:induction false} SignRoundTrip(bits: nat, n: int)
    requires Signed(bits, n)
    ensures SignExtended(n) < TWO_64 && SignedFrom(bits, SignExtended(n)) == n
  {
    if n < 0 {
      assert n + TWO_64 == (n + TWO_32) + TWO_32 * 0xFFFF_FFFF;
      if bits != 64 {
        LowBits(n + TWO_32, 0xFFFF_FFFF);
      }
    }
  }

  lemma {:induction false} LowBits(low: nat, high: nat)
    requires low < TWO_32
    ensures (low + TWO_32 * high) % TWO_32 == low
  {
  }

  lemma {:induction false} IntRoundTrip(t: LType, n: int, rest: Bytes)
    requires Packable(t) && InRange(t, n)
    ensures GetInt(t, EncodedInt(t, n) + rest) == Some((Int(n), rest))
  {
    hide NanopbDecode.GetVarint32, NanopbDecode.GetVarint64, Varint, LittleEndian, FromLittleEndian, SignedFrom,
        SignExtended, ZigZagFrom, ZigZagOf;
    match t
    case Bool => Varint32Reads(n, rest);
    case SignedVarint(bits) =>
      SignRoundTrip(bits, n);
      Varint64Reads(SignExtended(n), rest);
    case UnsignedVarint(_) => Varint64Reads(n, rest);
    case ZigZag(_) =>
      ZigZagRoundTrip(n);
      Varint64Reads(ZigZagOf(n), rest);
    case Fixed32 =>
      FixedCapacities();
      LittleEndianRoundTrip(n, 4);
      ReadFront(LittleEndian(n, 4), rest);
    case Fixed64 =>
      FixedCapacities();
      LittleEndianRoundTrip(n, 8);
      ReadFront(LittleEndian(n, 8), rest);
  }

  lemma {:induction false} ReadFront(b: Bytes, rest: Bytes)
    ensures Take(b + rest, |b|) == Some((b, rest))
  {
    assert (b + rest)[..|b|] == b && (b + rest)[|b|..] == rest;
  }

  lemma {:induction false} DelimitedReads(b: Bytes, rest: Bytes)
    requires |b| < TWO_32
    ensures GetDelimited(LengthPrefixed(b) + rest) == Some((b, rest))
    ensures NanopbDecode.GetVarint32(LengthPrefixed(b) + rest) == Some((|b|, b + rest))
    ensures (b + rest)[..|b|] == b && (b + rest)[|b|..] == rest
  {
    hide NanopbDecode.GetVarint32, Varint;
    assert LengthPrefixed(b) + rest == Varint(|b|) + (b + rest);
    Varint32Reads(|b|, b + rest);
    ReadFront(b, rest);
  }

  lemma {:induction false} NoZeroInside(b: Bytes)
    requires 0 !in b
    ensures UpToZero(b) == b
    decreases |b|
  {
    if b != [] {
      assert b[0] in b;
      NoZeroInside(b[1..]);
      assert b == [b[0]] + b[1..];
    }
  }

  lemma {:induction false} BlobRoundTrip(t: LType, v: Value, rest: Bytes)
    requires (t.BytesOf? || t.StringOf? || t.FixedBytes?) && FitsValue(t, v)
    ensures GetBlob(t, EncodedValue(t, v) + rest) == Some((v, rest))
  {
    hide NanopbDecode.GetVarint32, LengthPrefixed;
    DelimitedReads(v.b, rest);
    if t.StringOf? {
      NoZeroInside(v.b);
    }
    if t.FixedBytes? && t.size == 0 {
      assert v.b == [] && v.b + rest == rest;
      assert seq(0, _ => 0) == v.b;
    }
  }

  /** The encoder takes a string that fills its buffer to the last byte, the decoder does not: a
      string without a zero byte comes back if and only if there was room for its terminator. */
  lemma {:induction false} StringNeedsTerminator(size: nat, b: Bytes, rest: Bytes)
    requires 0 !in b && |b| < TWO_32
    ensures GetBlob(StringOf(size), LengthPrefixed(b) + rest)
         == if |b| < size && |b| + 1 < TWO_32 then Some((Blob(b), rest)) else None
  {
    hide NanopbDecode.GetVarint32, LengthPrefixed;
    DelimitedReads(b, rest);
    NoZeroInside(b);
  }

  // ---------- Schemas ----------

  const TAG_LIMIT: nat := 0x2000_0000

  ghost predicate TypeOk(t: LType)
    decreases t
  {
    t.SubMessage? ==> SchemaOk(t.fields)
  }

  ghost predicate MembersOk(ms: Members)
    decreases ms
  {
    ms.NoMembers? || (1 <= ms.tag < TAG_LIMIT && TypeOk(ms.ltype) && FindMember(ms.tail, ms.tag).None?
        && MembersOk(ms.tail))
  }

  ghost predicate FieldOk(f: Field)
    decreases f
  {
    match f
    case OneOf(ms) => ms.MembersOf? && MembersOk(ms)
    case _ => 1 <= f.tag < TAG_LIMIT && TypeOk(f.ltype)
  }

  /** Tags are positive, have 29 bits and are used once; a oneof has members. */
  ghost predicate SchemaOk(fs: Fields)
    decreases fs
  {
    fs.NoFields? ||
    (FieldOk(fs.head) && SchemaOk(fs.tail)
     && forall tag: nat | MatchField(fs.head, tag).Some? :: FindField(fs.tail, tag).None?)
  }

  lemma {:induction false} FindsField(fs: Fields, i: nat, tag: nat)
    requires SchemaOk(fs) && i < Count(fs) && MatchField(FieldAt(fs, i), tag).Some?
    ensures FindField(fs, tag) == Some((i, MatchField(FieldAt(fs, i), tag).value))
    decreases i
  {
    if i > 0 {
      FindsField(fs.tail, i - 1, tag);
    }
  }

  lemma {:induction false} FieldOfSchema(fs: Fields, i: nat)
    requires SchemaOk(fs) && i < Count(fs)
    ensures FieldOk(FieldAt(fs, i))
    decreases i
  {
    if i > 0 {
      FieldOfSchema(fs.tail, i - 1);
    }
  }

  lemma {:induction false} MemberFacts(ms: Members, i: nat)
    requires MembersOk(ms) && i < MemberCount(ms)
    ensures 1 <= MemberTag(ms, i) < TAG_LIMIT && TypeOk(MemberType(ms, i))
        && FindMember(ms, MemberTag(ms, i)) == Some(i)
    decreases i
  {
    if i > 0 {
      MemberFacts(ms.tail, i - 1);
    }
  }

  // ---------- One field ----------

  lemma {:induction false} KeyReads(tag: nat, wireType: nat, rest: Bytes)
    requires 1 <= tag < TAG_LIMIT && wireType < 8
    ensures NanopbDecode.GetVarint32(EncodedTag(tag, wireType) + rest) == Some((tag * 8 + wireType, rest))
    ensures (tag * 8 + wireType) / 8 == tag && (tag * 8 + wireType) % 8 == wireType && tag * 8 + wireType != 0
  {
    Varint32Reads(tag * 8 + wireType, rest);
  }

  /** A tag, and what its field makes of the rest. */
  lemma {:induction false} OneField(all: Fields, slots: seq<Slot>, seen: set<nat>, i: nat, tag: nat, wireType: nat,
      rest: Bytes)
    requires SchemaOk(all) && |slots| == Count(all) && i < Count(all) && MatchField(FieldAt(all, i), tag).Some?
    requires 1 <= tag < TAG_LIMIT && wireType < 8
    ensures DecodedFields(all, slots, seen, EncodedTag(tag, wireType) + rest)
         == match DecodedSlot(FieldAt(all, i), slots[i], wireType, MatchField(FieldAt(all, i), tag).value, rest)
            case None => None
            case Some((s, rest')) =>
              DecodedFields(all, slots[i := s], if FieldAt(all, i).Required? then seen + {i} else seen, rest')
  {
    hide DecodedSlot, NanopbDecode.GetVarint32, EncodedTag, SchemaOk, AllSeen;
    KeyReads(tag, wireType, rest);
    FindsField(all, i, tag);
  }

  lemma {:induction false} WireTypesAreSmall(t: LType)
    ensures WireType(t) < 8
  {
  }
}
