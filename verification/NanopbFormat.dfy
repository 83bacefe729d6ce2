/** nanopb: schemas, messages, and the bytes that a message encodes to. */
module NanopbFormat {
  import opened Format
  import opened Coding

  // ---------- Schemas and messages ----------

  /** What a field holds. Integers have 8, 16, 32 or 64 bits; `size` is that of the field in the
      structure, and for byte strings the room for their bytes. */
  datatype LType =
    | Bool
    | SignedVarint(bits: nat)
    | UnsignedVarint(bits: nat)
    | ZigZag(bits: nat)
    | Fixed32
    | Fixed64
    | BytesOf(size: nat)
    | StringOf(size: nat)
    | FixedBytes(size: nat)
    | SubMessage(fields: Fields)

  /** How often a field is there. A oneof is a single field with several members. */
  datatype Field =
    | Required(tag: nat, ltype: LType)
    | Optional(tag: nat, ltype: LType)      // with a presence flag
    | Implicit(tag: nat, ltype: LType)      // present when it is not zero
    | Repeated(tag: nat, ltype: LType, max: nat)
    | OneOf(members: Members)

  datatype Fields = NoFields | FieldsOf(head: Field, tail: Fields)

  datatype Members = NoMembers | MembersOf(tag: nat, ltype: LType, tail: Members)

  datatype Value = Int(n: int) | Blob(b: Bytes) | Message(slots: seq<Slot>)

  /** A field of a message. A oneof says which member is set, by its place. */
  datatype Slot = Single(v: Value) | Maybe(o: Option<Value>) | Many(vs: seq<Value>) | Choice(c: Option<(nat, Value)>)

  function Count(fs: Fields): nat {
    if fs.NoFields? then 0 else 1 + Count(fs.tail)
  }

  function MemberCount(ms: Members): nat {
    if ms.NoMembers? then 0 else 1 + MemberCount(ms.tail)
  }

  function MemberType(ms: Members, i: nat): (t: LType)
    requires i < MemberCount(ms)
    ensures t < ms
  {
    if i == 0 then ms.ltype else MemberType(ms.tail, i - 1)
  }

  function MemberTag(ms: Members, i: nat): nat
    requires i < MemberCount(ms)
  {
    if i == 0 then ms.tag else MemberTag(ms.tail, i - 1)
  }

  predicate Packable(t: LType) {
    t.Bool? || t.SignedVarint? || t.UnsignedVarint? || t.ZigZag? || t.Fixed32? || t.Fixed64?
  }

  // ---------- Defaults ----------

  function DefaultValue(t: LType): Value {
    match t
    case BytesOf(_) => Blob([])
    case StringOf(_) => Blob([])
    case FixedBytes(size) => Blob(seq(size, _ => 0))
    case SubMessage(fields) => Message(Defaults(fields))
    case _ => Int(0)
  }

  function DefaultSlot(f: Field): Slot {
    match f
    case Required(_, t) => Single(DefaultValue(t))
    case Optional(_, _) => Maybe(None)
    case Implicit(_, t) => Single(DefaultValue(t))
    case Repeated(_, _, _) => Many([])
    case OneOf(_) => Choice(None)
  }

  function Defaults(fs: Fields): (r: seq<Slot>)
    ensures |r| == Count(fs)
  {
    if fs.NoFields? then [] else [DefaultSlot(fs.head)] + Defaults(fs.tail)
  }

  // ---------- Wire format ----------

  const WT_VARINT: nat := 0
  const WT_64BIT: nat := 1
  const WT_STRING: nat := 2
  const WT_32BIT: nat := 5

  function WireType(t: LType): nat {
    match t
    case Fixed32 => WT_32BIT
    case Fixed64 => WT_64BIT
    case BytesOf(_) => WT_STRING
    case StringOf(_) => WT_STRING
    case FixedBytes(_) => WT_STRING
    case SubMessage(_) => WT_STRING
    case _ => WT_VARINT
  }

  function EncodedTag(tag: nat, wireType: nat): Bytes {
    Varint(tag * 8 + wireType)
  }

  /** Small magnitudes, of either sign, become small numbers. */
  function ZigZagOf(n: int): nat {
    if n < 0 then -2 * n - 1 else 2 * n
  }

  /** Sign-extended to 64 bits. */
  function SignExtended(n: int): nat
    requires -0x8000_0000_0000_0000 <= n
  {
    if n < 0 then n + TWO_64 else n
  }

  predicate InRange(t: LType, n: int) {
    match t
    case Bool => n == 0 || n == 1
    case SignedVarint(bits) => Signed(bits, n)
    case UnsignedVarint(bits) => Unsigned(bits, n)
    case ZigZag(bits) => Signed(bits, n)
    case Fixed32 => 0 <= n < TWO_32
    case Fixed64 => 0 <= n < TWO_64
    case _ => false
  }

  predicate Signed(bits: nat, n: int) {
    (bits == 8 && -0x80 <= n < 0x80) || (bits == 16 && -0x8000 <= n < 0x8000)
    || (bits == 32 && -0x8000_0000 <= n < 0x8000_0000)
    || (bits == 64 && -0x8000_0000_0000_0000 <= n < 0x8000_0000_0000_0000)
  }

  predicate Unsigned(bits: nat, n: int) {
    (bits == 8 && 0 <= n < 0x100) || (bits == 16 && 0 <= n < 0x1_0000)
    || (bits == 32 && 0 <= n < TWO_32) || (bits == 64 && 0 <= n < TWO_64)
  }

  function EncodedInt(t: LType, n: int): Bytes
    requires InRange(t, n)
  {
    match t
    case Bool => Varint(n)
    case SignedVarint(_) => Varint(SignExtended(n))
    case UnsignedVarint(_) => Varint(n)
    case ZigZag(_) => Varint(ZigZagOf(n))
    case Fixed32 => LittleEndian(n, 4)
    case Fixed64 => LittleEndian(n, 8)
  }

  // ---------- Well-formed messages ----------

  /** A value its field can hold. Sizes have 32 bits at most. A string ends before its buffer does
      and has no zero byte. */
  predicate FitsValue(t: LType, v: Value)
    decreases t
  {
    match t
    case BytesOf(size) => v.Blob? && |v.b| <= size && |v.b| < TWO_32
    case StringOf(size) => v.Blob? && |v.b| < size && 0 !in v.b && |v.b| < TWO_32 - 1
    case FixedBytes(size) => v.Blob? && |v.b| == size && size < TWO_32
    case SubMessage(fields) => v.Message? && Fits(fields, v.slots) && |Encoded(fields, v.slots)| < TWO_32
    case _ => v.Int? && InRange(t, v.n)
  }

  predicate FitsSlot(f: Field, s: Slot)
    decreases f
  {
    match f
    case Required(_, t) => s.Single? && FitsValue(t, s.v)
    case Optional(_, t) => s.Maybe? && (s.o.Some? ==> FitsValue(t, s.o.value))
    case Implicit(_, t) => s.Single? && FitsValue(t, s.v)
    case Repeated(_, t, max) =>
      && s.Many? && |s.vs| <= max && (forall i | 0 <= i < |s.vs| :: FitsValue(t, s.vs[i]))
      && (Packable(t) ==> |EncodedItems(t, s.vs)| < TWO_32)
    case OneOf(ms) =>
      && s.Choice?
      && (s.c.Some? ==> s.c.value.0 < MemberCount(ms) && FitsValue(MemberType(ms, s.c.value.0), s.c.value.1))
  }

  predicate Fits(fs: Fields, slots: seq<Slot>)
    decreases fs
  {
    if fs.NoFields? then slots == [] else slots != [] && FitsSlot(fs.head, slots[0]) && Fits(fs.tail, slots[1..])
  }

  // ---------- Encoding ----------

  /** Is this what the decoder starts from? Then an implicit field is not written. */
  predicate IsDefaultValue(t: LType, v: Value)
    decreases t
  {
    match t
    case SubMessage(fields) => v.Message? && |v.slots| == Count(fields) && IsDefault(fields, v.slots)
    case BytesOf(_) => v.Blob? && v.b == []
    case StringOf(_) => v.Blob? && v.b == []
    case FixedBytes(size) => size == 0
    case _ => v.Int? && v.n == 0
  }

  predicate IsDefaultSlot(f: Field, s: Slot)
    decreases f
  {
    match f
    case Required(_, _) => false
    case Optional(_, _) => s.Maybe? && s.o.None?
    case Implicit(_, t) => s.Single? && IsDefaultValue(t, s.v)
    case Repeated(_, _, _) => s.Many? && s.vs == []
    case OneOf(_) => s.Choice? && s.c.None?
  }

  predicate IsDefault(fs: Fields, slots: seq<Slot>)
    requires |slots| == Count(fs)
    decreases fs
  {
    fs.NoFields? || (IsDefaultSlot(fs.head, slots[0]) && IsDefault(fs.tail, slots[1..]))
  }

  function EncodedValue(t: LType, v: Value): Bytes
    decreases t, 0
  {
    match t
    case BytesOf(_) => if v.Blob? then LengthPrefixed(v.b) else []
    case StringOf(_) => if v.Blob? then LengthPrefixed(v.b) else []
    case FixedBytes(_) => if v.Blob? then LengthPrefixed(v.b) else []
    case SubMessage(fields) => if v.Message? then LengthPrefixed(Encoded(fields, v.slots)) else []
    case _ => if v.Int? && InRange(t, v.n) then EncodedInt(t, v.n) else []
  }

  /** The payload of a packed array. */
  function EncodedItems(t: LType, vs: seq<Value>): Bytes
    decreases t, |vs|
  {
    if vs == [] then [] else EncodedValue(t, vs[0]) + EncodedItems(t, vs[1..])
  }

  /** One element after the other, each with its tag. */
  function EncodedEach(tag: nat, t: LType, vs: seq<Value>): Bytes
    decreases t, |vs|
  {
    if vs == [] then [] else EncodedTag(tag, WireType(t)) + EncodedValue(t, vs[0]) + EncodedEach(tag, t, vs[1..])
  }

  function EncodedSlot(f: Field, s: Slot): Bytes
    decreases f
  {
    match f
    case Required(tag, t) => if s.Single? then EncodedTag(tag, WireType(t)) + EncodedValue(t, s.v) else []
    case Optional(tag, t) =>
      if s.Maybe? && s.o.Some? then EncodedTag(tag, WireType(t)) + EncodedValue(t, s.o.value) else []
    case Implicit(tag, t) =>
      if s.Single? && !IsDefaultValue(t, s.v) then EncodedTag(tag, WireType(t)) + EncodedValue(t, s.v) else []
    case Repeated(tag, t, _) =>
      if !s.Many? || s.vs == [] then []
      else if Packable(t) then EncodedTag(tag, WT_STRING) + LengthPrefixed(EncodedItems(t, s.vs))
      else EncodedEach(tag, t, s.vs)
    case OneOf(ms) =>
      if s.Choice? && s.c.Some? && s.c.value.0 < MemberCount(ms) then
        var (i, v) := s.c.value;
        EncodedTag(MemberTag(ms, i), WireType(MemberType(ms, i))) + EncodedValue(MemberType(ms, i), v)
      else []
  }

  function Encoded(fs: Fields, slots: seq<Slot>): Bytes
    decreases fs
  {
    if fs.NoFields? || slots == [] then [] else EncodedSlot(fs.head, slots[0]) + Encoded(fs.tail, slots[1..])
  }
}
