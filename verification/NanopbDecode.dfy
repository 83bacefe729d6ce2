/** nanopb: the decoder. */
module NanopbDecode {
  import opened Format
  import opened Coding
  import opened NanopbFormat

  // ---------- Varints ----------

  /** Bitwise or. */
  function Or(a: nat, b: nat): nat {
    if a == 0 then b else 2 * Or(a / 2, b / 2) + if a % 2 == 1 || b % 2 == 1 then 1 else 0
  }

  function Power2(n: nat): (r: nat)
    ensures r >= 1
  {
    if n == 0 then 1 else 2 * Power2(n - 1)
  }

  /** Seven bits of a byte, put into a 32-bit word at a position. */
  function WithGroup(result: nat, b: nat, position: nat): nat {
    Or(result, (b % 128 * Power2(position)) % TWO_32)
  }

  /** The position of the next group, which is kept in eight bits. */
  function NextPosition(position: nat): nat {
    (position + 7) % 256
  }

  /** The rest of a 32-bit varint. Groups past 32 bits may only extend the sign, until the position
      wraps. */
  function MoreVarint32(input: Bytes, result: nat, position: nat): (r: Option<(nat, Bytes)>)
    ensures r.Some? ==> |r.value.1| < |input|
    decreases |input|
  {
    if input == [] then None
    else
      var b: nat := input[0];
      var extension := if position < 63 then 0xFF else 0x01;
      if position >= 32 && b % 128 != 0 && (result < 0x8000_0000 || b != extension) then None
      else
        var result' := if position >= 32 then result else WithGroup(result, b, position);
        if b >= 128 then MoreVarint32(input[1..], result', NextPosition(position))
        else if NextPosition(position) == 35 && b % 128 >= 16 then None
        else Some((result', input[1..]))
  }

  function GetVarint32(input: Bytes): (r: Option<(nat, Bytes)>)
    ensures r.Some? ==> |r.value.1| < |input|
  {
    if input == [] then None
    else if input[0] < 128 then Some((input[0] as nat, input[1..]))
    else MoreVarint32(input[1..], (input[0] as nat) - 128, 7)
  }

  function MoreVarint64(input: Bytes, result: nat, k: nat): (r: Option<(nat, Bytes)>)
    ensures r.Some? ==> |r.value.1| < |input|
    decreases |input|
  {
    if k >= 10 || input == [] then None
    else
      var b: nat := input[0];
      var result' := result + (b % 128 * Power128(k)) % TWO_64;
      if b >= 128 then MoreVarint64(input[1..], result', k + 1) else Some((result', input[1..]))
  }

  function GetVarint64(input: Bytes): (r: Option<(nat, Bytes)>)
    ensures r.Some? ==> |r.value.1| < |input|
  {
    MoreVarint64(input, 0, 0)
  }

  function SkipVarint(input: Bytes): (r: Option<Bytes>)
    ensures r.Some? ==> |r.value| < |input|
    decreases |input|
  {
    if input == [] then None
    else if input[0] >= 128 then SkipVarint(input[1..])
    else Some(input[1..])
  }

  function Take(input: Bytes, n: nat): (r: Option<(Bytes, Bytes)>)
    ensures r.Some? ==> |r.value.0| == n && |r.value.1| == |input| - n
  {
    if n <= |input| then Some((input[..n], input[n..])) else None
  }

  function GetDelimited(input: Bytes): (r: Option<(Bytes, Bytes)>)
    ensures r.Some? ==> |r.value.0| < |input| && |r.value.1| < |input|
  {
    match GetVarint32(input)
    case None => None
    case Some((n, rest)) => Take(rest, n)
  }

  // ---------- Values ----------

  function ToSigned64(n: nat): int {
    if n < 0x8000_0000_0000_0000 then n else n - TWO_64
  }

  function ToSigned32(n: nat): int {
    if n % TWO_32 < 0x8000_0000 then n % TWO_32 else n % TWO_32 - TWO_32
  }

  /** A negative 32-bit value may be written with or without sign extension. */
  function SignedFrom(bits: nat, n: nat): int {
    if bits == 64 then ToSigned64(n) else ToSigned32(n)
  }

  function ZigZagFrom(n: nat): int {
    if n % 2 == 1 then -(n / 2) - 1 else n / 2
  }

  /** A value that is too large for its field is an error. */
  function Checked(ok: bool, n: int, rest: Bytes): Option<(Value, Bytes)> {
    if ok then Some((Int(n), rest)) else None
  }

  function GetInt(t: LType, input: Bytes): (r: Option<(Value, Bytes)>)
    requires Packable(t)
    ensures r.Some? ==> |r.value.1| < |input|
  {
    match t
    case Bool =>
      (match GetVarint32(input)
       case None => None
       case Some((n, rest)) => Some((Int(if n != 0 then 1 else 0), rest)))
    case SignedVarint(bits) =>
      (match GetVarint64(input)
       case None => None
       case Some((n, rest)) => Checked(Signed(bits, SignedFrom(bits, n)), SignedFrom(bits, n), rest))
    case UnsignedVarint(bits) =>
      (match GetVarint64(input)
       case None => None
       case Some((n, rest)) => Checked(Unsigned(bits, n), n, rest))
    case ZigZag(bits) =>
      (match GetVarint64(input)
       case None => None
       case Some((n, rest)) => Checked(Signed(bits, ZigZagFrom(n)), ZigZagFrom(n), rest))
    case Fixed32 =>
      (match Take(input, 4)
       case None => None
       case Some((b, rest)) => Some((Int(FromLittleEndian(b)), rest)))
    case Fixed64 =>
      (match Take(input, 8)
       case None => None
       case Some((b, rest)) => Some((Int(FromLittleEndian(b)), rest)))
  }

  /** What a string buffer holds: the bytes before the first zero. */
  function UpToZero(b: Bytes): Bytes {
    if b == [] || b[0] == 0 then [] else [b[0]] + UpToZero(b[1..])
  }

  function GetBlob(t: LType, input: Bytes): (r: Option<(Value, Bytes)>)
    requires t.BytesOf? || t.StringOf? || t.FixedBytes?
    ensures r.Some? ==> |r.value.1| < |input|
  {
    match GetVarint32(input)
    case None => None
    case Some((n, rest)) =>
      match t
      case BytesOf(size) =>
        if n > size || n > |rest| then None else Some((Blob(rest[..n]), rest[n..]))
      case StringOf(size) =>
        if n + 1 >= TWO_32 || n + 1 > size || n > |rest| then None else Some((Blob(UpToZero(rest[..n])), rest[n..]))
      case FixedBytes(size) =>
        if n == 0 then Some((Blob(seq(size, _ => 0)), rest))
        else if n != size || n > |rest| then None
        else Some((Blob(rest[..n]), rest[n..]))
  }

  // ---------- Fields ----------

  /** The field with a tag, and which member of it when it is a oneof. */
  function FindMember(ms: Members, tag: nat): (r: Option<nat>)
    ensures r.Some? ==> r.value < MemberCount(ms) && MemberTag(ms, r.value) == tag
  {
    if ms.NoMembers? then None
    else if ms.tag == tag then Some(0)
    else
      match FindMember(ms.tail, tag)
      case None => None
      case Some(i) => Some(i + 1)
  }

  function MatchField(f: Field, tag: nat): (r: Option<nat>)
    ensures r.Some? && f.OneOf? ==> r.value < MemberCount(f.members)
  {
    match f
    case OneOf(ms) => FindMember(ms, tag)
    case _ => if f.tag == tag then Some(0) else None
  }

  function FieldAt(fs: Fields, i: nat): Field
    requires i < Count(fs)
  {
    if i == 0 then fs.head else FieldAt(fs.tail, i - 1)
  }

  function FindField(fs: Fields, tag: nat): (r: Option<(nat, nat)>)
    ensures r.Some? ==> r.value.0 < Count(fs) && MatchField(FieldAt(fs, r.value.0), tag) == Some(r.value.1)
  {
    if fs.NoFields? then None
    else if MatchField(fs.head, tag).Some? then Some((0, MatchField(fs.head, tag).value))
    else
      match FindField(fs.tail, tag)
      case None => None
      case Some((i, m)) => Some((i + 1, m))
  }

  /** The number of required fields before a place. */
  function RequiredIndex(fs: Fields, i: nat): nat
    requires i <= Count(fs)
  {
    if i == 0 then 0 else (if fs.head.Required? then 1 else 0) + RequiredIndex(fs.tail, i - 1)
  }

  const MAX_REQUIRED_FIELDS: nat := 64

  /** Presence is only recorded, and checked, for the first 64 required fields. */
  predicate AllSeen(fs: Fields, seen: set<nat>) {
    forall i | 0 <= i < Count(fs) :: FieldAt(fs, i).Required? && RequiredIndex(fs, i) < MAX_REQUIRED_FIELDS ==>
        i in seen
  }

  function SkipField(wireType: nat, input: Bytes): (r: Option<Bytes>)
    ensures r.Some? ==> |r.value| <= |input|
  {
    match wireType
    case 0 => SkipVarint(input)
    case 1 => (match Take(input, 8) case None => None case Some((_, rest)) => Some(rest))
    case 2 => (match GetDelimited(input) case None => None case Some((_, rest)) => Some(rest))
    case 5 => (match Take(input, 4) case None => None case Some((_, rest)) => Some(rest))
    case _ => None
  }

  /** A field that no entry of the table has is skipped. The table of an empty message type is its
      terminator, which is found for tag 0 and read as a boolean that goes nowhere. */
  function SkipUnknown(fs: Fields, key: nat, input: Bytes): (r: Option<Bytes>)
    ensures r.Some? ==> |r.value| <= |input|
  {
    if fs.NoFields? && key / 8 == 0
    then (match GetVarint32(input) case None => None case Some((_, rest)) => Some(rest))
    else SkipField(key % 8, input)
  }

  // ---------- Decoding ----------

  /** Decode a value. A submessage is merged into the current one, unless it is to be new. */
  function DecodedValue(t: LType, current: Value, input: Bytes, isNew: bool): (r: Option<(Value, Bytes)>)
    ensures r.Some? ==> |r.value.1| < |input|
    decreases |input|, 0
  {
    match t
    case SubMessage(fields) =>
      (match GetDelimited(input)
       case None => None
       case Some((inner, rest)) =>
         var start := if isNew || !current.Message? || |current.slots| != Count(fields) then Defaults(fields)
             else current.slots;
         match DecodedFields(fields, start, {}, inner)
         case None => None
         case Some(slots) => Some((Message(slots), rest)))
    case BytesOf(_) => GetBlob(t, input)
    case StringOf(_) => GetBlob(t, input)
    case FixedBytes(_) => GetBlob(t, input)
    case _ => GetInt(t, input)
  }

  /** A packed array must end with its bytes, and not hold too many elements. */
  function DecodedItems(t: LType, vs: seq<Value>, max: nat, input: Bytes): Option<seq<Value>>
    decreases |input|, 1
  {
    if input == [] then Some(vs)
    else if |vs| >= max then None
    else
      match DecodedValue(t, Int(0), input, true)
      case None => None
      case Some((v, rest)) => DecodedItems(t, vs + [v], max, rest)
  }

  function DecodedSlot(f: Field, s: Slot, wireType: nat, member: nat, input: Bytes): (r: Option<(Slot, Bytes)>)
    requires f.OneOf? ==> member < MemberCount(f.members)
    ensures r.Some? ==> |r.value.1| < |input|
    decreases |input|, 2
  {
    match f
    case Required(_, t) =>
      (match DecodedValue(t, if s.Single? then s.v else DefaultValue(t), input, false)
       case None => None
       case Some((v, rest)) => Some((Single(v), rest)))
    case Optional(_, t) =>
      (match DecodedValue(t, if s.Maybe? && s.o.Some? then s.o.value else DefaultValue(t), input, false)
       case None => None
       case Some((v, rest)) => Some((Maybe(Some(v)), rest)))
    case Implicit(_, t) =>
      (match DecodedValue(t, if s.Single? then s.v else DefaultValue(t), input, false)
       case None => None
       case Some((v, rest)) => Some((Single(v), rest)))
    case Repeated(_, t, max) =>
      var vs := if s.Many? then s.vs else [];
      if wireType == WT_STRING && Packable(t) then
        (match GetDelimited(input)
         case None => None
         case Some((inner, rest)) =>
           match DecodedItems(t, vs, max, inner)
           case None => None
           case Some(vs') => Some((Many(vs'), rest)))
      else if |vs| >= max then None
      else
        (match DecodedValue(t, DefaultValue(t), input, true)
         case None => None
         case Some((v, rest)) => Some((Many(vs + [v]), rest)))
    case OneOf(ms) =>
      var t := MemberType(ms, member);
      var current := if s.Choice? && s.c.Some? && s.c.value.0 == member then s.c.value.1 else DefaultValue(t);
      match DecodedValue(t, current, input, false)
      case None => None
      case Some((v, rest)) => Some((Choice(Some((member, v))), rest))
  }

  /** Read fields until the input ends, or a zero tag ends the message early. */
  function DecodedFields(fs: Fields, slots: seq<Slot>, seen: set<nat>, input: Bytes): (r: Option<seq<Slot>>)
    requires |slots| == Count(fs)
    ensures r.Some? ==> |r.value| == Count(fs)
    decreases |input|, 3
  {
    if input == [] then if AllSeen(fs, seen) then Some(slots) else None
    else
      match GetVarint32(input)
      case None => None
      case Some((key, rest)) =>
        if key == 0 then if AllSeen(fs, seen) then Some(slots) else None
        else
          match FindField(fs, key / 8)
          case None =>
            (match SkipUnknown(fs, key, rest)
             case None => None
             case Some(rest') => DecodedFields(fs, slots, seen, rest'))
          case Some((i, m)) =>
            var f := FieldAt(fs, i);
            match DecodedSlot(f, slots[i], key % 8, m, rest)
            case None => None
            case Some((s, rest')) => DecodedFields(fs, slots[i := s], if f.Required? then seen + {i} else seen, rest')
  }

  /** Decode a whole message. */
  function Decoded(fs: Fields, input: Bytes): Option<seq<Slot>> {
    DecodedFields(fs, Defaults(fs), {}, input)
  }

  // ---------- The loops ----------

  method DecodeVarint32(input: Bytes) returns (r: Option<(nat, Bytes)>)
    ensures r == GetVarint32(input)
  {
    if input == [] {
      return None;
    }
    var byte: nat := input[0];
    var rest := input[1..];
    if byte < 128 {
      return Some((byte, rest));
    }
    var result: nat, bitpos: nat := byte - 128, 7;
    while byte >= 128
      invariant byte >= 128 ==> GetVarint32(input) == MoreVarint32(rest, result, bitpos)
      invariant byte < 128 ==>
        GetVarint32(input) == if bitpos == 35 && byte % 128 >= 16 then None else Some((result, rest))
      decreases byte >= 128, |rest|
    {
      if rest == [] {
        return None;
      }
      byte := rest[0];
      if bitpos >= 32 {
        var signExtension := if bitpos < 63 then 0xFF else 0x01;
        if byte % 128 != 0 && (result < 0x8000_0000 || byte != signExtension) {
          return None;
        }
      } else {
        result := WithGroup(result, byte, bitpos);
      }
      rest, bitpos := rest[1..], (bitpos + 7) % 256;
    }
    if bitpos == 35 && byte % 128 >= 16 {
      return None;
    }
    r := Some((result, rest));
  }

  method DecodeVarint(input: Bytes) returns (r: Option<(nat, Bytes)>)
    ensures r == GetVarint64(input)
  {
    var result: nat, k: nat, power: nat, rest := 0, 0, 1, input;
    while true
      invariant power == Power128(k) && GetVarint64(input) == MoreVarint64(rest, result, k)
      decreases |rest|
    {
      if k >= 10 || rest == [] {
        return None;
      }
      var byte: nat := rest[0];
      result := result + (byte % 128 * power) % TWO_64;
      rest := rest[1..];
      if byte < 128 {
        return Some((result, rest));
      }
      k, power := k + 1, 128 * power;
    }
  }
}
