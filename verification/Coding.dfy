/** Variable-length integers and length-prefixed strings. */
module Coding {
  import opened Format

  const TWO_32: nat := 0x1_0000_0000
  const TWO_64: nat := 0x1_0000_0000_0000_0000

  /** Seven bits to a byte, least significant first; the high bit says that more follow. */
  function Varint(v: nat): (r: Bytes)
    ensures r != []
  {
    if v < 128 then [v] else [v % 128 + 128] + Varint(v / 128)
  }

  /** The value of at most `limit` bytes, and how many were used. */
  function ReadVarint(input: Bytes, limit: nat): (r: Option<(nat, nat)>)
    ensures r.Some? ==> 0 < r.value.1 <= |input|
    decreases limit
  {
    if limit == 0 || input == [] then None
    else if input[0] < 128 then Some((input[0] as nat, 1))
    else
      match ReadVarint(input[1..], limit - 1)
      case None => None
      case Some((v, n)) => Some(((input[0] as nat) - 128 + 128 * v, n + 1))
  }

  function Power128(k: nat): (r: nat)
    ensures r >= 1
  {
    if k == 0 then 1 else 128 * Power128(k - 1)
  }

  /** A varint decodes to its value, whatever follows it. */
  lemma {:induction false} VarintRoundTrip(v: nat, limit: nat, rest: Bytes)
    requires limit > 0 && v < Power128(limit)
    ensures ReadVarint(Varint(v) + rest, limit) == Some((v, |Varint(v)|))
    decreases limit
  {
    if v >= 128 {
      VarintRoundTrip(v / 128, limit - 1, rest);
      assert (Varint(v) + rest)[1..] == Varint(v / 128) + rest;
    }
  }

  lemma {:induction false} Capacities()
    ensures TWO_32 <= Power128(5) && TWO_64 <= Power128(10)
  {
    assert Power128(5) == 128 * Power128(4) && Power128(4) == 128 * Power128(3) && Power128(3) == 128 * Power128(2);
    assert Power128(2) == 128 * Power128(1) && Power128(1) == 128;
    assert Power128(10) == 128 * Power128(9) && Power128(9) == 128 * Power128(8) && Power128(8) == 128 * Power128(7);
    assert Power128(7) == 128 * Power128(6) && Power128(6) == 128 * Power128(5);
  }

  // ---------- Reading from the front of a slice ----------

  /** Bits beyond the width of the result are shifted out. */
  function GetVarint32(input: Bytes): (r: Option<(nat, Bytes)>)
    ensures r.Some? ==> |r.value.1| < |input| && r.value.0 < TWO_32
  {
    match ReadVarint(input, 5)
    case None => None
    case Some((v, n)) => Some((v % TWO_32, input[n..]))
  }

  function GetVarint64(input: Bytes): (r: Option<(nat, Bytes)>)
    ensures r.Some? ==> |r.value.1| < |input| && r.value.0 < TWO_64
  {
    match ReadVarint(input, 10)
    case None => None
    case Some((v, n)) => Some((v % TWO_64, input[n..]))
  }

  /** A varint ends with the first byte below 128, which must come soon enough. */
  ghost predicate EndsAt(input: Bytes, n: nat) {
    n < |input| && input[n] < 128 && forall i | 0 <= i < n :: input[i] >= 128
  }

  lemma {:induction false} VarintEnds(input: Bytes, limit: nat)
    ensures match ReadVarint(input, limit)
            case None => !exists n: nat :: n < limit && EndsAt(input, n)
            case Some((v, k)) => k <= limit && EndsAt(input, k - 1)
    decreases limit
  {
    if limit > 0 && input != [] && input[0] >= 128 {
      VarintEnds(input[1..], limit - 1);
      forall n: nat | n < limit && EndsAt(input, n) ensures n > 0 && EndsAt(input[1..], n - 1) {
      }
    }
  }

  /** Numbers of 32 bits have at most five bytes, those of 64 bits ten; longer ones are refused. */
  lemma {:induction false} VarintsAreShort(input: Bytes)
    ensures match GetVarint32(input)
            case None => !exists n: nat :: n < 5 && EndsAt(input, n)
            case Some((_, rest)) => exists n: nat :: n < 5 && EndsAt(input, n) && rest == input[n + 1..]
    ensures match GetVarint64(input)
            case None => !exists n: nat :: n < 10 && EndsAt(input, n)
            case Some((_, rest)) => exists n: nat :: n < 10 && EndsAt(input, n) && rest == input[n + 1..]
  {
    hide EndsAt;
    VarintEnds(input, 5);
    VarintEnds(input, 10);
    if GetVarint32(input).Some? {
      assert EndsAt(input, ReadVarint(input, 5).value.1 - 1);
    }
    if GetVarint64(input).Some? {
      assert EndsAt(input, ReadVarint(input, 10).value.1 - 1);
    }
  }

  function GetLengthPrefixedSlice(input: Bytes): (r: Option<(Bytes, Bytes)>)
    ensures r.Some? ==> |r.value.1| < |input| && |r.value.0| < TWO_32
  {
    match GetVarint32(input)
    case None => None
    case Some((n, rest)) => if n <= |rest| then Some((rest[..n], rest[n..])) else None
  }

  function LengthPrefixed(s: Bytes): Bytes {
    Varint(|s|) + s
  }

  lemma {:induction false} Varint32RoundTrip(v: nat, rest: Bytes)
    requires v < TWO_32
    ensures GetVarint32(Varint(v) + rest) == Some((v, rest))
  {
    Capacities();
    VarintRoundTrip(v, 5, rest);
    assert (Varint(v) + rest)[|Varint(v)|..] == rest;
  }

  lemma {:induction false} Varint64RoundTrip(v: nat, rest: Bytes)
    requires v < TWO_64
    ensures GetVarint64(Varint(v) + rest) == Some((v, rest))
  {
    Capacities();
    VarintRoundTrip(v, 10, rest);
    assert (Varint(v) + rest)[|Varint(v)|..] == rest;
  }

  lemma {:induction false} LengthPrefixedRoundTrip(s: Bytes, rest: Bytes)
    requires |s| < TWO_32
    ensures GetLengthPrefixedSlice(LengthPrefixed(s) + rest) == Some((s, rest))
  {
    hide GetVarint32;
    assert LengthPrefixed(s) + rest == Varint(|s|) + (s + rest);
    Varint32RoundTrip(|s|, s + rest);
    assert (s + rest)[..|s|] == s && (s + rest)[|s|..] == rest;
  }

  // ---------- Fixed-size numbers ----------

  function LittleEndian(n: nat, size: nat): (r: Bytes)
    ensures |r| == size
  {
    if size == 0 then [] else [n % 256] + LittleEndian(n / 256, size - 1)
  }

  function FromLittleEndian(b: Bytes): nat {
    if b == [] then 0 else (b[0] as nat) + 256 * FromLittleEndian(b[1..])
  }

  function Power256(k: nat): nat {
    if k == 0 then 1 else 256 * Power256(k - 1)
  }

  lemma {:induction false} LittleEndianRoundTrip(n: nat, size: nat)
    requires n < Power256(size)
    ensures FromLittleEndian(LittleEndian(n, size)) == n
    decreases size
  {
    if size > 0 {
      LittleEndianRoundTrip(n / 256, size - 1);
      var b := LittleEndian(n, size);
      assert b[1..] == LittleEndian(n / 256, size - 1);
    }
  }

  /** And the other way round: bytes are those of their number. */
  lemma {:induction false} LittleEndianBack(b: Bytes)
    ensures LittleEndian(FromLittleEndian(b), |b|) == b && FromLittleEndian(b) < Power256(|b|)
  {
    if b != [] {
      LittleEndianBack(b[1..]);
      assert FromLittleEndian(b) / 256 == FromLittleEndian(b[1..]) && FromLittleEndian(b) % 256 == b[0] as nat;
      assert b == [b[0]] + b[1..];
    }
  }

  lemma {:induction false} FixedCapacities()
    ensures Power256(4) == TWO_32 && Power256(8) == TWO_64
  {
    assert Power256(2) == 0x1_0000 && Power256(3) == 0x100_0000;
    assert Power256(5) == 0x100_0000_0000 && Power256(6) == 0x1_0000_0000_0000 && Power256(7) == 0x100_0000_0000_0000;
  }

  // ---------- The loops ----------

  method EncodeVarint32(v: nat) returns (r: Bytes)
    requires v < TWO_32
    ensures r == Varint(v)
  {
    ShiftedTwice(v);
    if v < 0x80 {
      r := [v];
    } else if v < 0x4000 {
      r := [v % 128 + 128, v / 0x80];
      assert r[1..] == Varint(v / 0x80);
    } else if v < 0x20_0000 {
      r := [v % 128 + 128, v / 0x80 % 128 + 128, v / 0x4000];
      assert r[2..] == Varint(v / 0x4000);
      assert r[1..] == [r[1]] + r[2..] == Varint(v / 0x80);
    } else if v < 0x1000_0000 {
      r := [v % 128 + 128, v / 0x80 % 128 + 128, v / 0x4000 % 128 + 128, v / 0x20_0000];
      assert r[3..] == Varint(v / 0x20_0000);
      assert r[2..] == [r[2]] + r[3..] == Varint(v / 0x4000);
      assert r[1..] == [r[1]] + r[2..] == Varint(v / 0x80);
    } else {
      r := [v % 128 + 128, v / 0x80 % 128 + 128, v / 0x4000 % 128 + 128, v / 0x20_0000 % 128 + 128, v / 0x1000_0000];
      assert r[4..] == Varint(v / 0x1000_0000);
      assert r[3..] == [r[3]] + r[4..] == Varint(v / 0x20_0000);
      assert r[2..] == [r[2]] + r[3..] == Varint(v / 0x4000);
      assert r[1..] == [r[1]] + r[2..] == Varint(v / 0x80);
    }
    assert r == if v < 128 then [v] else [v % 128 + 128] + r[1..];
  }

  /** Shifting seven bits at a time is shifting all at once. */
  lemma {:induction false} ShiftedTwice(v: nat)
    ensures v / 128 / 128 == v / 0x4000 && v / 0x4000 / 128 == v / 0x20_0000 && v / 0x20_0000 / 128 == v / 0x1000_0000
  {
  }

  method EncodeVarint64(v: nat) returns (r: Bytes)
    requires v < TWO_64
    ensures r == Varint(v)
  {
    var n := v;
    r := [];
    while n >= 128
      invariant r + Varint(n) == Varint(v)
    {
      r := r + [n % 128 + 128];
      n := n / 128;
    }
    r := r + [n];
  }

  /** The common loop of both decoders; `limit` is 5 or 10 bytes. */
  method GetVarintPtr(input: Bytes, limit: nat) returns (r: Option<(nat, nat)>)
    ensures r == ReadVarint(input, limit)
  {
    hide ReadVarint;
    var result: nat, weight: nat, p: nat := 0, 1, 0;
    assert input[0..] == input;
    while p < limit && p < |input|
      invariant p <= limit && p <= |input|
      invariant ReadVarint(input, limit) == Shifted(result, weight, p, ReadVarint(input[p..], limit - p))
    {
      var byte: nat := input[p];
      ReadVarintStep(input, limit, p, result, weight);
      if byte >= 128 {
        result := result + (byte - 128) * weight;
      } else {
        return Some((result + byte * weight, p + 1));
      }
      p, weight := p + 1, 128 * weight;
    }
    ReadVarintEnds(input, limit, p);
    return None;
  }

  /** What remains to be read, put above what has been read. */
  function Shifted(result: nat, weight: nat, p: nat, rest: Option<(nat, nat)>): Option<(nat, nat)> {
    match rest
    case None => None
    case Some((v, n)) => Some((result + weight * v, p + n))
  }

  lemma {:induction false} ReadVarintEnds(input: Bytes, limit: nat, p: nat)
    requires p <= limit && p <= |input| && (p == limit || p == |input|)
    ensures ReadVarint(input[p..], limit - p) == None
  {
  }

  lemma {:induction false} ReadVarintStep(input: Bytes, limit: nat, p: nat, result: nat, weight: nat)
    requires p < limit && p < |input|
    ensures var byte: nat := input[p];
            Shifted(result, weight, p, ReadVarint(input[p..], limit - p)) ==
              if byte < 128 then Some((result + byte * weight, p + 1))
              else Shifted(result + (byte - 128) * weight, 128 * weight, p + 1,
                  ReadVarint(input[p + 1..], limit - p - 1))
  {
    hide Shifted;
    var byte: nat := input[p];
    var rest := ReadVarint(input[p + 1..], limit - p - 1);
    ReadVarintNext(input, limit, p);
    if byte >= 128 {
      ShiftedNext(result, weight, p, byte - 128, rest);
    } else {
      ShiftedLast(result, weight, p, byte);
    }
  }

  /** The value of a varint from that of all but its first byte. */
  function Prefixed(low: nat, rest: Option<(nat, nat)>): Option<(nat, nat)> {
    match rest
    case None => None
    case Some((v, n)) => Some((low + 128 * v, n + 1))
  }

  lemma {:induction false} ReadVarintNext(input: Bytes, limit: nat, p: nat)
    requires p < limit && p < |input|
    ensures var byte: nat := input[p];
            ReadVarint(input[p..], limit - p) ==
              if byte < 128 then Some((byte, 1)) else Prefixed(byte - 128, ReadVarint(input[p + 1..], limit - p - 1))
  {
    assert input[p..][1..] == input[p + 1..];
  }

  lemma {:induction false} ShiftedLast(result: nat, weight: nat, p: nat, byte: nat)
    ensures Shifted(result, weight, p, Some((byte, 1))) == Some((result + byte * weight, p + 1))
  {
  }

  lemma {:induction false} ShiftedNext(result: nat, weight: nat, p: nat, low: nat, rest: Option<(nat, nat)>)
    ensures Shifted(result, weight, p, Prefixed(low, rest)) == Shifted(result + low * weight, 128 * weight, p + 1, rest)
  {
    if rest.Some? {
      Weighed(weight, low, rest.value.0);
    }
  }

  lemma {:induction false} Weighed(weight: nat, low: nat, high: nat)
    ensures weight * (low + 128 * high) == low * weight + 128 * weight * high
  {
  }
}
