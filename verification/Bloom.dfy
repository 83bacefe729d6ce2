/** The Bloom filter policy. The hash is any function into 32 bits. */
module Bloom {
  import opened Format
  import opened Coding

  type Word = n: nat | n < TWO_32

  const MAX_PROBES: nat := 30

  // ---------- Probes ----------

  /** Rotate right by 17 bits. */
  function Rotated(h: Word): Word {
    h / 0x2_0000 + h % 0x2_0000 * 0x8000
  }

  /** The hash after j steps of double hashing. */
  function Stepped(h: Word, j: nat): Word {
    if j == 0 then h else (Stepped(h, j - 1) + Rotated(h)) % TWO_32
  }

  function Probe(h: Word, j: nat, bits: nat): (r: nat)
    requires bits > 0
    ensures r < bits
  {
    Stepped(h, j) % bits
  }

  /** Some probe of one key falls on this bit. */
  ghost predicate Probes(h: Word, k: nat, bits: nat, position: nat)
    requires bits > 0
  {
    exists j: nat | j < k :: Probe(h, j, bits) == position
  }

  ghost predicate SomeProbes(hash: Bytes -> Word, keys: seq<Bytes>, k: nat, bits: nat, position: nat)
    requires bits > 0
  {
    exists i | 0 <= i < |keys| :: Probes(hash(keys[i]), k, bits, position)
  }

  // ---------- Bits ----------

  function BitsOf(b: Byte): bv8 {
    b as bv8
  }

  function ByteOf(b: bv8): Byte {
    b as nat
  }

  function OneBit(i: nat): bv8
    requires i < 8
  {
    (1 as bv8) << i
  }

  function Or(x: bv8, y: bv8): bv8 {
    x | y
  }

  predicate Meets(x: bv8, y: bv8) {
    x & y != 0
  }

  function WithBit(b: Byte, i: nat): Byte
    requires i < 8
  {
    ByteOf(Or(BitsOf(b), OneBit(i)))
  }

  predicate HasBit(b: Byte, i: nat)
    requires i < 8
  {
    Meets(BitsOf(b), OneBit(i))
  }

  lemma {:induction false} ByteRoundTrip(b: bv8)
    ensures BitsOf(ByteOf(b)) == b
  {
  }

  lemma {:induction false} OrKeepsBits(x: bv8, i: nat, j: nat)
    requires i < 8 && j < 8
    ensures Meets(Or(x, OneBit(i)), OneBit(j)) <==> i == j || Meets(x, OneBit(j))
  {
  }

  lemma {:induction false} OneBitSet(b: Byte, i: nat, j: nat)
    requires i < 8 && j < 8
    ensures HasBit(WithBit(b, i), j) <==> i == j || HasBit(b, j)
  {
    hide BitsOf, ByteOf, OneBit, Or, Meets;
    ByteRoundTrip(Or(BitsOf(b), OneBit(i)));
    OrKeepsBits(BitsOf(b), i, j);
  }

  lemma {:induction false} NoBits(i: nat)
    requires i < 8
    ensures !HasBit(0, i)
  {
    hide OneBit;
    assert BitsOf(0) == 0;
    assert !Meets(0, OneBit(i));
  }

  predicate Bit(a: Bytes, position: nat)
    requires position < 8 * |a|
  {
    HasBit(a[position / 8], position % 8)
  }

  function SetBit(a: Bytes, position: nat): (r: Bytes)
    requires position < 8 * |a|
    ensures |r| == |a|
  {
    a[position / 8 := WithBit(a[position / 8], position % 8)]
  }

  lemma {:induction false} SetBitSets(a: Bytes, position: nat)
    requires position < 8 * |a|
    ensures forall p | 0 <= p < 8 * |a| :: Bit(SetBit(a, position), p) <==> p == position || Bit(a, p)
  {
    hide WithBit, HasBit;
    forall p | 0 <= p < 8 * |a| ensures Bit(SetBit(a, position), p) <==> p == position || Bit(a, p) {
      OneBitSet(a[position / 8], position % 8, p % 8);
    }
  }

  // ---------- The filter ----------

  /** The hash, the bits for each key, and the number of probes: 0.69 of those bits, from 1 to 30. */
  datatype FilterPolicy = FilterPolicy(hash: Bytes -> Word, bitsPerKey: nat, k: nat) {
    predicate Valid() {
      1 <= k <= MAX_PROBES
    }

    function BytesFor(n: nat): (r: nat)
      ensures r >= 8
    {
      var bits := n * bitsPerKey;
      ((if bits < 64 then 64 else bits) + 7) / 8
    }

    /** The bits, and the number of probes. A bit is set exactly when a probe of some key falls on it. */
    ghost predicate IsFilter(keys: seq<Bytes>, filter: Bytes) {
      var n := BytesFor(|keys|);
      && |filter| == n + 1 && filter[n] == k
      && forall p | 0 <= p < 8 * n :: Bit(filter, p) <==> SomeProbes(hash, keys, k, 8 * n, p)
    }

    predicate MayMatch(key: Bytes, filter: Bytes) {
      && |filter| >= 2
      && var n := |filter| - 1;
         filter[n] > MAX_PROBES || forall j | 0 <= j < filter[n] as nat :: Bit(filter, Probe(hash(key), j, 8 * n))
    }

    /** A filter lets through exactly the keys all of whose probes the keys of the set share. */
    lemma {:induction false} MatchesExactly(keys: seq<Bytes>, filter: Bytes, key: Bytes)
      requires Valid() && IsFilter(keys, filter)
      ensures MayMatch(key, filter) <==>
              forall j | 0 <= j < k ::
                  SomeProbes(hash, keys, k, 8 * BytesFor(|keys|), Probe(hash(key), j, 8 * BytesFor(|keys|)))
    {
      hide SomeProbes, Probe, BytesFor, HasBit;
      var n := BytesFor(|keys|);
      forall j | 0 <= j < k
        ensures Bit(filter, Probe(hash(key), j, 8 * n))
            <==> SomeProbes(hash, keys, k, 8 * n, Probe(hash(key), j, 8 * n))
      {
      }
    }

    lemma {:induction false} NoFalseNegatives(keys: seq<Bytes>, filter: Bytes, i: nat)
      requires Valid() && IsFilter(keys, filter) && i < |keys|
      ensures MayMatch(keys[i], filter)
    {
      hide Bit, Probe, BytesFor, IsFilter, MayMatch;
      var bits := 8 * BytesFor(|keys|);
      forall j | 0 <= j < k ensures SomeProbes(hash, keys, k, bits, Probe(hash(keys[i]), j, bits)) {
        assert Probes(hash(keys[i]), k, bits, Probe(hash(keys[i]), j, bits));
      }
      MatchesExactly(keys, filter, keys[i]);
    }

    method CreateFilter(keys: seq<Bytes>, dst: Bytes) returns (r: Bytes)
      requires Valid()
      ensures |r| > |dst| && r[..|dst|] == dst && IsFilter(keys, r[|dst|..])
    {
      hide Stepped, Rotated, Probes, Bit, SetBit;
      var bits := |keys| * bitsPerKey;
      if bits < 64 {
        bits := 64;
      }
      var bytes := (bits + 7) / 8;
      bits := bytes * 8;
      var bitmap: Bytes := seq(bytes, _ => 0);
      Empty(bitmap);
      for i := 0 to |keys|
        invariant |bitmap| == bytes
        invariant forall p | 0 <= p < bits :: Bit(bitmap, p) <==> SomeProbes(hash, keys[..i], k, bits, p)
      {
        ghost var before := bitmap;
        var h := hash(keys[i]);
        var delta := Rotated(h);
        NoProbes(hash(keys[i]), bits);
        for j := 0 to k
          invariant |bitmap| == bytes && h == Stepped(hash(keys[i]), j)
          invariant forall p | 0 <= p < bits :: Bit(bitmap, p) <==> Bit(before, p) || Probes(hash(keys[i]), j, bits, p)
        {
          var position := h % bits;
          SetBitSets(bitmap, position);
          OneMoreProbe(hash(keys[i]), j, bits);
          bitmap := SetBit(bitmap, position);
          h := (h + delta) % TWO_32;
        }
        OneMoreKey(hash, keys, i, k, bits);
      }
      assert keys[..|keys|] == keys;
      r := dst + bitmap + [k];
      Appended(dst, bitmap, [k]);
      AsFilter(bitmap, k);
    }

    method KeyMayMatch(key: Bytes, filter: Bytes) returns (r: bool)
      ensures r <==> MayMatch(key, filter)
    {
      hide Bit, Rotated;
      if |filter| < 2 {
        return false;
      }
      var bits := 8 * (|filter| - 1);
      var probes: nat := filter[|filter| - 1];
      if probes > MAX_PROBES {
        return true;
      }
      var h := hash(key);
      var delta := Rotated(h);
      for j := 0 to probes
        invariant h == Stepped(hash(key), j)
        invariant forall i | 0 <= i < j :: Bit(filter, Probe(hash(key), i, bits))
      {
        var position := h % bits;
        if !Bit(filter, position) {
          assert !Bit(filter, Probe(hash(key), j, bits));
          return false;
        }
        StepAgain(hash(key), j);
        h := (h + delta) % TWO_32;
      }
      return true;
    }
  }

  lemma {:induction false} Empty(a: Bytes)
    requires forall i | 0 <= i < |a| :: a[i] == 0
    ensures forall p | 0 <= p < 8 * |a| :: !Bit(a, p)
  {
    hide HasBit;
    forall p | 0 <= p < 8 * |a| ensures !Bit(a, p) {
      NoBits(p % 8);
    }
  }

  lemma {:induction false} NoProbes(h: Word, bits: nat)
    requires bits > 0
    ensures forall p | 0 <= p < bits :: !Probes(h, 0, bits, p)
    ensures Stepped(h, 0) == h
  {
  }

  lemma {:induction false} StepAgain(h: Word, j: nat)
    ensures Stepped(h, j + 1) == (Stepped(h, j) + Rotated(h)) % TWO_32
  {
  }

  lemma {:induction false} OneMoreProbe(h: Word, j: nat, bits: nat)
    requires bits > 0
    ensures Stepped(h, j + 1) == (Stepped(h, j) + Rotated(h)) % TWO_32
    ensures forall p | 0 <= p < bits ::
        Probes(h, j + 1, bits, p) <==> Probes(h, j, bits, p) || p == Stepped(h, j) % bits
  {
    StepAgain(h, j);
    hide Stepped, Rotated;
    assert Probe(h, j, bits) == Stepped(h, j) % bits;
    forall p | 0 <= p < bits ensures Probes(h, j + 1, bits, p) <==> Probes(h, j, bits, p) || p == Probe(h, j, bits) {
      if Probes(h, j + 1, bits, p) && !Probes(h, j, bits, p) {
        var i: nat :| i < j + 1 && Probe(h, i, bits) == p;
        assert i == j;
      }
    }
  }

  lemma {:induction false} OneMoreKey(hash: Bytes -> Word, keys: seq<Bytes>, i: nat, k: nat, bits: nat)
    requires i < |keys| && bits > 0
    ensures forall p | 0 <= p < bits ::
              SomeProbes(hash, keys[..i + 1], k, bits, p) <==>
              SomeProbes(hash, keys[..i], k, bits, p) || Probes(hash(keys[i]), k, bits, p)
  {
    hide Probes;
    var more, less := keys[..i + 1], keys[..i];
    assert more[i] == keys[i] && forall j | 0 <= j < i :: more[j] == less[j];
  }

  lemma {:induction false} Appended<T>(a: seq<T>, b: seq<T>, c: seq<T>)
    ensures (a + b + c)[..|a|] == a && (a + b + c)[|a|..] == b + c
  {
  }

  lemma {:induction false} AsFilter(bitmap: Bytes, k: Byte)
    ensures forall p | 0 <= p < 8 * |bitmap| :: Bit(bitmap + [k], p) <==> Bit(bitmap, p)
  {
    hide HasBit;
  }
}
