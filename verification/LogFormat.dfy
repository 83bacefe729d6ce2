/** The log file format: records cut into fragments that never cross a 32 KiB block. */
module LogFormat {
  import opened Format
  import Crc32c

  const BLOCK_SIZE: nat := 32768

  /** Checksum (4 bytes), length (2 bytes), type (1 byte). */
  const HEADER_SIZE: nat := 7

  const ZERO: Byte := 0    // reserved for preallocated files
  const FULL: Byte := 1
  const FIRST: Byte := 2
  const MIDDLE: Byte := 3
  const LAST: Byte := 4

  // What a reader returns in place of a type; a type byte can have these values, too.
  const END_OF_FILE: Byte := 5
  const BAD_RECORD: Byte := 6

  // ---------- Numbers in headers ----------

  function Number(b: bv8): Byte {
    b as nat
  }

  function Fixed32(x: bv32): (r: Bytes)
    ensures |r| == 4
  {
    [Number(Crc32c.Byte0(x)), Number(Crc32c.Byte1(x)), Number(Crc32c.Byte2(x)), Number(Crc32c.Byte3(x))]
  }

  function DecodeFixed32(b0: Byte, b1: Byte, b2: Byte, b3: Byte): bv32 {
    Crc32c.Word(Crc32c.Bits(b0), Crc32c.Bits(b1), Crc32c.Bits(b2), Crc32c.Bits(b3))
  }

  lemma {:induction false} NumberRoundTrip(b: bv8)
    ensures Crc32c.Bits(Number(b)) == b
  {
  }

  lemma {:induction false} WordRoundTrip(x: bv32)
    ensures Crc32c.Word(Crc32c.Byte0(x), Crc32c.Byte1(x), Crc32c.Byte2(x), Crc32c.Byte3(x)) == x
  {
  }

  lemma {:induction false} BytesOfWord(b0: bv8, b1: bv8, b2: bv8, b3: bv8)
    ensures var x := Crc32c.Word(b0, b1, b2, b3);
            Crc32c.Byte0(x) == b0 && Crc32c.Byte1(x) == b1 && Crc32c.Byte2(x) == b2 && Crc32c.Byte3(x) == b3
  {
  }

  lemma {:induction false} NextNumber(v: bv8)
    requires v < 255
    ensures Number(v + 1) == Number(v) + 1
  {
  }

  lemma {:induction false} BitsOf(b: Byte) returns (v: bv8)
    ensures Number(v) == b
  {
    if b == 0 {
      v := 0;
    } else {
      var u := BitsOf(b - 1);
      assert u < 255;
      NextNumber(u);
      v := u + 1;
    }
  }

  lemma {:induction false} BitsBack(b: Byte)
    ensures Number(Crc32c.Bits(b)) == b
  {
    hide Number, Crc32c.Bits;
    var v := BitsOf(b);
    NumberRoundTrip(v);
  }

  lemma {:induction false} Fixed32Back(b: Bytes)
    requires |b| == 4
    ensures Fixed32(DecodeFixed32(b[0], b[1], b[2], b[3])) == b
  {
    hide Number, Crc32c.Word, Crc32c.Byte0, Crc32c.Byte1, Crc32c.Byte2, Crc32c.Byte3, Crc32c.Bits;
    BitsBack(b[0]);
    BitsBack(b[1]);
    BitsBack(b[2]);
    BitsBack(b[3]);
    BytesOfWord(Crc32c.Bits(b[0]), Crc32c.Bits(b[1]), Crc32c.Bits(b[2]), Crc32c.Bits(b[3]));
  }

  lemma {:induction false} Fixed32RoundTrip(x: bv32)
    ensures var r := Fixed32(x); DecodeFixed32(r[0], r[1], r[2], r[3]) == x
  {
    hide Number, Crc32c.Word, Crc32c.Byte0, Crc32c.Byte1, Crc32c.Byte2, Crc32c.Byte3, Crc32c.Bits;
    NumberRoundTrip(Crc32c.Byte0(x));
    NumberRoundTrip(Crc32c.Byte1(x));
    NumberRoundTrip(Crc32c.Byte2(x));
    NumberRoundTrip(Crc32c.Byte3(x));
    WordRoundTrip(x);
  }

  // ---------- Writing ----------

  /** One fragment with its header. */
  function Fragment(kind: Byte, payload: Bytes): (r: Bytes)
    requires |payload| < 65536
    ensures |r| == HEADER_SIZE + |payload|
  {
    Fixed32(Crc32c.Mask(Crc32c.Extended(Crc32c.Value([kind]), payload)))
    + [|payload| % 256, |payload| / 256, kind] + payload
  }

  function KindOf(begin: bool, end: bool): Byte {
    if begin && end then FULL else if begin then FIRST else if end then LAST else MIDDLE
  }

  function Zeros(n: nat): (r: Bytes)
    ensures |r| == n
  {
    seq(n, _ => ZERO)
  }

  /** The bytes of a record, or of what is left of it, from a place in a block on: fragments that
      fill the block, or a trailer too short for a header, and the rest in the next block. */
  function Framed(at: nat, data: Bytes, begin: bool): (r: Bytes)
    requires at < BLOCK_SIZE
    ensures |r| >= HEADER_SIZE
    decreases |data|, if at == 0 then 0 else 1
  {
    var left := BLOCK_SIZE - at;
    if left < HEADER_SIZE then Zeros(left) + Framed(0, data, begin)
    else
      var n := if |data| < left - HEADER_SIZE then |data| else left - HEADER_SIZE;
      if n == |data| then Fragment(KindOf(begin, true), data)
      else Fragment(KindOf(begin, false), data[..n]) + Framed(0, data[n..], false)
  }

  /** Framing, case by case. */
  lemma {:induction false} FramedCases(at: nat, data: Bytes, begin: bool)
    requires at < BLOCK_SIZE
    ensures KindOf(begin, false) != ZERO
    ensures var left := BLOCK_SIZE - at;
            if left < HEADER_SIZE then Framed(at, data, begin) == Zeros(left) + Framed(0, data, begin)
            else if |data| <= left - HEADER_SIZE then Framed(at, data, begin) == Fragment(KindOf(begin, true), data)
            else
              var room := left - HEADER_SIZE;
              Framed(at, data, begin) == Fragment(KindOf(begin, false), data[..room]) + Framed(0, data[room..], false)
  {
    hide Fragment;
  }

  /** The bytes that records add to a file that is `at` bytes long. */
  function Log(at: nat, records: seq<Bytes>): Bytes
    decreases |records|
  {
    if records == [] then []
    else
      var first := Framed(at % BLOCK_SIZE, records[0], true);
      first + Log(at + |first|, records[1..])
  }

  // ---------- Reading ----------

  /** What a reader finds at a place: nothing more, a stretch to drop (and how many bytes to
      report as corrupt, if any), or a fragment. */
  datatype Physical = Eof | Bad(dropped: Option<nat>) | Found(kind: Byte, payload: Bytes)

  /** Where the next header may be: a block's last bytes are skipped when none fits. */
  function HeaderAt(pos: nat): (r: nat)
    ensures pos <= r
  {
    var left := BLOCK_SIZE - pos % BLOCK_SIZE;
    if left < HEADER_SIZE then pos + left else pos
  }

  /** The end of the block that holds this byte. */
  function BlockEnd(pos: nat): (r: nat)
    ensures pos < r
    ensures pos == HeaderAt(pos) ==> pos + HEADER_SIZE <= r
  {
    pos + (BLOCK_SIZE - pos % BLOCK_SIZE)
  }

  /** What a buffer that starts with a header yields, and how much of it that takes up. */
  function Parsed(buffer: Bytes, eof: bool): (r: (Physical, nat))
    requires |buffer| >= HEADER_SIZE
    ensures r.1 <= |buffer| && r.1 > 0 && (r.0.Eof? ==> r.1 == |buffer|)
  {
    var length: nat := (buffer[4] as nat) + (buffer[5] as nat) * 256;
    if HEADER_SIZE + length > |buffer| then (if eof then Eof else Bad(Some(|buffer|)), |buffer|)
    else if buffer[6] == ZERO && length == 0 then (Bad(None), |buffer|)
    else if Crc32c.Unmask(DecodeFixed32(buffer[0], buffer[1], buffer[2], buffer[3]))
        != Crc32c.Value(buffer[6..HEADER_SIZE + length])
    then (Bad(Some(|buffer|)), |buffer|)
    else (Found(buffer[6], buffer[HEADER_SIZE..HEADER_SIZE + length]), HEADER_SIZE + length)
  }

  function ReadBuffer(file: Bytes, start: nat, end: nat, eof: bool): (r: (Physical, nat))
    requires start + HEADER_SIZE <= end <= |file| && (eof ==> end == |file|)
    ensures start < r.1 <= end
  {
    var (found, taken) := Parsed(file[start..end], eof);
    (found, start + taken)
  }

  /** Read at `pos`, and say where to read next. */
  function ReadPhysical(file: Bytes, pos: nat): (r: (Physical, nat))
    requires pos <= |file|
    ensures r.1 <= |file| && (!r.0.Eof? ==> pos < r.1)
  {
    var start := HeaderAt(pos);
    if start + HEADER_SIZE > |file| then (Eof, |file|)
    else
      var eof := BlockEnd(start) > |file|;
      ReadBuffer(file, start, if eof then |file| else BlockEnd(start), eof)
  }

  /** A record or the end of the file, where to read next, and the sizes of corruptions reported. */
  datatype Outcome = Outcome(record: Option<Bytes>, next: nat, reports: seq<nat>)

  function Reported(reports: seq<nat>, r: Outcome): Outcome {
    r.(reports := reports + r.reports)
  }

  /** The fragments of a record so far, or the record, or the end of the file. */
  datatype Progress = More(fragmented: bool, scratch: Bytes) | Done(record: Option<Bytes>)

  /** What a fragment adds to those before it, and which corruptions that shows. */
  function Reassemble(found: Physical, fragmented: bool, scratch: Bytes): (Progress, seq<nat>) {
    match found
    case Eof => (Done(None), [])
    case Bad(dropped) =>
      (More(false, []), (if dropped.Some? then [dropped.value] else []) + (if fragmented then [|scratch|] else []))
    case Found(kind, payload) =>
      var partial := if fragmented && scratch != [] then [|scratch|] else [];
      if kind == FULL then (Done(Some(payload)), partial)
      else if kind == FIRST then (More(true, payload), partial)
      else if kind == MIDDLE then
        if fragmented then (More(true, scratch + payload), []) else (More(false, scratch), [|payload|])
      else if kind == LAST then
        if fragmented then (Done(Some(scratch + payload)), []) else (More(false, scratch), [|payload|])
      else if kind == END_OF_FILE then (Done(None), [])
      else if kind == BAD_RECORD then (More(false, []), if fragmented then [|scratch|] else [])
      else (More(false, []), [|payload| + if fragmented then |scratch| else 0])
  }

  /** Read fragments until a record is whole. `scratch` holds the fragments so far. */
  function ReadFrom(file: Bytes, pos: nat, fragmented: bool, scratch: Bytes): (r: Outcome)
    requires pos <= |file|
    ensures r.next <= |file| && (r.record.Some? ==> pos < r.next)
    decreases |file| - pos
  {
    var (found, next) := ReadPhysical(file, pos);
    var (progress, reports) := Reassemble(found, fragmented, scratch);
    match progress
    case Done(record) => Outcome(record, next, reports)
    case More(fragmented', scratch') => Reported(reports, ReadFrom(file, next, fragmented', scratch'))
  }

  /** All records from a place on, and all reports. */
  function ReadAll(file: Bytes, pos: nat): (seq<Bytes>, seq<nat>)
    requires pos <= |file|
    decreases |file| - pos
  {
    var r := ReadFrom(file, pos, false, []);
    if r.record.None? then ([], r.reports)
    else
      var rest := ReadAll(file, r.next);
      ([r.record.value] + rest.0, r.reports + rest.1)
  }
}
