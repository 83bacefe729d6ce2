/** The table file: data blocks, the filter block, the index, and the footer that finds them. */
module TableFormat {
  import opened Format
  import opened Coding
  import LogFormat
  import Crc32c

  const TRAILER_SIZE: nat := 5    // type and checksum

  const NO_COMPRESSION: Byte := 0

  const MAGIC: nat := 0xdb47_7524_8b80_fb57

  const MAX_HANDLE_SIZE: nat := 20

  const FOOTER_SIZE: nat := 48

  datatype BlockHandle = BlockHandle(offset: nat, size: nat) {
    predicate Fits() {
      offset < TWO_64 && size < TWO_64
    }
  }

  // ---------- Handles ----------

  function EncodedHandle(h: BlockHandle): Bytes {
    Varint(h.offset) + Varint(h.size)
  }

  function DecodeHandle(input: Bytes): Option<(BlockHandle, Bytes)> {
    match GetVarint64(input)
    case None => None
    case Some((offset, rest)) =>
      match GetVarint64(rest)
      case None => None
      case Some((size, rest)) => Some((BlockHandle(offset, size), rest))
  }

  lemma {:induction false} HandleRoundTrip(h: BlockHandle, rest: Bytes)
    requires h.Fits()
    ensures DecodeHandle(EncodedHandle(h) + rest) == Some((h, rest))
  {
    hide Varint, GetVarint64;
    assert EncodedHandle(h) + rest == Varint(h.offset) + (Varint(h.size) + rest);
    Varint64RoundTrip(h.offset, Varint(h.size) + rest);
    Varint64RoundTrip(h.size, rest);
  }

  lemma {:induction false} VarintBounded(v: nat, limit: nat)
    requires limit > 0 && v < Power128(limit)
    ensures |Varint(v)| <= limit
    decreases limit
  {
    if v >= 128 {
      VarintBounded(v / 128, limit - 1);
    }
  }

  lemma {:induction false} HandleBounded(h: BlockHandle)
    requires h.Fits()
    ensures |EncodedHandle(h)| <= MAX_HANDLE_SIZE
  {
    Capacities();
    VarintBounded(h.offset, 10);
    VarintBounded(h.size, 10);
  }

  // ---------- The footer ----------

  function EncodedFooter(metaindex: BlockHandle, index: BlockHandle): (r: Bytes)
    ensures |r| == FOOTER_SIZE
  {
    Padded(EncodedHandle(metaindex) + EncodedHandle(index), 2 * MAX_HANDLE_SIZE) + LittleEndian(MAGIC % TWO_32, 4)
        + LittleEndian(MAGIC / TWO_32, 4)
  }

  /** A string resized: cut, or filled with zeros. */
  function Padded(s: Bytes, size: nat): (r: Bytes)
    ensures |r| == size
  {
    if |s| >= size then s[..size] else s + LogFormat.Zeros(size - |s|)
  }

  function DecodeFooter(input: Bytes): Option<(BlockHandle, BlockHandle)>
    requires |input| == FOOTER_SIZE
  {
    var magic := FromLittleEndian(input[FOOTER_SIZE - 4..]) * TWO_32
        + FromLittleEndian(input[FOOTER_SIZE - 8..FOOTER_SIZE - 4]);
    if magic != MAGIC then None
    else
      match DecodeHandle(input)
      case None => None
      case Some((metaindex, rest)) =>
        match DecodeHandle(rest)
        case None => None
        case Some((index, _)) => Some((metaindex, index))
  }

  lemma {:induction false} FooterRoundTrip(metaindex: BlockHandle, index: BlockHandle)
    requires metaindex.Fits() && index.Fits()
    ensures DecodeFooter(EncodedFooter(metaindex, index)) == Some((metaindex, index))
  {
    hide EncodedHandle, DecodeHandle, LittleEndian, FromLittleEndian, LogFormat.Zeros;
    var handles, low, high :=
        EncodedHandle(metaindex) + EncodedHandle(index), LittleEndian(MAGIC % TWO_32, 4),
        LittleEndian(MAGIC / TWO_32, 4);
    HandleBounded(metaindex);
    HandleBounded(index);
    FixedCapacities();
    LittleEndianRoundTrip(MAGIC % TWO_32, 4);
    LittleEndianRoundTrip(MAGIC / TWO_32, 4);
    var footer, padded := EncodedFooter(metaindex, index), Padded(handles, 2 * MAX_HANDLE_SIZE);
    assert footer[FOOTER_SIZE - 4..] == high && footer[FOOTER_SIZE - 8..FOOTER_SIZE - 4] == low;
    var padding := padded[|handles|..];
    var rest := EncodedHandle(index) + (padding + low + high);
    assert footer == EncodedHandle(metaindex) + rest;
    HandleRoundTrip(metaindex, rest);
    HandleRoundTrip(index, padding + low + high);
  }

  /** A footer is taken exactly when it ends in the magic number and begins with two handles. */
  lemma {:induction false} FooterNeedsMagic(input: Bytes)
    requires |input| == FOOTER_SIZE
    ensures DecodeFooter(input).Some? <==>
        && input[FOOTER_SIZE - 8..] == LittleEndian(MAGIC % TWO_32, 4) + LittleEndian(MAGIC / TWO_32, 4)
        && DecodeHandle(input).Some? && DecodeHandle(DecodeHandle(input).value.1).Some?
  {
    hide DecodeHandle, LittleEndian, FromLittleEndian;
    var low, high := input[FOOTER_SIZE - 8..FOOTER_SIZE - 4], input[FOOTER_SIZE - 4..];
    assert input[FOOTER_SIZE - 8..] == low + high;
    FixedCapacities();
    LittleEndianBack(low);
    LittleEndianBack(high);
    LittleEndianRoundTrip(MAGIC % TWO_32, 4);
    LittleEndianRoundTrip(MAGIC / TWO_32, 4);
    HalvesOfMagic(FromLittleEndian(low), FromLittleEndian(high));
    var a, b := LittleEndian(MAGIC % TWO_32, 4), LittleEndian(MAGIC / TWO_32, 4);
    assert (low + high)[..4] == low && (low + high)[4..] == high && (a + b)[..4] == a && (a + b)[4..] == b;
  }

  lemma {:induction false} HalvesOfMagic(low: nat, high: nat)
    requires low < TWO_32 && high < TWO_32
    ensures high * TWO_32 + low == MAGIC <==> low == MAGIC % TWO_32 && high == MAGIC / TWO_32
  {
  }

  // ---------- Blocks in the file ----------

  /** A block as it is written: its contents, the type, and the checksum of both. */
  function RawBlock(contents: Bytes): (r: Bytes)
    ensures |r| == |contents| + TRAILER_SIZE
  {
    contents + [NO_COMPRESSION]
        + LogFormat.Fixed32(Crc32c.Mask(Crc32c.Extended(Crc32c.Value(contents), [NO_COMPRESSION])))
  }

  /** The block at a handle. It is short at the end of the file; its checksum may be wrong; and
      without Snappy no type but the plain one can be read. */
  function ReadBlock(file: Bytes, h: BlockHandle, verifyChecksums: bool): Option<Bytes> {
    var n := h.size;
    if h.offset + n + TRAILER_SIZE > |file| then None
    else
      var data := file[h.offset..h.offset + n + TRAILER_SIZE];
      if verifyChecksums && Crc32c.Unmask(LogFormat.DecodeFixed32(data[n + 1], data[n + 2], data[n + 3], data[n + 4]))
          != Crc32c.Value(data[..n + 1]) then None
      else if data[n] != NO_COMPRESSION then None
      else Some(data[..n])
  }

  ghost predicate BlockAt(file: Bytes, h: BlockHandle, contents: Bytes) {
    && h.size == |contents| && h.offset + |contents| + TRAILER_SIZE <= |file|
    && file[h.offset..h.offset + |contents| + TRAILER_SIZE] == RawBlock(contents)
  }

  /** A block that was written is read back, and passes its checksum. */
  lemma {:induction false} BlockReads(file: Bytes, h: BlockHandle, contents: Bytes, verifyChecksums: bool)
    requires BlockAt(file, h, contents)
    ensures ReadBlock(file, h, verifyChecksums) == Some(contents)
  {
    hide LogFormat.Fixed32, LogFormat.DecodeFixed32, Crc32c.Extended, Crc32c.Value, Crc32c.Mask, Crc32c.Unmask;
    var n, data := |contents|, RawBlock(contents);
    ChecksumOfBoth(contents);
    assert data[..n + 1] == contents + [NO_COMPRESSION];
    var crc := Crc32c.Value(contents + [NO_COMPRESSION]);
    Crc32c.MaskRoundTrip(crc);
    LogFormat.Fixed32RoundTrip(Crc32c.Mask(crc));
    assert data[n + 1..] == LogFormat.Fixed32(Crc32c.Mask(crc));
    assert data[..n] == contents;
  }

  /** With checksums verified, what is read is exactly what was written as a block at the handle. */
  lemma {:induction false} OnlyBlocksAreRead(file: Bytes, h: BlockHandle, contents: Bytes)
    ensures ReadBlock(file, h, true) == Some(contents) <==> BlockAt(file, h, contents)
  {
    hide LogFormat.Fixed32, LogFormat.DecodeFixed32, Crc32c.Extended, Crc32c.Value, Crc32c.Mask, Crc32c.Unmask;
    if BlockAt(file, h, contents) {
      BlockReads(file, h, contents, true);
    }
    if ReadBlock(file, h, true) == Some(contents) {
      var n, data := h.size, file[h.offset..h.offset + h.size + TRAILER_SIZE];
      var stored := data[n + 1..];
      LogFormat.Fixed32Back(stored);
      var crc := LogFormat.DecodeFixed32(stored[0], stored[1], stored[2], stored[3]);
      Crc32c.MaskRoundTrip(crc);
      ChecksumOfBoth(contents);
      assert data[..n + 1] == contents + [NO_COMPRESSION];
      assert data == data[..n + 1] + stored;
    }
  }

  lemma {:induction false} ChecksumOfBoth(contents: Bytes)
    ensures Crc32c.Extended(Crc32c.Value(contents), [NO_COMPRESSION]) == Crc32c.Value(contents + [NO_COMPRESSION])
  {
    hide Crc32c.Extended;
    Crc32c.ExtendComposes(0, contents, [NO_COMPRESSION]);
  }

  /** Blocks stay where they are while the file grows. */
  lemma {:induction false} BlockStays(file: Bytes, more: Bytes, h: BlockHandle, contents: Bytes)
    requires BlockAt(file, h, contents)
    ensures BlockAt(file + more, h, contents)
  {
    hide RawBlock;
    var end := h.offset + |contents| + TRAILER_SIZE;
    assert (file + more)[h.offset..end] == file[h.offset..end];
  }

  lemma {:induction false} BlockWritten(file: Bytes, contents: Bytes)
    ensures BlockAt(file + RawBlock(contents), BlockHandle(|file|, |contents|), contents)
  {
    hide LogFormat.Fixed32, Crc32c.Extended;
    var all := file + RawBlock(contents);
    assert all[|file|..|all|] == RawBlock(contents);
  }
}
