/** The writer of log files. */
module LogWriter {
  import opened Format
  import opened LogFormat
  import Crc32c

  class Writer {
    var file: Bytes
    var blockOffset: nat

    /** A full block may be left as it is until the next record. */
    ghost predicate Valid()
      reads this
    {
      blockOffset <= BLOCK_SIZE && blockOffset % BLOCK_SIZE == |file| % BLOCK_SIZE
    }

    constructor ()
      ensures Valid() && file == []
    {
      file, blockOffset := [], 0;
    }

    /** Go on with a file that has something in it. */
    constructor Reopen(file: Bytes)
      ensures Valid() && this.file == file
    {
      this.file, blockOffset := file, |file| % BLOCK_SIZE;
    }

    /** Append a record in fragments. Where they are cut depends only on the length of the file. */
    method AddRecord(data: Bytes)
      requires Valid()
      modifies this
      ensures Valid() && file == old(file) + Framed(|old(file)| % BLOCK_SIZE, data, true)
    {
      hide Fragment, Zeros, Framed, KindOf, Trailer;
      var ptr: nat, left: nat, begin := 0, |data|, true;
      ghost var whole := file + Framed(|file| % BLOCK_SIZE, data, true);
      assert data[0..] == data;
      var more := true;
      while more
        invariant Valid() && ptr + left == |data| && (more || left == 0)
        invariant more ==> file + Framed(blockOffset % BLOCK_SIZE, data[ptr..], begin) == whole
        invariant !more ==> file == whole
        decreases more, left, blockOffset % BLOCK_SIZE != 0
      {
        ghost var before, at := file, blockOffset % BLOCK_SIZE;
        MakeRoomForHeader();
        var avail := BLOCK_SIZE - blockOffset - HEADER_SIZE;
        var length := if left < avail then left else avail;
        var end := left == length;
        FramedStep(before, data, ptr, at, begin, length);
        EmitPhysicalRecord(KindOf(begin, end), data[ptr..ptr + length]);
        ptr, left, begin := ptr + length, left - length, false;
        more := left > 0;
      }
    }

    /** Switch to a new block when the rest of this one is too short for a header. */
    method MakeRoomForHeader()
      requires Valid()
      modifies this
      ensures Valid() && file == old(file) + Trailer(old(blockOffset) % BLOCK_SIZE)
      ensures blockOffset == StartInBlock(old(blockOffset) % BLOCK_SIZE)
    {
      hide Zeros;
      var leftover := BLOCK_SIZE - blockOffset;
      if leftover < HEADER_SIZE {
        if leftover > 0 {
          file := file + Zeros(leftover);
        }
        blockOffset := 0;
      }
    }

    method EmitPhysicalRecord(kind: Byte, payload: Bytes)
      requires Valid() && blockOffset + HEADER_SIZE + |payload| <= BLOCK_SIZE
      modifies this
      ensures Valid() && blockOffset == old(blockOffset) + HEADER_SIZE + |payload|
      ensures file == old(file) + Fragment(kind, payload)
    {
      hide Crc32c.Extended, Crc32c.Value, Crc32c.Mask, Fixed32;
      FragmentAppended(file, blockOffset, kind, payload);
      hide Fragment;
      var crc := Crc32c.Mask(Crc32c.Extended(Crc32c.Value([kind]), payload));
      file := file + (Fixed32(crc) + [|payload| % 256, |payload| / 256, kind]);
      file := file + payload;
      blockOffset := blockOffset + HEADER_SIZE + |payload|;
    }
  }

  /** A fragment is a header and a payload, and moves the offset in the block as far as the file. */
  lemma {:induction false} FragmentAppended(file: Bytes, offset: nat, kind: Byte, payload: Bytes)
    requires |payload| < 65536 && offset % BLOCK_SIZE == |file| % BLOCK_SIZE
    ensures var crc := Crc32c.Mask(Crc32c.Extended(Crc32c.Value([kind]), payload));
            file + (Fixed32(crc) + [|payload| % 256, |payload| / 256, kind]) + payload == file + Fragment(kind, payload)
    ensures (offset + HEADER_SIZE + |payload|) % BLOCK_SIZE == |file + Fragment(kind, payload)| % BLOCK_SIZE
  {
    hide Crc32c.Extended, Crc32c.Value, Crc32c.Mask, Fixed32;
    SameOffset(offset, |file|, HEADER_SIZE + |payload|);
  }

  lemma {:induction false} SameOffset(a: nat, b: nat, n: nat)
    requires a % BLOCK_SIZE == b % BLOCK_SIZE
    ensures (a + n) % BLOCK_SIZE == (b + n) % BLOCK_SIZE
  {
  }

  lemma {:induction false} Grouped(a: Bytes, b: Bytes, c: Bytes, d: Bytes)
    ensures a + (b + (c + d)) == a + b + c + d && a + ((b + c) + d) == a + b + c + d
    ensures b == [] ==> a + (c + d) == a + b + c + d
    ensures d == [] ==> a + b + c + d == a + b + c && (b == [] ==> a + c == a + b + c) && a + (b + c) == a + b + c
  {
  }

  /** The filling of a block that has no room for a header. */
  function Trailer(at: nat): Bytes
    requires at < BLOCK_SIZE
  {
    if BLOCK_SIZE - at < HEADER_SIZE then Zeros(BLOCK_SIZE - at) else []
  }

  function StartInBlock(at: nat): (r: nat)
    requires at < BLOCK_SIZE
    ensures r + HEADER_SIZE <= BLOCK_SIZE
  {
    if BLOCK_SIZE - at < HEADER_SIZE then 0 else at
  }

  /** One round of the writer: the trailer, if any, one fragment, and the rest in the next block. */
  lemma {:induction false} FramedStep(file: Bytes, data: Bytes, ptr: nat, at: nat, begin: bool, n: nat)
    requires at < BLOCK_SIZE && ptr + n <= |data|
    requires var avail := BLOCK_SIZE - StartInBlock(at) - HEADER_SIZE;
        n == if |data| - ptr < avail then |data| - ptr else avail
    ensures var end := ptr + n == |data|;
            var after := file + Trailer(at) + Fragment(KindOf(begin, end), data[ptr..ptr + n]);
            file + Framed(at, data[ptr..], begin) == if end then after else after + Framed(0, data[ptr + n..], false)
  {
    hide Fragment, Zeros, KindOf, Framed;
    var rest := data[ptr..];
    FramedCases(at, rest, begin);
    FramedCases(StartInBlock(at), rest, begin);
    assert rest[..n] == data[ptr..ptr + n] && rest[n..] == data[ptr + n..];
    var fragment := Fragment(KindOf(begin, ptr + n == |data|), data[ptr..ptr + n]);
    if ptr + n == |data| {
      assert rest[..n] == rest;
      Grouped(file, Trailer(at), fragment, []);
    } else {
      Grouped(file, Trailer(at), fragment, Framed(0, data[ptr + n..], false));
    }
  }
}
