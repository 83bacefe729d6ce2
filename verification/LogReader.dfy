/** The reader of log files. */
module LogReader {
  import opened Format
  import opened LogFormat
  import Crc32c

  class Reader {
    const file: Bytes
    var consumed: nat       // how much of the file has been read into the buffer
    var buffer: Bytes       // what is left of the last block read
    var eof: bool           // the last read came up short
    var reports: seq<nat>   // bytes reported as corrupt, in order

    ghost predicate Valid()
      reads this
    {
      && |buffer| <= consumed <= |file| && buffer == file[consumed - |buffer|..consumed]
      && InOneBlock(|buffer|, consumed, |file|, eof)
    }

    /** The place in the file that the reader has come to. */
    ghost function Pos(): nat
      requires Valid()
      reads this
    {
      consumed - |buffer|
    }

    constructor (file: Bytes)
      ensures Valid() && this.file == file && Pos() == 0 && reports == []
    {
      this.file, consumed, buffer, eof, reports := file, 0, [], false, [];
    }

    method ReportCorruption(bytes: nat)
      modifies this`reports
      ensures reports == old(reports) + [bytes]
    {
      reports := reports + [bytes];
    }

    /** Read the next block, or what there is of it. */
    method ReadBlock()
      requires Valid() && !eof && |buffer| < HEADER_SIZE
      modifies this`consumed, this`buffer, this`eof
      ensures Valid() && consumed - |buffer| == old(consumed)
      ensures ReadPhysical(file, old(Pos())) == ReadPhysical(file, Pos())
      ensures !eof ==> |buffer| == BLOCK_SIZE
    {
      hide ReadPhysical;
      SkippedTo(file, Pos(), consumed);
      ShortBlock(consumed, |file|);
      var n := if |file| - consumed < BLOCK_SIZE then |file| - consumed else BLOCK_SIZE;
      buffer, consumed := file[consumed..consumed + n], consumed + n;
      if |buffer| < BLOCK_SIZE {
        eof := true;
      }
    }

    /** Have a header in the buffer, or be at the end of the file. */
    method FillBuffer() returns (more: bool)
      requires Valid()
      modifies this`consumed, this`buffer, this`eof
      ensures Valid() && ReadPhysical(file, old(Pos())) == ReadPhysical(file, Pos())
      ensures if more then |buffer| >= HEADER_SIZE else ReadPhysical(file, old(Pos())) == (Eof, Pos())
    {
      hide ReadPhysical;
      ghost var start := Pos();
      while |buffer| < HEADER_SIZE
        invariant Valid() && ReadPhysical(file, start) == ReadPhysical(file, Pos())
        decreases !eof, |file| - consumed
      {
        if !eof {
          ReadBlock();
        } else {
          EndsHere(file, Pos());
          buffer := [];
          EndsHere(file, Pos());
          return false;
        }
      }
      return true;
    }

    /** Parse the next fragment, reading blocks as needed. The type byte is returned as it is, even
        where it looks like the end of the file or a bad record. */
    method ReadPhysicalRecord() returns (kind: Byte, fragment: Bytes)
      requires Valid()
      modifies this
      ensures Valid() && Pos() == ReadPhysical(file, old(Pos())).1
      ensures match ReadPhysical(file, old(Pos())).0
              case Eof => kind == END_OF_FILE && reports == old(reports)
              case Bad(dropped) =>
                kind == BAD_RECORD && reports == old(reports) + if dropped.Some? then [dropped.value] else []
              case Found(k, payload) => kind == k && fragment == payload && reports == old(reports)
    {
      hide ReadPhysical, Crc32c.Unmask, Crc32c.Value, DecodeFixed32, InOneBlock;
      var more := FillBuffer();
      if !more {
        return END_OF_FILE, [];
      }
      ParsedFromFile(file, Pos(), consumed, eof);
      FewerInOneBlock(|buffer|, consumed, |file|, eof);
      var length: nat := (buffer[4] as nat) + (buffer[5] as nat) * 256;
      var t := buffer[6];
      if HEADER_SIZE + length > |buffer| {
        var dropSize := |buffer|;
        buffer := [];
        if !eof {
          ReportCorruption(dropSize);
          return BAD_RECORD, [];
        }
        return END_OF_FILE, [];
      }
      if t == ZERO && length == 0 {
        buffer := [];
        return BAD_RECORD, [];
      }
      if Crc32c.Unmask(DecodeFixed32(buffer[0], buffer[1], buffer[2], buffer[3]))
          != Crc32c.Value(buffer[6..HEADER_SIZE + length]) {
        var dropSize := |buffer|;
        buffer := [];
        ReportCorruption(dropSize);
        return BAD_RECORD, [];
      }
      kind, fragment := t, buffer[HEADER_SIZE..HEADER_SIZE + length];
      buffer := buffer[HEADER_SIZE + length..];
    }

    /** Read fragments until a record is whole, or the file ends. Only the order of the fragments,
        and what they leave unfinished, can be reported here. */
    method ReadRecord() returns (record: Option<Bytes>)
      requires Valid()
      modifies this
      ensures Valid()
      ensures var r := ReadFrom(file, old(Pos()), false, []);
              record == r.record && Pos() == r.next && reports == old(reports) + r.reports
    {
      hide ReadPhysical, InOneBlock, ReadFrom, Reported;
      var scratch: Bytes, fragmented := [], false;
      ghost var whole := Reported(reports, ReadFrom(file, Pos(), false, []));
      ReportedParts(reports, ReadFrom(file, Pos(), false, []));
      while true
        invariant Valid() && (!fragmented ==> scratch == [])
        invariant Reported(reports, ReadFrom(file, Pos(), fragmented, scratch)) == whole
        decreases |file| - Pos()
      {
        ReadFromStep(file, Pos(), fragmented, scratch, reports);
        ghost var before, more := reports, Reassemble(ReadPhysical(file, Pos()).0, fragmented, scratch).1;
        var kind, fragment := ReadPhysicalRecord();
        if kind == FULL {
          if fragmented && scratch != [] {
            ReportCorruption(|scratch|);
          }
          assert reports == before + more;
          return Some(fragment);
        } else if kind == FIRST {
          if fragmented && scratch != [] {
            ReportCorruption(|scratch|);
          }
          scratch, fragmented := fragment, true;
        } else if kind == MIDDLE {
          if !fragmented {
            ReportCorruption(|fragment|);
          } else {
            scratch := scratch + fragment;
          }
        } else if kind == LAST {
          if !fragmented {
            ReportCorruption(|fragment|);
          } else {
            assert reports == before + more;
            return Some(scratch + fragment);
          }
        } else if kind == END_OF_FILE {
          assert reports == before + more;
          return None;
        } else if kind == BAD_RECORD {
          if fragmented {
            ReportCorruption(|scratch|);
            scratch, fragmented := [], false;
          }
        } else {
          ReportCorruption(|fragment| + if fragmented then |scratch| else 0);
          scratch, fragmented := [], false;
        }
        assert reports == before + more;
      }
    }
  }

  lemma {:induction false} ReportedParts(reports: seq<nat>, r: Outcome)
    ensures Reported(reports, r) == Outcome(r.record, r.next, reports + r.reports)
  {
  }

  /** One round of reading, after some reports. */
  lemma {:induction false} ReadFromStep(file: Bytes, pos: nat, fragmented: bool, scratch: Bytes, reports: seq<nat>)
    requires pos <= |file|
    ensures var (found, next) := ReadPhysical(file, pos);
            var (progress, more) := Reassemble(found, fragmented, scratch);
            Reported(reports, ReadFrom(file, pos, fragmented, scratch)) ==
              match progress
              case Done(record) => Outcome(record, next, reports + more)
              case More(fragmented', scratch') => Reported(reports + more, ReadFrom(file, next, fragmented', scratch'))
  {
    hide ReadPhysical, Reassemble;
    var (found, next) := ReadPhysical(file, pos);
    var (progress, more) := Reassemble(found, fragmented, scratch);
    if progress.More? {
      var rest := ReadFrom(file, next, progress.fragmented, progress.scratch);
      assert reports + (more + rest.reports) == reports + more + rest.reports;
    }
  }

  /** The n bytes before `end` lie in one block, which ends there, or else the file does. */
  predicate InOneBlock(n: nat, end: nat, size: nat, eof: bool) {
    if eof then end == size && n <= size % BLOCK_SIZE else end % BLOCK_SIZE == 0 && n <= BLOCK_SIZE
  }

  lemma {:induction false} FewerInOneBlock(n: nat, end: nat, size: nat, eof: bool)
    requires InOneBlock(n, end, size, eof)
    ensures forall k | 0 <= k <= n :: InOneBlock(k, end, size, eof)
  {
  }

  /** The last bytes of a block are skipped, if they cannot hold a header. */
  lemma {:induction false} SkippedTo(file: Bytes, pos: nat, next: nat)
    requires pos <= next <= |file| && next % BLOCK_SIZE == 0 && next - pos < HEADER_SIZE
    ensures ReadPhysical(file, pos) == ReadPhysical(file, next)
  {
    SkippedHeader(pos, next);
    SameHeaderReadsAlike(file, pos, next);
  }

  lemma {:induction false} SameHeaderReadsAlike(file: Bytes, pos: nat, next: nat)
    requires pos <= |file| && next <= |file| && HeaderAt(pos) == HeaderAt(next)
    ensures ReadPhysical(file, pos) == ReadPhysical(file, next)
  {
    hide Parsed, HeaderAt, BlockEnd;
  }

  lemma {:induction false} SkippedHeader(pos: nat, next: nat)
    requires pos <= next && next % BLOCK_SIZE == 0 && next - pos < HEADER_SIZE
    ensures HeaderAt(pos) == HeaderAt(next)
  {
  }

  lemma {:induction false} ShortBlock(start: nat, size: nat)
    requires start % BLOCK_SIZE == 0 && start <= size
    ensures if size - start < BLOCK_SIZE then size - start == size % BLOCK_SIZE
        else (start + BLOCK_SIZE) % BLOCK_SIZE == 0
  {
  }

  lemma {:induction false} EndsHere(file: Bytes, pos: nat)
    requires pos <= |file| < pos + HEADER_SIZE
    ensures ReadPhysical(file, pos) == (Eof, |file|)
  {
  }

  /** The buffer is a header's block up to its end, or up to that of the file. */
  lemma {:induction false} ParsedFromFile(file: Bytes, pos: nat, end: nat, eof: bool)
    requires pos + HEADER_SIZE <= end <= |file|
    requires InOneBlock(end - pos, end, |file|, eof)
    ensures var (found, taken) := Parsed(file[pos..end], eof); ReadPhysical(file, pos) == (found, pos + taken)
  {
    hide Parsed, HeaderAt, BlockEnd, InOneBlock;
    BufferBlock(pos, end, |file|, eof);
    assert ReadPhysical(file, pos) == ReadBuffer(file, pos, end, eof);
  }

  lemma {:induction false} BufferBlock(pos: nat, end: nat, size: nat, eof: bool)
    requires pos + HEADER_SIZE <= end <= size
    requires InOneBlock(end - pos, end, size, eof)
    ensures HeaderAt(pos) == pos && if eof then BlockEnd(pos) > size && end == size else BlockEnd(pos) == end
  {
  }
}
