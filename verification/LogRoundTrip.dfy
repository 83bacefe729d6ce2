/** A written log, cut off anywhere, reads back as the records that are whole in it. */
module LogRoundTrip {
  import opened Format
  import opened LogFormat
  import Crc32c

  /** From `pos` on the file holds `w`, or as much of it as there is file. */
  ghost predicate Holds(file: Bytes, pos: nat, w: Bytes) {
    && pos <= |file|
    && if pos + |w| <= |file| then file[pos..pos + |w|] == w else file[pos..] == w[..|file| - pos]
  }

  lemma {:induction false} HoldsAt(file: Bytes, pos: nat, w: Bytes, i: nat)
    requires Holds(file, pos, w) && i < |w| && pos + i < |file|
    ensures file[pos + i] == w[i]
  {
    if pos + |w| <= |file| {
      assert file[pos..pos + |w|][i] == w[i];
    } else {
      assert file[pos..][i] == w[..|file| - pos][i];
    }
  }

  lemma {:induction false} HoldsBoth(file: Bytes, pos: nat, a: Bytes, b: Bytes)
    requires Holds(file, pos, a + b)
    ensures Holds(file, pos, a) && (pos + |a| <= |file| ==> Holds(file, pos + |a|, b))
  {
    var w := a + b;
    if pos + |w| <= |file| {
      assert file[pos..pos + |a|] == file[pos..pos + |w|][..|a|] == a;
      assert file[pos + |a|..pos + |w|] == file[pos..pos + |w|][|a|..] == b;
    } else if pos + |a| <= |file| {
      assert file[pos..pos + |a|] == file[pos..][..|a|] == w[..|file| - pos][..|a|] == a;
      assert file[pos + |a|..] == file[pos..][|a|..] == w[..|file| - pos][|a|..] == b[..|file| - pos - |a|];
    } else {
      assert w[..|file| - pos] == a[..|file| - pos];
    }
  }

  // ---------- One fragment ----------

  /** What the header of a fragment says. */
  lemma {:induction false} HeaderSays(kind: Byte, payload: Bytes)
    requires |payload| < 65536
    ensures var w := Fragment(kind, payload);
            && (w[4] as nat) + (w[5] as nat) * 256 == |payload| && w[6] == kind && w[HEADER_SIZE..] == payload
            && Crc32c.Unmask(DecodeFixed32(w[0], w[1], w[2], w[3])) == Crc32c.Value(w[6..])
  {
    hide Crc32c.Mask, Crc32c.Unmask, Crc32c.Extended, Fixed32, DecodeFixed32;
    var w := Fragment(kind, payload);
    var crc := Crc32c.Extended(Crc32c.Value([kind]), payload);
    Fixed32RoundTrip(Crc32c.Mask(crc));
    Crc32c.MaskRoundTrip(crc);
    Crc32c.ExtendComposes(0, [kind], payload);
    assert w[6..] == [kind] + payload;
  }

  /** Is there room for this many bytes in the block? */
  predicate Room(pos: nat, size: nat) {
    pos % BLOCK_SIZE + size <= BLOCK_SIZE
  }

  lemma {:induction false} HeaderAtStart(buffer: Bytes, kind: Byte, payload: Bytes)
    requires |payload| < 65536 && HEADER_SIZE <= |buffer| && Holds(buffer, 0, Fragment(kind, payload))
    ensures (buffer[4] as nat) + (buffer[5] as nat) * 256 == |payload| && buffer[6] == kind
    ensures HEADER_SIZE + |payload| <= |buffer| ==>
              && buffer[HEADER_SIZE..HEADER_SIZE + |payload|] == payload
              && Crc32c.Unmask(DecodeFixed32(buffer[0], buffer[1], buffer[2], buffer[3]))
                  == Crc32c.Value(buffer[6..HEADER_SIZE + |payload|])
  {
    hide Crc32c.Unmask, Crc32c.Value, DecodeFixed32, Fragment, Holds;
    var w := Fragment(kind, payload);
    forall i | 0 <= i < HEADER_SIZE ensures buffer[i] == w[i] {
      HoldsAt(buffer, 0, w, i);
    }
    HeaderSays(kind, payload);
    if |w| <= |buffer| {
      HoldsAll(buffer, 0, w);
      assert buffer[6..|w|] == buffer[0..|w|][6..] && buffer[HEADER_SIZE..|w|] == buffer[0..|w|][HEADER_SIZE..];
    }
  }

  lemma {:induction false} HoldsAll(file: Bytes, pos: nat, w: Bytes)
    requires Holds(file, pos, w) && pos + |w| <= |file|
    ensures file[pos..pos + |w|] == w
  {
  }

  /** A buffer that starts with a fragment yields it; one that ends inside a fragment reads as the
      end of the file. */
  lemma {:induction false} ParsedFragment(buffer: Bytes, kind: Byte, payload: Bytes, eof: bool)
    requires kind != ZERO && |payload| < 65536 && HEADER_SIZE <= |buffer|
    requires Holds(buffer, 0, Fragment(kind, payload)) && (|buffer| < HEADER_SIZE + |payload| ==> eof)
    ensures Parsed(buffer, eof) == if HEADER_SIZE + |payload| <= |buffer|
        then (Found(kind, payload), HEADER_SIZE + |payload|)
        else (Eof, |buffer|)
  {
    hide Crc32c.Unmask, Crc32c.Value, DecodeFixed32, Fragment, Holds;
    HeaderAtStart(buffer, kind, payload);
  }

  lemma {:induction false} HoldsInSlice(file: Bytes, pos: nat, end: nat, w: Bytes)
    requires pos <= end <= |file| && Holds(file, pos, w) && (end < |file| ==> pos + |w| <= end)
    ensures Holds(file[pos..end], 0, w)
  {
    var s := file[pos..end];
    if |w| <= |s| {
      assert s[0..|w|] == file[pos..pos + |w|];
    } else {
      assert s[0..] == file[pos..];
    }
  }

  lemma {:induction false} FragmentRead(file: Bytes, pos: nat, kind: Byte, payload: Bytes)
    requires kind != ZERO && |payload| < 65536 && Room(pos, HEADER_SIZE + |payload|)
    requires Holds(file, pos, Fragment(kind, payload)) && pos + HEADER_SIZE + |payload| <= |file|
    ensures ReadPhysical(file, pos) == (Found(kind, payload), pos + HEADER_SIZE + |payload|)
  {
    hide Parsed, Fragment, Holds, HeaderAt, BlockEnd, Room;
    HeaderHere(pos, HEADER_SIZE + |payload|);
    var eof := BlockEnd(pos) > |file|;
    var end := if eof then |file| else BlockEnd(pos);
    HoldsInSlice(file, pos, end, Fragment(kind, payload));
    ParsedFragment(file[pos..end], kind, payload, eof);
  }

  lemma {:induction false} HeaderHere(pos: nat, size: nat)
    requires HEADER_SIZE <= size && Room(pos, size)
    ensures HeaderAt(pos) == pos && pos + size <= BlockEnd(pos)
  {
  }

  /** A fragment that is cut short reads as the end of the file. */
  lemma {:induction false} FragmentTorn(file: Bytes, pos: nat, kind: Byte, payload: Bytes)
    requires kind != ZERO && |payload| < 65536 && Room(pos, HEADER_SIZE + |payload|)
    requires Holds(file, pos, Fragment(kind, payload)) && |file| < pos + HEADER_SIZE + |payload|
    ensures pos <= |file| && ReadPhysical(file, pos).0 == Eof
  {
    hide Parsed, Fragment, Holds, HeaderAt, BlockEnd, Room;
    HeaderHere(pos, HEADER_SIZE + |payload|);
    HoldsStart(file, pos, Fragment(kind, payload));
    if pos + HEADER_SIZE <= |file| {
      HoldsInSlice(file, pos, |file|, Fragment(kind, payload));
      ParsedFragment(file[pos..|file|], kind, payload, true);
    }
  }

  lemma {:induction false} HoldsStart(file: Bytes, pos: nat, w: Bytes)
    requires Holds(file, pos, w)
    ensures pos <= |file|
  {
  }

  /** A trailer is skipped. */
  lemma {:induction false} TrailerSkipped(file: Bytes, pos: nat, left: nat)
    requires pos <= |file| && left == BLOCK_SIZE - pos % BLOCK_SIZE < HEADER_SIZE
    ensures (pos + left) % BLOCK_SIZE == 0
    ensures if pos + left <= |file| then ReadPhysical(file, pos) == ReadPhysical(file, pos + left)
            else ReadPhysical(file, pos).0 == Eof
  {
    TrailerEnds(pos, left);
    hide HeaderAt, BlockEnd, Parsed;
  }

  lemma {:induction false} TrailerEnds(pos: nat, left: nat)
    requires left == BLOCK_SIZE - pos % BLOCK_SIZE < HEADER_SIZE
    ensures HeaderAt(pos) == HeaderAt(pos + left) == pos + left && (pos + left) % BLOCK_SIZE == 0
  {
  }

  // ---------- One record ----------

  /** From a record's bytes, or those of its remaining fragments, the reader gets the record if they
      are all there, and the end of the file otherwise. It reports nothing. */
  lemma {:induction false} RecordRead(file: Bytes, pos: nat, data: Bytes, begin: bool, scratch: Bytes)
    requires pos <= |file| && Holds(file, pos, Framed(pos % BLOCK_SIZE, data, begin)) && (begin ==> scratch == [])
    ensures var w, r := Framed(pos % BLOCK_SIZE, data, begin), ReadFrom(file, pos, !begin, scratch);
            if pos + |w| <= |file| then r == Outcome(Some(scratch + data), pos + |w|, [])
            else r.record == None && r.reports == []
    decreases |data|, if pos % BLOCK_SIZE == 0 then 0 else 1
  {
    hide ReadPhysical, ReadFrom, Fragment, Holds, HeaderAt, Framed, KindOf;
    FramedCases(pos % BLOCK_SIZE, data, begin);
    var at := pos % BLOCK_SIZE;
    var left := BLOCK_SIZE - at;
    if left < HEADER_SIZE {
      HoldsBoth(file, pos, Zeros(left), Framed(0, data, begin));
      TrailerSkipped(file, pos, left);
      if pos + left <= |file| {
        RecordRead(file, pos + left, data, begin, scratch);
        SamePhysicalReadsAlike(file, pos, pos + left, !begin, scratch);
      } else {
        EndRead(file, pos, !begin, scratch);
      }
    } else {
      var room := left - HEADER_SIZE;
      if |data| <= room {
        LastFragmentRead(file, pos, data, begin, scratch);
      } else {
        HoldsBoth(file, pos, Fragment(KindOf(begin, false), data[..room]), Framed(0, data[room..], false));
        if pos + left <= |file| {
          NextBlock(pos, left);
          RecordRead(file, pos + left, data[room..], false, scratch + data[..room]);
          assert scratch + data[..room] + data[room..] == scratch + data;
          FragmentRead(file, pos, KindOf(begin, false), data[..room]);
          FragmentJoins(file, pos, KindOf(begin, false), data[..room], begin, scratch);
        } else {
          FragmentTorn(file, pos, KindOf(begin, false), data[..room]);
          EndRead(file, pos, !begin, scratch);
        }
      }
    }
  }

  lemma {:induction false} NextBlock(pos: nat, left: nat)
    requires left == BLOCK_SIZE - pos % BLOCK_SIZE
    ensures (pos + left) % BLOCK_SIZE == 0
  {
  }

  lemma {:induction false} EndRead(file: Bytes, pos: nat, fragmented: bool, scratch: Bytes)
    requires pos <= |file| && ReadPhysical(file, pos).0 == Eof
    ensures ReadFrom(file, pos, fragmented, scratch).record == None
        && ReadFrom(file, pos, fragmented, scratch).reports == []
  {
    hide ReadPhysical;
  }

  /** The last, or only, fragment of a record. */
  lemma {:induction false} LastFragmentRead(file: Bytes, pos: nat, data: Bytes, begin: bool, scratch: Bytes)
    requires pos <= |file| && |data| < 65536 && Room(pos, HEADER_SIZE + |data|) && (begin ==> scratch == [])
    requires Holds(file, pos, Fragment(KindOf(begin, true), data))
    ensures var r := ReadFrom(file, pos, !begin, scratch);
            if pos + HEADER_SIZE + |data| <= |file|
                then r == Outcome(Some(scratch + data), pos + HEADER_SIZE + |data|, [])
                else r.record == None && r.reports == []
  {
    hide ReadPhysical, Fragment, Holds;
    var kind := KindOf(begin, true);
    if pos + HEADER_SIZE + |data| <= |file| {
      FragmentRead(file, pos, kind, data);
      assert scratch == [] ==> scratch + data == data;
    } else {
      FragmentTorn(file, pos, kind, data);
      EndRead(file, pos, !begin, scratch);
    }
  }

  /** A first or middle fragment is put behind those before it, and nothing is reported. */
  lemma {:induction false} FragmentJoins(file: Bytes, pos: nat, kind: Byte, payload: Bytes, begin: bool, scratch: Bytes)
    requires pos <= |file| && kind == KindOf(begin, false) && (begin ==> scratch == [])
    requires ReadPhysical(file, pos) == (Found(kind, payload), pos + HEADER_SIZE + |payload|)
    ensures pos + HEADER_SIZE + |payload| <= |file|
    ensures ReadFrom(file, pos, !begin, scratch)
        == ReadFrom(file, pos + HEADER_SIZE + |payload|, true, scratch + payload)
  {
    hide ReadPhysical;
    assert scratch == [] ==> scratch + payload == payload;
    var r := ReadFrom(file, pos + HEADER_SIZE + |payload|, true, scratch + payload);
    assert [] + r.reports == r.reports;
  }

  lemma {:induction false} SamePhysicalReadsAlike(file: Bytes, pos: nat, pos': nat, fragmented: bool, scratch: Bytes)
    requires pos <= |file| && pos' <= |file| && ReadPhysical(file, pos) == ReadPhysical(file, pos')
    ensures ReadFrom(file, pos, fragmented, scratch) == ReadFrom(file, pos', fragmented, scratch)
  {
    hide ReadPhysical;
  }

  // ---------- The whole file ----------

  /** How many records lie whole in the first `n` bytes of a log that starts at `at`. */
  function Whole(at: nat, records: seq<Bytes>, n: int): (k: nat)
    ensures k <= |records|
    decreases |records|
  {
    if records == [] then 0
    else
      var w := |Framed(at % BLOCK_SIZE, records[0], true)|;
      if n < w then 0 else 1 + Whole(at + w, records[1..], n - w)
  }

  /** A record is whole in a prefix exactly when the prefix reaches the end of its last fragment. */
  lemma {:induction false} WholeIsByEnd(at: nat, records: seq<Bytes>, n: nat, k: nat)
    requires k <= |records|
    ensures k <= Whole(at, records, n) <==> |Log(at, records[..k])| <= n
    decreases k
  {
    hide Framed;
    if k > 0 {
      var w := |Framed(at % BLOCK_SIZE, records[0], true)|;
      assert records[..k][0] == records[0] && records[..k][1..] == records[1..][..k - 1];
      if n >= w {
        WholeIsByEnd(at + w, records[1..], n - w, k - 1);
      }
    }
  }

  lemma {:induction false} AllWhole(records: seq<Bytes>)
    ensures Whole(0, records, |Log(0, records)|) == |records|
  {
    hide Log, Whole;
    assert records[..|records|] == records;
    WholeIsByEnd(0, records, |Log(0, records)|, |records|);
  }

  /** Cut off inside its last record, a log has all the others whole. */
  lemma {:induction false} AllButLastWhole(records: seq<Bytes>, n: nat)
    requires records != [] && |Log(0, records[..|records| - 1])| <= n < |Log(0, records)|
    ensures Whole(0, records, n) == |records| - 1
  {
    hide Log, Whole;
    assert records[..|records|] == records;
    WholeIsByEnd(0, records, n, |records| - 1);
    WholeIsByEnd(0, records, n, |records|);
  }

  lemma {:induction false} TornTailFrom(file: Bytes, pos: nat, records: seq<Bytes>)
    requires pos <= |file| && |file| <= pos + |Log(pos, records)| && Holds(file, pos, Log(pos, records))
    ensures ReadAll(file, pos) == (records[..Whole(pos, records, |file| - pos)], [])
    decreases |records|
  {
    hide ReadFrom, Framed, Holds, ReadAll;
    if records == [] {
      NothingMore(file, pos);
      LastRecord(file, pos);
    } else {
      var w := Framed(pos % BLOCK_SIZE, records[0], true);
      HoldsBoth(file, pos, w, Log(pos + |w|, records[1..]));
      RecordRead(file, pos, records[0], true, []);
      if pos + |w| <= |file| {
        TornTailFrom(file, pos + |w|, records[1..]);
        assert [] + records[0] == records[0];
        NextRecord(file, pos, records[0], pos + |w|);
        assert [records[0]] + records[1..][..Whole(pos + |w|, records[1..], |file| - pos - |w|)]
            == records[..Whole(pos, records, |file| - pos)];
      } else {
        LastRecord(file, pos);
      }
    }
  }

  lemma {:induction false} NextRecord(file: Bytes, pos: nat, record: Bytes, next: nat)
    requires pos <= |file| && ReadFrom(file, pos, false, []) == Outcome(Some(record), next, [])
    ensures next <= |file| && ReadAll(file, pos) == ([record] + ReadAll(file, next).0, ReadAll(file, next).1)
  {
    hide ReadFrom;
    var rest := ReadAll(file, next);
    assert [] + rest.1 == rest.1;
  }

  lemma {:induction false} LastRecord(file: Bytes, pos: nat)
    requires pos <= |file| && ReadFrom(file, pos, false, []).record == None
        && ReadFrom(file, pos, false, []).reports == []
    ensures ReadAll(file, pos) == ([], [])
  {
    hide ReadFrom;
  }

  lemma {:induction false} NothingMore(file: Bytes, pos: nat)
    requires pos == |file|
    ensures ReadFrom(file, pos, false, []).record == None && ReadFrom(file, pos, false, []).reports == []
  {
    assert ReadPhysical(file, pos).0 == Eof;
  }

  lemma {:induction false} PrefixHolds(w: Bytes, n: nat)
    requires n <= |w|
    ensures Holds(w[..n], 0, w)
  {
    assert w[..n][0..] == w[..n];
  }

  /** Cut a written log anywhere: the reader returns exactly the records whose last fragment lies
      wholly in what is left, in order, and reports no corruption. */
  lemma {:induction false} TornTail(records: seq<Bytes>, n: nat)
    requires n <= |Log(0, records)|
    ensures var k := Whole(0, records, n);
            && ReadAll(Log(0, records)[..n], 0) == (records[..k], [])
            && |Log(0, records[..k])| <= n && (k < |records| ==> n < |Log(0, records[..k + 1])|)
  {
    hide Framed, Log, Whole, ReadAll;
    var k := Whole(0, records, n);
    WholeIsByEnd(0, records, n, k);
    if k < |records| {
      WholeIsByEnd(0, records, n, k + 1);
    }
    PrefixHolds(Log(0, records), n);
    TornTailFrom(Log(0, records)[..n], 0, records);
  }

  /** An untouched log reads back as what was written. */
  lemma {:induction false} LogRoundTrips(records: seq<Bytes>)
    ensures ReadAll(Log(0, records), 0) == (records, [])
  {
    hide Framed, Log, Whole, ReadAll;
    var w := Log(0, records);
    TornTail(records, |w|);
    AllWhole(records);
    assert records[..|records|] == records && w[..|w|] == w;
  }

  /** Writing some records and later the rest, from where the file then ends, writes the same bytes. */
  lemma {:induction false} ReopenedLog(at: nat, a: seq<Bytes>, b: seq<Bytes>)
    ensures Log(at, a + b) == Log(at, a) + Log(at + |Log(at, a)|, b)
    decreases |a|
  {
    hide Framed;
    if a == [] {
      assert a + b == b;
    } else {
      var w := Framed(at % BLOCK_SIZE, a[0], true);
      assert (a + b)[1..] == a[1..] + b;
      ReopenedLog(at + |w|, a[1..], b);
    }
  }
}
