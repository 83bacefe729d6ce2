/** The cursor over a block. */
module BlockIter {
  import opened Format
  import opened Coding
  import opened Blocks

  // ---------- Reading an entry ----------

  /** The three lengths before an entry's bytes, and how many bytes those take. */
  function DecodeEntry(input: Bytes): (r: Option<(nat, nat, nat, nat)>)
    ensures r.Some? ==> r.value.3 <= |input|
  {
    if |input| < 3 then None
    else if input[0] < 128 && input[1] < 128 && input[2] < 128 then
      Fitting(input[0], input[1], input[2], 3, |input|)
    else
      match GetVarint32(input)
      case None => None
      case Some((shared, r1)) =>
        match GetVarint32(r1)
        case None => None
        case Some((nonShared, r2)) =>
          match GetVarint32(r2)
          case None => None
          case Some((valueLength, r3)) => Fitting(shared, nonShared, valueLength, |input| - |r3|, |input|)
  }

  function Fitting(shared: nat, nonShared: nat, valueLength: nat, header: nat, size: nat): Option<(nat, nat, nat, nat)>
    requires header <= size
  {
    if size - header < (nonShared + valueLength) % TWO_32 then None else Some((shared, nonShared, valueLength, header))
  }

  /** What is decoded from any bytes lies within them; input is refused only when one of the lengths
      is malformed, or when they reach past the end. */
  lemma {:induction false} EntryStaysInside(input: Bytes)
    ensures match DecodeEntry(input)
            case Some((_, nonShared, valueLength, header)) =>
              3 <= header && header + (nonShared + valueLength) % TWO_32 <= |input|
            case None =>
              || |input| < 3 || GetVarint32(input).None? || GetVarint32(GetVarint32(input).value.1).None?
              || GetVarint32(GetVarint32(GetVarint32(input).value.1).value.1).None?
              || var (nonShared, rest) := GetVarint32(GetVarint32(input).value.1).value;
                 |GetVarint32(rest).value.1| < (nonShared + GetVarint32(rest).value.0) % TWO_32
  {
    hide ReadVarint;
    if |input| >= 3 && input[0] < 128 && input[1] < 128 && input[2] < 128 {
      OneByteRead(input);
      OneByteRead(input[1..]);
      OneByteRead(input[2..]);
      assert input[1..][1..] == input[2..] && input[2..][1..] == input[3..];
    }
  }

  lemma {:induction false} OneByteRead(input: Bytes)
    requires input != [] && input[0] < 128
    ensures GetVarint32(input) == Some((input[0] as nat, input[1..]))
  {
  }

  function Header(shared: nat, e: KeyValue): Bytes
    requires shared <= |e.key|
  {
    Varint(shared) + (Varint(|e.key| - shared) + Varint(|e.value|))
  }

  lemma {:induction false} EntryParts(shared: nat, e: KeyValue)
    requires shared <= |e.key|
    ensures EncodedEntry(shared, e) == Header(shared, e) + (e.key[shared..] + e.value)
  {
    hide Varint;
  }

  lemma {:induction false} VarintStarts(v: nat, rest: Bytes)
    ensures Varint(v) + rest != [] && ((Varint(v) + rest)[0] < 128 <==> v < 128)
    ensures v < 128 ==> Varint(v) == [v]
  {
  }

  /** Both the fast path and the slow one read back the lengths that were written. */
  lemma {:induction false} EntryDecodes(shared: nat, e: KeyValue, rest: Bytes)
    requires shared <= |e.key| && |e.key| + |e.value| < TWO_32
    ensures DecodeEntry(EncodedEntry(shared, e) + rest)
        == Some((shared, |e.key| - shared, |e.value|, |Header(shared, e)|))
  {
    hide Varint, GetVarint32;
    var nonShared, length := |e.key| - shared, |e.value|;
    var body := e.key[shared..] + e.value + rest;
    var r2 := Varint(length) + body;
    var r1 := Varint(nonShared) + r2;
    var input := EncodedEntry(shared, e) + rest;
    assert input == Varint(shared) + r1;
    Varint32RoundTrip(shared, r1);
    Varint32RoundTrip(nonShared, r2);
    Varint32RoundTrip(length, body);
    VarintStarts(shared, r1);
    VarintStarts(nonShared, r2);
    VarintStarts(length, body);
    if input[0] < 128 {
      assert input[1] == r1[0];
      if input[1] < 128 {
        assert input[2] == r2[0];
      }
    }
  }

  // ---------- Entries by their place ----------

  lemma {:induction false} OffsetsGrow(es: seq<KeyValue>, interval: nat, i: nat, j: nat)
    requires i < j <= |es|
    ensures Offset(es, interval, i) < Offset(es, interval, j)
    decreases j
  {
    hide EncodedEntry, EncodedEntries, SharedWith, Offset;
    EntryAt(es, interval, j - 1);
    if i < j - 1 {
      OffsetsGrow(es, interval, i, j - 1);
    }
  }

  /** The bytes up to the end of an entry. */
  lemma {:induction false} EntryAt(es: seq<KeyValue>, interval: nat, i: nat)
    requires i < |es|
    ensures var shared := SharedWith(es[..i], es[i], interval);
            && EncodedEntries(es[..i + 1], interval) == EncodedEntries(es[..i], interval) + EncodedEntry(shared, es[i])
            && Offset(es, interval, i + 1) == Offset(es, interval, i) + |EncodedEntry(shared, es[i])|
  {
    hide EncodedEntry, SharedWith;
    assert es[..i + 1][..i] == es[..i] && es[..i + 1][i] == es[i];
  }

  /** Whatever follows, the bytes of the first entries come first. */
  lemma {:induction false} EntriesPrefix(es: seq<KeyValue>, interval: nat, i: nat)
    requires i <= |es|
    ensures Offset(es, interval, i) <= |EncodedEntries(es, interval)|
    ensures EncodedEntries(es, interval)[..Offset(es, interval, i)] == EncodedEntries(es[..i], interval)
    decreases |es| - i
  {
    hide EncodedEntry, SharedWith;
    if i == |es| {
      assert es[..i] == es;
    } else {
      EntriesPrefix(es, interval, i + 1);
      EntryAt(es, interval, i);
    }
  }

  /** From the start of an entry to the end of the data stand the entry and the rest. */
  lemma {:induction false} EntryInData(es: seq<KeyValue>, interval: nat, i: nat) returns (rest: Bytes)
    requires i < |es|
    ensures Offset(es, interval, i) <= Offset(es, interval, i + 1) <= |EncodedEntries(es, interval)|
    ensures EncodedEntries(es, interval)[Offset(es, interval, i)..]
        == EncodedEntry(SharedWith(es[..i], es[i], interval), es[i]) + rest
  {
    hide EncodedEntry, SharedWith, EncodedEntries;
    var data, a, b := EncodedEntries(es, interval), Offset(es, interval, i), Offset(es, interval, i + 1);
    EntriesPrefix(es, interval, i);
    EntriesPrefix(es, interval, i + 1);
    EntryAt(es, interval, i);
    rest := data[b..];
    assert data[a..] == data[..b][a..] + data[b..];
  }

  // ---------- Restart points in the block ----------

  /** A finished block of these entries, small enough for 32-bit offsets. */
  ghost predicate WellBuilt(data: Bytes, es: seq<KeyValue>, interval: nat) {
    interval >= 1 && data == EncodedBlock(es, interval) && |data| < TWO_32
  }

  function NumRestarts(data: Bytes): nat
    requires |data| >= 4
  {
    FromLittleEndian(data[|data| - 4..])
  }

  /** What the constructor of a block finds: the number of restart points and where they begin. */
  lemma {:induction false} BlockLayout(data: Bytes, es: seq<KeyValue>, interval: nat)
    requires WellBuilt(data, es, interval)
    ensures var n, size := |Restarts(es, interval)|, |EncodedEntries(es, interval)|;
            && |data| >= 4 && NumRestarts(data) == n && n >= 1 && n <= (|data| - 4) / 4 && |data| - (1 + n) * 4 == size
            && data[..size] == EncodedEntries(es, interval)
            && forall i | 0 <= i < n ::
                size + 4 * i + 4 <= |data|
                && FromLittleEndian(data[size + 4 * i..size + 4 * i + 4]) == Restarts(es, interval)[i]
  {
    hide LittleEndian, FromLittleEndian, EncodedEntries, Fixed32s, Restarts;
    var rs := Restarts(es, interval);
    var entries, points, count := EncodedEntries(es, interval), Fixed32s(rs), LittleEndian(|rs|, 4);
    Fixed32sLength(rs);
    SomeRestart(es, interval);
    assert data == entries + points + count;
    FixedCapacities();
    LittleEndianRoundTrip(|rs|, 4);
    assert data[|data| - 4..] == count;
    assert data[..|entries|] == entries;
    forall i | 0 <= i < |rs|
      ensures |entries| + 4 * i + 4 <= |data|
          && FromLittleEndian(data[|entries| + 4 * i..|entries| + 4 * i + 4]) == rs[i]
    {
      Fixed32sAt(rs, i);
      assert data[|entries| + 4 * i..|entries| + 4 * i + 4] == points[4 * i..4 * i + 4];
      RestartInData(es, interval, i);
      LittleEndianRoundTrip(rs[i], 4);
    }
  }

  lemma {:induction false} SomeRestart(es: seq<KeyValue>, interval: nat)
    ensures |Restarts(es, interval)| >= 1 && |Restarts(es, interval)| == |RestartEntries(|es|, interval)|
  {
  }

  lemma {:induction false} RestartInData(es: seq<KeyValue>, interval: nat, i: nat)
    requires i < |Restarts(es, interval)|
    ensures var r := RestartEntries(|es|, interval)[i];
            && r <= |es| && Restarts(es, interval)[i] == Offset(es, interval, r) <= |EncodedEntries(es, interval)|
  {
    RestartsIncrease(|es|, interval);
    EntriesPrefix(es, interval, RestartEntries(|es|, interval)[i]);
  }

  // ---------- The cursor ----------

  /** The order of keys. */
  ghost predicate StrictOrder(less: (Bytes, Bytes) -> bool) {
    && (forall a: Bytes, b: Bytes, c: Bytes | less(a, b) && less(b, c) :: less(a, c))
    && (forall a: Bytes, b: Bytes | less(a, b) :: !less(b, a))
  }

  ghost predicate Increasing(es: seq<KeyValue>, less: (Bytes, Bytes) -> bool) {
    forall i, j | 0 <= i < j < |es| :: less(es[i].key, es[j].key)
  }

  /** Offsets are in the order of the entries. */
  lemma {:induction false} OffsetsCompare(es: seq<KeyValue>, interval: nat, i: nat, j: nat)
    requires i <= |es| && j <= |es|
    ensures Offset(es, interval, i) < Offset(es, interval, j) <==> i < j
    ensures Offset(es, interval, |es|) == |EncodedEntries(es, interval)|
  {
    assert es[..|es|] == es;
    hide EncodedEntries, Offset;
    if i < j {
      OffsetsGrow(es, interval, i, j);
    } else if j < i {
      OffsetsGrow(es, interval, j, i);
    }
  }

  lemma {:induction false} FirstRestart(n: nat, interval: nat)
    ensures |RestartEntries(n, interval)| >= 1 && RestartEntries(n, interval)[0] == 0
  {
  }

  /** Parsing at the start of an entry finds its parts. */
  lemma {:induction false} EntryParses(data: Bytes, es: seq<KeyValue>, interval: nat, j: nat)
    requires WellBuilt(data, es, interval) && j < |es|
    ensures var e, size, at := es[j], |EncodedEntries(es, interval)|, Offset(es, interval, j);
            var shared := SharedWith(es[..j], e, interval);
            var header := |Header(shared, e)|;
            && at <= size <= |data|
                && DecodeEntry(data[at..size]) == Some((shared, |e.key| - shared, |e.value|, header))
            && at + header + |e.key| - shared + |e.value| == Offset(es, interval, j + 1) <= |data|
            && data[at + header..at + header + |e.key| - shared] == e.key[shared..]
            && data[at + header + |e.key| - shared..Offset(es, interval, j + 1)] == e.value
  {
    hide EncodedEntries, EncodedEntry, Header, SharedWith, DecodeEntry, WellBuilt, Offset;
    var e, size, at := es[j], |EncodedEntries(es, interval)|, Offset(es, interval, j);
    var shared := SharedWith(es[..j], e, interval);
    BlockLayout(data, es, interval);
    var rest := EntryInData(es, interval, j);
    EntryAt(es, interval, j);
    EntryParts(shared, e);
    SmallBlock(data, es, interval);
    KeyBounded(es, interval, j);
    EntryDecodes(shared, e, rest);
    var bytes := data[at..size];
    assert bytes == EncodedEntries(es, interval)[at..];
    PartsOf(bytes, Header(shared, e), e.key[shared..], e.value, rest);
    Shifted(data, at, size, |Header(shared, e)|, |e.key| - shared, |e.value|);
  }

  lemma {:induction false} SmallBlock(data: Bytes, es: seq<KeyValue>, interval: nat)
    requires WellBuilt(data, es, interval)
    ensures |data| < TWO_32
  {
  }

  lemma {:induction false} PartsOf(bytes: Bytes, a: Bytes, b: Bytes, c: Bytes, rest: Bytes)
    requires bytes == a + (b + c) + rest
    ensures bytes[|a|..|a| + |b|] == b && bytes[|a| + |b|..|a| + |b| + |c|] == c
  {
  }

  lemma {:induction false} Shifted(data: Bytes, at: nat, size: nat, a: nat, b: nat, c: nat)
    requires at <= size <= |data| && a + b + c <= size - at
    ensures data[at..size][a..a + b] == data[at + a..at + a + b]
    ensures data[at..size][a + b..a + b + c] == data[at + a + b..at + a + b + c]
  {
    SliceOfSlice(data, at, size, a, a + b);
    SliceOfSlice(data, at, size, a + b, a + b + c);
  }

  lemma {:induction false} SliceOfSlice<T>(s: seq<T>, at: nat, end: nat, i: nat, j: nat)
    requires at <= end <= |s| && i <= j <= end - at
    ensures s[at..end][i..j] == s[at + i..at + j]
  {
    var a, b := s[at..end][i..j], s[at + i..at + j];
    assert |a| == |b|;
    assert forall k | 0 <= k < |a| :: a[k] == b[k];
  }

  /** A key and its value take no more bytes than the block has up to their end. */
  lemma {:induction false} KeyBounded(es: seq<KeyValue>, interval: nat, j: nat)
    requires j < |es|
    ensures |es[j].key| + |es[j].value| <= Offset(es, interval, j + 1)
    decreases j
  {
    hide EncodedEntries, Offset, SharedLength;
    EntryAt(es, interval, j);
    if j > 0 {
      KeyBounded(es, interval, j - 1);
    }
    var e, shared := es[j], SharedWith(es[..j], es[j], interval);
    EntryParts(shared, e);
  }

  /** The part of a key that is shared with the key at hand. */
  lemma {:induction false} KeyShared(es: seq<KeyValue>, interval: nat, j: nat, key: Bytes)
    requires j < |es| && (IsRestart(j, interval) || (j > 0 && key == es[j - 1].key))
    ensures var shared := SharedWith(es[..j], es[j], interval);
            shared <= |key| && key[..shared] + es[j].key[shared..] == es[j].key
  {
    var shared := SharedWith(es[..j], es[j], interval);
    assert es[j].key[..shared] + es[j].key[shared..] == es[j].key;
    if !IsRestart(j, interval) {
      assert LastKey(es[..j]) == key;
    }
  }

  class Iter {
    const data: Bytes
    const restarts: nat         // where the restart array begins
    const numRestarts: nat
    var current: nat            // where the current entry begins; `restarts` when there is none
    var restartIndex: nat       // a restart point at or before the current entry
    var key: Bytes
    var valueAt: nat
    var valueLength: nat
    ghost const es: seq<KeyValue>
    ghost const interval: nat
    ghost var at: nat

    ghost predicate Built()
      reads this
    {
      && WellBuilt(data, es, interval) && restarts == |EncodedEntries(es, interval)|
      && numRestarts == |RestartEntries(|es|, interval)|
    }

    ghost function RestartEntry(i: nat): nat
      requires i < |RestartEntries(|es|, interval)|
      reads this
    {
      RestartEntries(|es|, interval)[i]
    }

    /** On an entry: the restart index may lag behind, but never by more than one point. */
    ghost predicate OnEntry(i: nat)
      requires Built()
      reads this
    {
      && i < |es| && at == i && current == Offset(es, interval, i) && key == es[i].key
      && valueAt + valueLength == Offset(es, interval, i + 1) <= |data|
          && data[valueAt..valueAt + valueLength] == es[i].value
      && restartIndex < numRestarts && RestartEntry(restartIndex) <= i
      && (restartIndex + 1 < numRestarts ==> i <= RestartEntry(restartIndex + 1))
    }

    ghost predicate Valid()
      reads this
    {
      Built() && if current < restarts then OnEntry(at) else current == restarts && restartIndex == numRestarts
    }

    /** The entry the cursor is on. */
    ghost function At(): Option<nat>
      reads this
    {
      if current < restarts then Some(at) else None
    }

    constructor (data: Bytes, ghost es: seq<KeyValue>, ghost interval: nat)
      requires WellBuilt(data, es, interval)
      ensures Valid() && At() == None && this.data == data && this.es == es && this.interval == interval
    {
      BlockLayout(data, es, interval);
      SomeRestart(es, interval);
      var n := NumRestarts(data);
      this.data, this.es, this.interval := data, es, interval;
      restarts, numRestarts := |data| - (1 + n) * 4, n;
      current, restartIndex, key, valueAt, valueLength, at := |data| - (1 + n) * 4, n, [], 0, 0, 0;
    }

    predicate IsValid()
      reads this
    {
      current < restarts
    }

    function Value(): Bytes
      requires Valid() && IsValid()
      reads this
      ensures Value() == es[at].value
    {
      data[valueAt..valueAt + valueLength]
    }

    function NextEntryOffset(): nat
      reads this
    {
      valueAt + valueLength
    }

    method GetRestartPoint(i: nat) returns (offset: nat)
      requires Built() && i < numRestarts
      ensures RestartEntry(i) <= |es| && offset == Offset(es, interval, RestartEntry(i))
    {
      hide EncodedEntries, Restarts, RestartEntries, FromLittleEndian;
      BlockLayout(data, es, interval);
      SomeRestart(es, interval);
      RestartInData(es, interval, i);
      offset := FromLittleEndian(data[restarts + 4 * i..restarts + 4 * i + 4]);
    }

    /** Ready to parse entry j next: the key before it is at hand, or not needed. */
    ghost predicate Ready(j: nat)
      requires Built()
      reads this
    {
      && j <= |es| && NextEntryOffset() == Offset(es, interval, j)
      && (IsRestart(j, interval) || (j > 0 && key == es[j - 1].key))
      && restartIndex < numRestarts && RestartEntry(restartIndex) <= j
    }

    method SeekToRestartPoint(i: nat)
      requires Built() && i < numRestarts
      modifies this
      ensures Built() && RestartEntry(i) <= |es| && Ready(RestartEntry(i)) && restartIndex == i
    {
      RestartsIncrease(|es|, interval);
      key := [];
      restartIndex := i;
      var offset := GetRestartPoint(i);
      valueAt, valueLength := offset, 0;
    }

    /** Parse the entry after the current one, if there is one. */
    method ParseNextKey(ghost j: nat) returns (more: bool)
      requires Built() && Ready(j)
      modifies this
      ensures Valid() && (more <==> j < |es|) && At() == if more then Some(j) else None
      ensures more ==> Ready(j + 1)
    {
      hide EncodedEntries, RestartEntries, DecodeEntry, EncodedEntry, SharedWith, IsRestart, WellBuilt, Offset, Header;
      current := NextEntryOffset();
      OffsetsCompare(es, interval, j, |es|);
      if current >= restarts {
        current, restartIndex := restarts, numRestarts;
        return false;
      }
      EntryParses(data, es, interval, j);
      KeyShared(es, interval, j, key);
      var decoded := DecodeEntry(data[current..restarts]);
      if decoded.None? || |key| < decoded.value.0 {
        // A block that was built well has no bad entries.
        assert false;
      }
      var (shared, nonShared, length, header) := decoded.value;
      var p := current + header;
      key := key[..shared] + data[p..p + nonShared];
      valueAt, valueLength := p + nonShared, length;
      at := j;
      AdvanceRestartIndex(j);
      more := true;
    }

    /** Move the restart index up to the last point before the current entry. */
    method AdvanceRestartIndex(ghost j: nat)
      requires Built() && j < |es| && current == Offset(es, interval, j) && restartIndex < numRestarts
          && RestartEntry(restartIndex) <= j
      modifies this`restartIndex
      ensures restartIndex < numRestarts && RestartEntry(restartIndex) <= j
      ensures restartIndex + 1 < numRestarts ==> j <= RestartEntry(restartIndex + 1)
    {
      hide EncodedEntries, RestartEntries, WellBuilt, Offset;
      while restartIndex + 1 < numRestarts
        invariant restartIndex < numRestarts && RestartEntry(restartIndex) <= j
        decreases numRestarts - restartIndex
      {
        var point := GetRestartPoint(restartIndex + 1);
        OffsetsCompare(es, interval, RestartEntry(restartIndex + 1), j);
        if point >= current {
          return;
        }
        restartIndex := restartIndex + 1;
      }
    }

    method SeekToFirst()
      requires Valid()
      modifies this
      ensures Valid() && At() == if es == [] then None else Some(0)
    {
      hide EncodedEntries, WellBuilt, Offset;
      FirstRestart(|es|, interval);
      SeekToRestartPoint(0);
      var more := ParseNextKey(0);
    }

    method SeekToLast()
      requires Valid()
      modifies this
      ensures Valid() && At() == if es == [] then None else Some(|es| - 1)
    {
      hide EncodedEntries, WellBuilt, Offset, RestartEntries;
      FirstRestart(|es|, interval);
      SeekToRestartPoint(numRestarts - 1);
      ghost var j := RestartEntry(numRestarts - 1);
      RestartsIncrease(|es|, interval);
      var more := ParseNextKey(j);
      while more && NextEntryOffset() < restarts
        invariant Valid() && j <= |es| && (more <==> j < |es|) && At() == (if more then Some(j) else None)
            && (more ==> Ready(j + 1))
        invariant j == |es| ==> es == []
        decreases |es| - j
      {
        OffsetsCompare(es, interval, j + 1, |es|);
        j := j + 1;
        more := ParseNextKey(j);
      }
      if more {
        OffsetsCompare(es, interval, j + 1, |es|);
      }
    }

    method Next()
      requires Valid() && IsValid()
      modifies this
      ensures Valid() && At() == if old(at) + 1 < |es| then Some(old(at) + 1) else None
    {
      var more := ParseNextKey(at + 1);
    }

    /** There are no links back: go to a restart point before the entry, and forward again. */
    method Prev()
      requires Valid() && IsValid()
      modifies this
      ensures Valid() && At() == if old(at) > 0 then Some(old(at) - 1) else None
    {
      hide EncodedEntries, WellBuilt, Offset, RestartEntries;
      ghost var i := at;
      var original := current;
      FirstRestart(|es|, interval);
      var point := GetRestartPoint(restartIndex);
      while point >= original
        invariant Built() && i < |es| && original == Offset(es, interval, i) && current == original
            && restartIndex < numRestarts
        invariant RestartEntry(restartIndex) <= |es| && point == Offset(es, interval, RestartEntry(restartIndex))
        decreases restartIndex
      {
        OffsetsCompare(es, interval, RestartEntry(restartIndex), i);
        if restartIndex == 0 {
          current, restartIndex := restarts, numRestarts;
          return;
        }
        restartIndex := restartIndex - 1;
        point := GetRestartPoint(restartIndex);
      }
      OffsetsCompare(es, interval, RestartEntry(restartIndex), i);
      SeekToRestartPoint(restartIndex);
      ghost var j := RestartEntry(restartIndex);
      var more := ParseNextKey(j);
      while more && NextEntryOffset() < original
        invariant Valid() && j < i && more && At() == Some(j) && Ready(j + 1)
        decreases i - j
      {
        OffsetsCompare(es, interval, j + 1, i);
        j := j + 1;
        more := ParseNextKey(j);
      }
      OffsetsCompare(es, interval, j + 1, i);
    }

    /** Binary search among the restart points, then forward to the first key at or after the target. */
    method Seek(target: Bytes, less: (Bytes, Bytes) -> bool)
      requires Valid() && StrictOrder(less) && Increasing(es, less)
      modifies this
      ensures Valid()
      ensures match At()
              case Some(i) => !less(es[i].key, target) && forall k | 0 <= k < i :: less(es[k].key, target)
              case None => forall k | 0 <= k < |es| :: less(es[k].key, target)
    {
      hide EncodedEntries, WellBuilt, Offset, RestartEntries, IsRestart, DecodeEntry;
      FirstRestart(|es|, interval);
      RestartsIncrease(|es|, interval);
      var left, right := 0, numRestarts - 1;
      while left < right
        invariant 0 <= left <= right < numRestarts
        invariant left > 0 ==> RestartEntry(left) < |es| && less(es[RestartEntry(left)].key, target)
        decreases right - left
      {
        var mid := (left + right + 1) / 2;
        RestartIsEntry(|es|, interval, mid);
        var offset := GetRestartPoint(mid);
        ghost var j := RestartEntry(mid);
        EntryParses(data, es, interval, j);
        var decoded := DecodeEntry(data[offset..restarts]);
        if decoded.None? || decoded.value.0 != 0 {
          // A restart point of a block that was built well shares nothing.
          assert false;
        }
        var (shared, nonShared, length, header) := decoded.value;
        var midKey := data[offset + header..offset + header + nonShared];
        assert midKey == es[j].key;
        if less(midKey, target) {
          left := mid;
        } else {
          right := mid - 1;
        }
      }
      SeekToRestartPoint(left);
      ghost var j := RestartEntry(left);
      BeforeIsLess(es, j, target, less, left == 0);
      while true
        invariant Built() && j <= |es| && Ready(j) && forall k | 0 <= k < j :: less(es[k].key, target)
        decreases |es| - j
      {
        var more := ParseNextKey(j);
        if !more {
          return;
        }
        if !less(key, target) {
          return;
        }
        j := j + 1;
      }
    }
  }

  lemma {:induction false} RestartIsEntry(n: nat, interval: nat, i: nat)
    requires 0 < i < |RestartEntries(n, interval)|
    ensures RestartEntries(n, interval)[i] < n && IsRestart(RestartEntries(n, interval)[i], interval)
  {
    RestartsIncrease(n, interval);
    assert RestartEntries(n, interval)[0] < RestartEntries(n, interval)[i];
  }

  /** All keys before one that is less than the target are less, too. */
  lemma {:induction false} BeforeIsLess(es: seq<KeyValue>, j: nat, target: Bytes, less: (Bytes, Bytes) -> bool,
      first: bool)
    requires StrictOrder(less) && Increasing(es, less) && j <= |es|
    requires if first then j == 0 else j < |es| && less(es[j].key, target)
    ensures forall k | 0 <= k < j :: less(es[k].key, target)
  {
    forall k | 0 <= k < j ensures less(es[k].key, target) {
      assert less(es[k].key, es[j].key);
    }
  }
}
