/** Blocks of a table: keys compressed against the one before, with restart points. */
module Blocks {
  import opened Format
  import opened Coding

  datatype KeyValue = KeyValue(key: Bytes, value: Bytes)

  // ---------- Restart points ----------

  /** How many entries have been added since the last restart point, after n entries. */
  function Counter(n: nat, interval: nat): nat {
    if n == 0 then 0 else if Counter(n - 1, interval) == interval then 1 else Counter(n - 1, interval) + 1
  }

  predicate IsRestart(i: nat, interval: nat) {
    i == 0 || Counter(i, interval) == interval
  }

  /** The entries at restart points, among n. An empty block has one too. */
  function RestartEntries(n: nat, interval: nat): (r: seq<nat>)
    ensures r != [] && r[0] == 0
  {
    if n <= 1 then [0]
    else if IsRestart(n - 1, interval) then RestartEntries(n - 1, interval) + [n - 1]
    else RestartEntries(n - 1, interval)
  }

  ghost predicate Ascending(r: seq<nat>, n: nat, interval: nat) {
    && (forall i, j | 0 <= i < j < |r| :: r[i] < r[j])
    && (forall i | 0 <= i < |r| :: IsRestart(r[i], interval) && (r[i] == 0 || r[i] < n))
  }

  lemma {:induction false} RestartsIncrease(n: nat, interval: nat)
    ensures Ascending(RestartEntries(n, interval), n, interval)
  {
    hide IsRestart;
    ZeroIsRestart(interval);
    if n > 1 {
      RestartsIncrease(n - 1, interval);
    }
  }

  lemma {:induction false} ZeroIsRestart(interval: nat)
    ensures IsRestart(0, interval)
  {
  }

  // ---------- The bytes of a block ----------

  /** How far two keys agree. */
  function SharedLength(a: Bytes, b: Bytes): (r: nat)
    ensures r <= |a| && r <= |b| && a[..r] == b[..r]
    ensures r < |a| && r < |b| ==> a[r] != b[r]
  {
    if a == [] || b == [] || a[0] != b[0] then 0
    else
      var r := SharedLength(a[1..], b[1..]);
      assert a[..1 + r] == [a[0]] + a[1..][..r] && b[..1 + r] == [b[0]] + b[1..][..r];
      1 + r
  }

  function LastKey(es: seq<KeyValue>): Bytes {
    if es == [] then [] else es[|es| - 1].key
  }

  /** An entry whose key shares its first bytes with the key before. */
  function EncodedEntry(shared: nat, e: KeyValue): (r: Bytes)
    requires shared <= |e.key|
    ensures |r| >= 3
  {
    Varint(shared) + (Varint(|e.key| - shared) + (Varint(|e.value|) + (e.key[shared..] + e.value)))
  }

  function SharedWith(before: seq<KeyValue>, e: KeyValue, interval: nat): (r: nat)
    ensures r <= |e.key| && r <= |LastKey(before)| && LastKey(before)[..r] == e.key[..r]
    ensures IsRestart(|before|, interval) ==> r == 0
  {
    if IsRestart(|before|, interval) then 0 else SharedLength(LastKey(before), e.key)
  }

  function EncodedEntries(es: seq<KeyValue>, interval: nat): Bytes {
    if es == [] then []
    else
      var n := |es| - 1;
      EncodedEntries(es[..n], interval) + EncodedEntry(SharedWith(es[..n], es[n], interval), es[n])
  }

  /** Where an entry begins; the end of the data for i = |es|. */
  function Offset(es: seq<KeyValue>, interval: nat, i: nat): nat
    requires i <= |es|
  {
    |EncodedEntries(es[..i], interval)|
  }

  function Fixed32s(ns: seq<nat>): Bytes {
    if ns == [] then [] else Fixed32s(ns[..|ns| - 1]) + LittleEndian(ns[|ns| - 1], 4)
  }

  function Restarts(es: seq<KeyValue>, interval: nat): seq<nat> {
    var r := RestartEntries(|es|, interval);
    seq(|r|, i requires 0 <= i < |r| => if r[i] <= |es| then Offset(es, interval, r[i]) else 0)
  }

  /** The finished block: entries, restart points, and their number. */
  function EncodedBlock(es: seq<KeyValue>, interval: nat): Bytes {
    EncodedEntries(es, interval) + Fixed32s(Restarts(es, interval)) + LittleEndian(|Restarts(es, interval)|, 4)
  }

  // ---------- The builder ----------

  class BlockBuilder {
    const interval: nat
    var buffer: Bytes
    var restarts: seq<nat>
    var counter: nat
    var lastKey: Bytes
    ghost var entries: seq<KeyValue>

    ghost predicate Valid()
      reads this
    {
      && interval >= 1 && buffer == EncodedEntries(entries, interval) && restarts == Restarts(entries, interval)
      && counter == Counter(|entries|, interval) && lastKey == LastKey(entries)
    }

    constructor (interval: nat)
      requires interval >= 1
      ensures Valid() && entries == [] && this.interval == interval
    {
      this.interval := interval;
      buffer, restarts, counter, lastKey, entries := [], [0], 0, [], [];
    }

    method Add(key: Bytes, value: Bytes)
      requires Valid()
      modifies this
      ensures Valid() && entries == old(entries) + [KeyValue(key, value)]
    {
      hide Varint, EncodedEntries, Restarts, EncodedEntry, Counter, SharedLength;
      ghost var e := KeyValue(key, value);
      EntryAdded(entries, e, interval);
      var shared := 0;
      if counter < interval {
        shared := CountShared(lastKey, key);
      } else {
        restarts := restarts + [|buffer|];
        counter := 0;
      }
      assert shared == SharedWith(entries, e, interval);
      Joined(lastKey, key, shared);
      EntryBytes(shared, e);
      buffer := buffer + (Varint(shared) + (Varint(|key| - shared) + (Varint(|value|) + (key[shared..] + value))));
      lastKey := lastKey[..shared] + key[shared..];
      counter := counter + 1;
      entries := entries + [e];
    }

    method Reset()
      requires Valid()
      modifies this
      ensures Valid() && entries == []
    {
      buffer, restarts, counter, lastKey, entries := [], [0], 0, [], [];
    }

    predicate Empty()
      requires Valid()
      reads this
      ensures Empty() <==> entries == []
    {
      hide EncodedEntry, SharedWith, Restarts;
      buffer == []
    }

    /** The estimate is exact: no more is added when the block is finished. */
    method CurrentSizeEstimate() returns (size: nat)
      requires Valid()
      ensures size == |EncodedBlock(entries, interval)|
    {
      hide Fixed32s, EncodedEntries, Restarts;
      Fixed32sLength(restarts);
      size := |buffer| + |restarts| * 4 + 4;
    }

    method Finish() returns (block: Bytes)
      requires Valid()
      ensures block == EncodedBlock(entries, interval)
    {
      hide Fixed32s, EncodedEntries, Restarts;
      block := buffer;
      Fixed32sOfMore(restarts, 0);
      for i := 0 to |restarts|
        invariant block == buffer + Fixed32s(restarts[..i])
      {
        Fixed32sOfMore(restarts, i);
        block := block + LittleEndian(restarts[i], 4);
      }
      assert restarts[..|restarts|] == restarts;
      block := block + LittleEndian(|restarts|, 4);
    }
  }

  lemma {:induction false} Fixed32sAt(ns: seq<nat>, i: nat)
    requires i < |ns|
    ensures |Fixed32s(ns)| == 4 * |ns| && Fixed32s(ns)[4 * i..4 * i + 4] == LittleEndian(ns[i], 4)
    decreases |ns|
  {
    hide LittleEndian;
    var n := |ns| - 1;
    Fixed32sLength(ns);
    Fixed32sLength(ns[..n]);
    if i < n {
      Fixed32sAt(ns[..n], i);
      assert Fixed32s(ns)[4 * i..4 * i + 4] == Fixed32s(ns[..n])[4 * i..4 * i + 4];
    }
  }

  lemma {:induction false} Fixed32sLength(ns: seq<nat>)
    ensures |Fixed32s(ns)| == 4 * |ns|
    decreases |ns|
  {
    if ns != [] {
      Fixed32sLength(ns[..|ns| - 1]);
    }
  }

  lemma {:induction false} Fixed32sOfMore(ns: seq<nat>, i: nat)
    requires i <= |ns|
    ensures i < |ns| ==> Fixed32s(ns[..i + 1]) == Fixed32s(ns[..i]) + LittleEndian(ns[i], 4)
    ensures i == 0 ==> Fixed32s(ns[..i]) == []
  {
    if i < |ns| {
      assert ns[..i + 1][..i] == ns[..i];
    }
  }

  method CountShared(a: Bytes, b: Bytes) returns (shared: nat)
    ensures shared == SharedLength(a, b)
  {
    hide SharedLength;
    shared := 0;
    var minLength := if |a| < |b| then |a| else |b|;
    while shared < minLength && a[shared] == b[shared]
      invariant shared <= minLength && a[..shared] == b[..shared]
    {
      shared := shared + 1;
    }
    SharedIs(a, b, shared);
  }

  lemma {:induction false} Joined(a: Bytes, b: Bytes, n: nat)
    requires n <= |a| && n <= |b| && a[..n] == b[..n]
    ensures a[..n] + b[n..] == b
  {
  }

  lemma {:induction false} EntryBytes(shared: nat, e: KeyValue)
    requires shared <= |e.key|
    ensures EncodedEntry(shared, e)
        == Varint(shared) + (Varint(|e.key| - shared) + (Varint(|e.value|) + (e.key[shared..] + e.value)))
  {
  }

  lemma {:induction false} SharedIs(a: Bytes, b: Bytes, n: nat)
    requires n <= |a| && n <= |b| && a[..n] == b[..n] && (n < |a| && n < |b| ==> a[n] != b[n])
    ensures SharedLength(a, b) == n
    decreases n
  {
    if n > 0 {
      assert a[0] == a[..n][0] && b[0] == b[..n][0];
      assert a[1..][..n - 1] == a[..n][1..] && b[1..][..n - 1] == b[..n][1..];
      SharedIs(a[1..], b[1..], n - 1);
    }
  }

  lemma {:induction false} CounterBounded(n: nat, interval: nat)
    requires interval >= 1
    ensures Counter(n, interval) <= interval
  {
    if n > 0 {
      CounterBounded(n - 1, interval);
    }
  }

  lemma {:induction false} PrefixOfPrefix(es: seq<KeyValue>, e: KeyValue, interval: nat)
    ensures forall i | 0 <= i <= |es| :: Offset(es + [e], interval, i) == Offset(es, interval, i)
  {
    hide EncodedEntries;
    forall i | 0 <= i <= |es| ensures (es + [e])[..i] == es[..i] {
    }
  }

  /** What one more entry adds. */
  lemma {:induction false} EntryAdded(es: seq<KeyValue>, e: KeyValue, interval: nat)
    requires interval >= 1
    ensures var n, after := |es|, es + [e];
            && EncodedEntries(after, interval) == EncodedEntries(es, interval)
                + EncodedEntry(SharedWith(es, e, interval), e)
            && Restarts(after, interval) == (if n > 0 && Counter(n, interval) == interval
                then Restarts(es, interval) + [|EncodedEntries(es, interval)|] else Restarts(es, interval))
            && Counter(n + 1, interval) == (if Counter(n, interval) == interval then 1 else Counter(n, interval) + 1)
            && Counter(n, interval) <= interval && (n == 0 ==> Counter(n, interval) == 0) && LastKey(after) == e.key
  {
    hide EncodedEntry, Restarts, SharedWith;
    var n, after := |es|, es + [e];
    assert after[..n] == es && after[n] == e && es[..n] == es;
    CounterBounded(n, interval);
    RestartsAdded(es, e, interval);
  }

  lemma {:induction false} RestartsAdded(es: seq<KeyValue>, e: KeyValue, interval: nat)
    ensures Restarts(es + [e], interval) ==
              if |es| > 0 && IsRestart(|es|, interval) then Restarts(es, interval) + [Offset(es, interval, |es|)]
                  else Restarts(es, interval)
  {
    hide Offset, IsRestart;
    var n := |es|;
    RestartsIncrease(n, interval);
    PrefixOfPrefix(es, e, interval);
    assert es[..n] == es;
    var before, r := RestartEntries(n, interval), RestartEntries(n + 1, interval);
    assert r == if n > 0 && IsRestart(n, interval) then before + [n] else before;
    assert forall i | 0 <= i < |before| :: r[i] == before[i] && before[i] <= n;
  }
}
