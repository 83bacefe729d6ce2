/** Internal keys, their order, and what a read at a snapshot means.
    Everything else in the project refines `Read`. */
module Format {

  /** The comparator only ever compares user keys, so a key is modelled by its rank in the
      comparator's order; the rationals embed every countable total order. */
  type UserKey = real

  type Byte = n: nat | n < 256

  type Bytes = seq<Byte>

  /** Eight bits of the packed 64-bit tag are taken by the type. */
  const MAX_SEQUENCE: nat := 0xFF_FFFF_FFFF_FFFF

  type SequenceNumber = n: nat | n <= MAX_SEQUENCE

  datatype Option<T> = None | Some(value: T)

  datatype Error = Corruption(message: string) | InvalidArgument(message: string)

  datatype Result<T> = Ok(value: T) | Err(error: Error)

  datatype ValueType = Deletion | Put

  const SEEK_TYPE := Put

  datatype InternalKey = InternalKey(user: UserKey, sequence: SequenceNumber, kind: ValueType)

  datatype Entry = Entry(key: InternalKey, value: Bytes)

  /** The sequence number and the type packed as in the last eight bytes of an internal key. */
  function Tag(k: InternalKey): nat {
    k.sequence * 256 + (if k.kind == Put then 1 else 0)
  }

  /** Increasing user key, then decreasing packed tag. */
  predicate Less(a: InternalKey, b: InternalKey) {
    a.user < b.user || (a.user == b.user && Tag(a) > Tag(b))
  }

  function Compare(a: InternalKey, b: InternalKey): (r: int)
    ensures r < 0 <==> Less(a, b)
    ensures r > 0 <==> Less(b, a)
    ensures r == 0 <==> a == b
  {
    if a.user < b.user then -1
    else if a.user > b.user then 1
    else if Tag(a) > Tag(b) then -1
    else if Tag(a) < Tag(b) then 1
    else 0
  }

  /** The key a lookup of `u` at snapshot `s` seeks to. */
  function SeekKey(u: UserKey, s: SequenceNumber): InternalKey {
    InternalKey(u, s, SEEK_TYPE)
  }

  predicate Sorted(es: seq<Entry>) {
    forall i, j :: 0 <= i < j < |es| ==> Less(es[i].key, es[j].key)
  }

  lemma {:induction false} RanksInOrder(run: seq<Entry>, a: nat, b: nat)
    requires Sorted(run) && a < |run| && b < |run|
    ensures a < b <==> Less(run[a].key, run[b].key)
  {
  }

  function Concat<T>(parts: seq<seq<T>>): seq<T> {
    if parts == [] then [] else Concat(parts[..|parts| - 1]) + parts[|parts| - 1]
  }

  // ---------- Cutting a sequence ----------

  /** No part could have ended earlier. */
  ghost predicate NoneEarlier<T>(part: seq<T>, ends: (seq<T>, T) -> bool) {
    part != [] && forall i | 0 < i < |part| :: !ends(part[..i], part[i])
  }

  /** Parts that end exactly where a part has to end before what comes next, and at the end of all. */
  ghost predicate CutWhere<T>(parts: seq<seq<T>>, ends: (seq<T>, T) -> bool) {
    && (forall k | 0 <= k < |parts| :: NoneEarlier(parts[k], ends))
    && forall k | 0 < k < |parts| :: parts[k] != [] && ends(parts[k - 1], parts[k][0])
  }

  /** A sequence is cut so in one way only. */
  lemma {:induction false} OneWayToCut<T>(a: seq<seq<T>>, b: seq<seq<T>>, ends: (seq<T>, T) -> bool)
    requires CutWhere(a, ends) && CutWhere(b, ends) && Concat(a) == Concat(b)
    ensures a == b
    decreases |a|
  {
    if a == [] || b == [] {
      NothingInNone(a);
      NothingInNone(b);
      if a != [] {
        FirstPart(a);
      }
      if b != [] {
        FirstPart(b);
      }
    } else {
      FirstPart(a);
      FirstPart(b);
      FirstNotShorter(a, b, ends);
      FirstNotShorter(b, a, ends);
      assert a[0] == Concat(a)[..|a[0]|] == b[0];
      RestCut(a, ends);
      RestCut(b, ends);
      assert Concat(a[1..]) == Concat(a)[|a[0]|..];
      OneWayToCut(a[1..], b[1..], ends);
      assert a == [a[0]] + a[1..] && b == [b[0]] + b[1..];
    }
  }

  lemma {:induction false} NothingInNone<T>(parts: seq<seq<T>>)
    ensures parts == [] ==> Concat(parts) == []
  {
  }

  lemma {:induction false} LastPart<T>(parts: seq<seq<T>>)
    requires parts != []
    ensures Concat(parts) == Concat(parts[..|parts| - 1]) + parts[|parts| - 1]
  {
  }

  lemma {:induction false} FirstPart<T>(parts: seq<seq<T>>)
    requires parts != []
    ensures Concat(parts) == parts[0] + Concat(parts[1..])
    decreases |parts|
  {
    hide Concat;
    LastPart(parts);
    var n, rest := |parts| - 1, parts[1..];
    if n == 0 {
      NothingInNone(parts[..0]);
      NothingInNone(rest);
    } else {
      FirstPart(parts[..n]);
      LastPart(rest);
      assert parts[..n][1..] == rest[..n - 1];
    }
  }

  lemma {:induction false} RestCut<T>(parts: seq<seq<T>>, ends: (seq<T>, T) -> bool)
    requires CutWhere(parts, ends) && parts != []
    ensures CutWhere(parts[1..], ends)
  {
    hide NoneEarlier;
    var rest := parts[1..];
    forall k | 0 < k < |rest| ensures rest[k] != [] && ends(rest[k - 1], rest[k][0]) {
      assert rest[k - 1] == parts[k + 1 - 1] && rest[k] == parts[k + 1];
    }
  }

  lemma {:induction false} EndsNotInside<T>(part: seq<T>, longer: seq<T>, ends: (seq<T>, T) -> bool)
    requires part != [] && part < longer && NoneEarlier(longer, ends)
    ensures !ends(part, longer[|part|])
  {
    assert longer[..|part|] == part;
  }

  lemma {:induction false} NewPart<T>(parts: seq<seq<T>>, x: T, ends: (seq<T>, T) -> bool)
    requires CutWhere(parts, ends) && (parts != [] ==> ends(parts[|parts| - 1], x))
    ensures CutWhere(parts + [[x]], ends)
  {
    hide NoneEarlier;
    assert NoneEarlier([x], ends) by { OneAlone(x, ends); }
  }

  lemma {:induction false} OneAlone<T>(x: T, ends: (seq<T>, T) -> bool)
    ensures NoneEarlier([x], ends)
  {
  }

  lemma {:induction false} LastPartGrows<T>(parts: seq<seq<T>>, part: seq<T>, x: T, ends: (seq<T>, T) -> bool)
    requires part != [] && CutWhere(parts + [part], ends) && !ends(part, x)
    ensures CutWhere(parts + [part + [x]], ends)
  {
    var before, more := parts + [part], parts + [part + [x]];
    assert NoneEarlier(before[|parts|], ends);
    forall i | 0 < i < |part + [x]| ensures !ends((part + [x])[..i], (part + [x])[i]) {
      assert (part + [x])[..i] == part[..i];
      if i == |part| {
        assert part[..i] == part;
      }
    }
    assert NoneEarlier(part + [x], ends);
    hide NoneEarlier;
    assert forall k | 0 <= k < |parts| :: more[k] == before[k];
    forall k | 0 < k < |more| ensures more[k] != [] && ends(more[k - 1], more[k][0]) {
      assert before[k] != [] && ends(before[k - 1], before[k][0]);
    }
  }

  /** The first part cannot end before another first part of the same sequence does. */
  lemma {:induction false} FirstNotShorter<T>(a: seq<seq<T>>, b: seq<seq<T>>, ends: (seq<T>, T) -> bool)
    requires a != [] && b != [] && CutWhere(a, ends) && CutWhere(b, ends) && Concat(a) == Concat(b)
    requires Concat(a) == a[0] + Concat(a[1..]) && Concat(b) == b[0] + Concat(b[1..])
    ensures |a[0]| >= |b[0]|
  {
    NothingInNone(a[1..]);
    if |a| > 1 {
      FirstPart(a[1..]);
      var part, next := a[0], a[1][0];
      assert part != [] && ends(part, next) && Concat(a)[|part|] == next;
      hide NoneEarlier, CutWhere;
      if |part| < |b[0]| {
        assert part == Concat(b)[..|part|];
        EndsNotInside(part, b[0], ends);
        assert false;
      }
    }
  }

  ghost function SetOf<T>(s: seq<T>): set<T> {
    set x | x in s
  }

  /** Seeking to (u, s) in a sorted run skips exactly the entries of smaller user keys and the
      entries of u that are newer than s. */
  lemma {:induction false} SeekSkipsExactlyTheUnseen(k: InternalKey, u: UserKey, s: SequenceNumber)
    ensures Less(k, SeekKey(u, s)) <==> k.user < u || (k.user == u && k.sequence > s)
  {
  }

  // ---------- Reads ----------

  predicate Sees(e: Entry, u: UserKey, s: SequenceNumber) {
    e.key.user == u && e.key.sequence <= s
  }

  ghost predicate Unseen(es: set<Entry>, u: UserKey, s: SequenceNumber) {
    forall x | x in es :: !Sees(x, u, s)
  }

  ghost predicate Newest(es: set<Entry>, u: UserKey, s: SequenceNumber, e: Entry) {
    && e in es && Sees(e, u, s)
    && forall x | x in es && Sees(x, u, s) :: x.key.sequence <= e.key.sequence
  }

  /** No two entries share a user key and a sequence number. */
  ghost predicate Distinct(es: set<Entry>) {
    forall x, y | x in es && y in es && x.key.user == y.key.user && x.key.sequence == y.key.sequence :: x == y
  }

  lemma {:induction false} DistinctSubset(a: set<Entry>, b: set<Entry>)
    requires Distinct(a) && b <= a
    ensures Distinct(b)
  {
  }

  function ValueOf(e: Entry): Option<Bytes> {
    if e.key.kind == Put then Some(e.value) else None
  }

  /** The value of `u` at snapshot `s`: that of its newest entry with a sequence number of at
      most `s`; a deletion, or no entry, reads as absent. */
  ghost function Read(es: set<Entry>, u: UserKey, s: SequenceNumber): Option<Bytes> {
    if e :| Newest(es, u, s, e) then ValueOf(e) else None
  }

  lemma {:induction false} ReadNewest(es: set<Entry>, u: UserKey, s: SequenceNumber, e: Entry)
    requires Distinct(es) && Newest(es, u, s, e)
    ensures Read(es, u, s) == ValueOf(e)
  {
  }

  lemma {:induction false} ReadUnseen(es: set<Entry>, u: UserKey, s: SequenceNumber)
    requires Unseen(es, u, s)
    ensures Read(es, u, s) == None
  {
  }

  lemma {:induction false} NewestExists(es: set<Entry>, u: UserKey, s: SequenceNumber) returns (e: Entry)
    requires !Unseen(es, u, s)
    ensures Newest(es, u, s, e)
    decreases es
  {
    var x :| x in es && Sees(x, u, s);
    if Unseen(es - {x}, u, s) {
      e := x;
      forall y | y in es && Sees(y, u, s) ensures y.key.sequence <= e.key.sequence {
        assert y == x || y in es - {x};
      }
    } else {
      var rest := NewestExists(es - {x}, u, s);
      e := if rest.key.sequence < x.key.sequence then x else rest;
      forall y | y in es && Sees(y, u, s) ensures y.key.sequence <= e.key.sequence {
        assert y == x || y in es - {x};
      }
    }
  }

  /** Every entry of `a` is newer than every entry of `b` for the same user key. */
  ghost predicate Newer(a: set<Entry>, b: set<Entry>) {
    forall x, y | x in a && y in b && x.key.user == y.key.user :: x.key.sequence > y.key.sequence
  }

  /** Why a search may stop early: nothing seen in what was searched, and the rest is older. */
  lemma {:induction false} SearchMayStop(searched: set<Entry>, here: set<Entry>, rest: set<Entry>, u: UserKey,
      s: SequenceNumber, e: Entry)
    requires Unseen(searched, u, s)
    requires Newest(here, u, s, e)
    requires Newer(here, rest)
    requires Distinct(searched + here + rest)
    ensures Read(searched + here + rest, u, s) == ValueOf(e)
  {
    ReadNewest(searched + here + rest, u, s, e);
  }

  // ---------- Seeking in one sorted run ----------

  /** Where a cursor over a sorted run stands after Seek(target): the first entry at or after it. */
  function SeekIndex(es: seq<Entry>, target: InternalKey): (i: nat)
    ensures i <= |es|
    ensures Sorted(es) ==> forall j | 0 <= j < |es| :: j < i <==> Less(es[j].key, target)
  {
    if es == [] || !Less(es[0].key, target) then 0
    else
      var i := SeekIndex(es[1..], target);
      assert forall j | 1 <= j < |es| :: es[j] == es[1..][j - 1];
      1 + i
  }

  /** The entry a point lookup of a sorted run reports: the one sought, if it is of the right key. */
  function PointGet(es: seq<Entry>, u: UserKey, s: SequenceNumber): Option<Entry> {
    var i := SeekIndex(es, SeekKey(u, s));
    if i < |es| && es[i].key.user == u then Some(es[i]) else None
  }

  /** A point lookup finds the newest visible entry of the run, and reports nothing only when
      there is none. */
  lemma {:induction false} PointGetIsNewest(es: seq<Entry>, u: UserKey, s: SequenceNumber)
    requires Sorted(es)
    ensures PointGet(es, u, s).None? <==> Unseen(SetOf(es), u, s)
    ensures PointGet(es, u, s).Some? ==> Newest(SetOf(es), u, s, PointGet(es, u, s).value)
  {
    var i := SeekIndex(es, SeekKey(u, s));
    forall j | 0 <= j < |es| && Sees(es[j], u, s)
      ensures i <= j && es[i].key.user == u && es[j].key.sequence <= es[i].key.sequence
    {
      SeekSkipsExactlyTheUnseen(es[j].key, u, s);
      SeekSkipsExactlyTheUnseen(es[i].key, u, s);
    }
    if i < |es| && es[i].key.user == u {
      SeekSkipsExactlyTheUnseen(es[i].key, u, s);
      assert es[i] in SetOf(es);
    }
  }

  // ---------- Inserting into one sorted run ----------

  /** Insert an entry at its place in the order. */
  function InsertEntry(es: seq<Entry>, e: Entry): seq<Entry> {
    var i := SeekIndex(es, e.key);
    es[..i] + [e] + es[i..]
  }

  lemma {:induction false} InsertedAt<T>(s: seq<T>, i: nat, x: T)
    requires i <= |s|
    ensures forall y :: y in s[..i] + [x] + s[i..] <==> y in s || y == x
  {
    assert s == s[..i] + s[i..];
  }

  lemma {:induction false} InsertEntryHolds(es: seq<Entry>, e: Entry)
    requires Sorted(es) && forall j | 0 <= j < |es| :: es[j].key != e.key
    ensures Sorted(InsertEntry(es, e)) && SetOf(InsertEntry(es, e)) == SetOf(es) + {e}
  {
    var i, r := SeekIndex(es, e.key), InsertEntry(es, e);
    forall a, b | 0 <= a < b < |r| ensures Less(r[a].key, r[b].key) {
      assert r[a] == if a < i then es[a] else if a == i then e else es[a - 1];
      assert r[b] == if b < i then es[b] else if b == i then e else es[b - 1];
    }
    InsertedAt(es, i, e);
  }
}
