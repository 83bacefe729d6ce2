/** nanopb: senders and receivers with different versions of a message type. */
module NanopbCompatibility {
  import opened Format
  import opened Coding
  import opened NanopbFormat
  import opened NanopbDecode
  import opened NanopbRoundTrip
  import opened NanopbMerge

  // ---------- Two versions of a message type ----------

  /** The older version has only some of the fields. */
  function Older(fs: Fields, known: seq<bool>): Fields
    requires |known| == Count(fs)
  {
    if fs.NoFields? then NoFields
    else if known[0] then FieldsOf(fs.head, Older(fs.tail, known[1..]))
    else Older(fs.tail, known[1..])
  }

  /** What of a message the older version has. */
  function Known(slots: seq<Slot>, known: seq<bool>): seq<Slot>
    requires |slots| == |known|
  {
    if slots == [] then []
    else (if known[0] then [slots[0]] else []) + Known(slots[1..], known[1..])
  }

  /** What of a message comes from the older version: the rest is as it is by default. */
  function KnownOrDefault(fs: Fields, slots: seq<Slot>, known: seq<bool>): (r: seq<Slot>)
    requires |known| == |slots| == Count(fs)
    ensures |r| == Count(fs)
  {
    if fs.NoFields? then []
    else [if known[0] then slots[0] else DefaultSlot(fs.head)] + KnownOrDefault(fs.tail, slots[1..], known[1..])
  }

  lemma {:induction false} OlderFindsKnown(fs: Fields, known: seq<bool>, tag: nat)
    requires SchemaOk(fs) && |known| == Count(fs)
    ensures FindField(Older(fs, known), tag).Some? ==>
              FindField(fs, tag).Some? && known[FindField(fs, tag).value.0]
  {
    hide MatchField, FieldOk;
    if fs.FieldsOf? {
      OlderFindsKnown(fs.tail, known[1..], tag);
    }
  }

  lemma {:induction false} OlderIsOk(fs: Fields, known: seq<bool>)
    requires SchemaOk(fs) && |known| == Count(fs)
    ensures SchemaOk(Older(fs, known))
  {
    hide MatchField, FieldOk;
    if fs.FieldsOf? {
      OlderIsOk(fs.tail, known[1..]);
      forall tag: nat | MatchField(fs.head, tag).Some? ensures FindField(Older(fs.tail, known[1..]), tag).None? {
        OlderFindsKnown(fs.tail, known[1..], tag);
      }
    }
  }

  // ---------- Skipping what is unknown ----------

  lemma {:induction false} VarintIsSkipped(n: nat, rest: Bytes)
    ensures SkipVarint(Varint(n) + rest) == Some(rest)
    decreases n
  {
    hide Varint;
    FirstByte(n, rest);
    if n >= 128 {
      VarintIsSkipped(n / 128, rest);
    }
  }

  lemma {:induction false} PrefixedIsSkipped(b: Bytes, rest: Bytes)
    requires |b| < TWO_32
    ensures SkipField(WT_STRING, LengthPrefixed(b) + rest) == Some(rest)
  {
    hide LengthPrefixed;
    DelimitedReads(b, rest);
  }

  /** A value of any type is skipped by its wire type alone. */
  lemma {:induction false} ValueIsSkipped(t: LType, v: Value, rest: Bytes)
    requires FitsValue(t, v)
    ensures SkipField(WireType(t), EncodedValue(t, v) + rest) == Some(rest)
  {
    hide LengthPrefixed, Varint, SkipVarint, LittleEndian, Encoded, SignExtended, ZigZagOf;
    match t
    case Bool => VarintIsSkipped(v.n, rest);
    case SignedVarint(_) => VarintIsSkipped(SignExtended(v.n), rest);
    case UnsignedVarint(_) => VarintIsSkipped(v.n, rest);
    case ZigZag(_) => VarintIsSkipped(ZigZagOf(v.n), rest);
    case Fixed32 =>
      FixedCapacities();
      LittleEndianRoundTrip(v.n, 4);
      ReadFront(LittleEndian(v.n, 4), rest);
    case Fixed64 =>
      FixedCapacities();
      LittleEndianRoundTrip(v.n, 8);
      ReadFront(LittleEndian(v.n, 8), rest);
    case SubMessage(fields) => PrefixedIsSkipped(Encoded(fields, v.slots), rest);
    case _ => PrefixedIsSkipped(v.b, rest);
  }

  lemma {:induction false} TagIsSkipped(fs: Fields, slots: seq<Slot>, seen: set<nat>, tag: nat, wireType: nat,
      body: Bytes, rest: Bytes)
    requires |slots| == Count(fs) && FindField(fs, tag).None? && 1 <= tag < TAG_LIMIT && wireType < 8
    requires SkipField(wireType, body + rest) == Some(rest)
    ensures DecodedFields(fs, slots, seen, EncodedTag(tag, wireType) + body + rest)
         == DecodedFields(fs, slots, seen, rest)
  {
    hide NanopbDecode.GetVarint32, EncodedTag, SkipField, AllSeen, DecodedSlot;
    assert EncodedTag(tag, wireType) + body + rest == EncodedTag(tag, wireType) + (body + rest);
    KeyReads(tag, wireType, body + rest);
  }

  /** A field that the receiver does not know is skipped, wherever it stands: a value of any type, an
      array, packed or not, or a member of a oneof. */
  lemma {:induction false} FieldIsSkipped(fs: Fields, slots: seq<Slot>, seen: set<nat>, f: Field, s: Slot, rest: Bytes)
    requires |slots| == Count(fs) && FieldOk(f) && FitsSlot(f, s)
    requires forall tag: nat | MatchField(f, tag).Some? :: FindField(fs, tag).None?
    ensures DecodedFields(fs, slots, seen, EncodedSlot(f, s) + rest) == DecodedFields(fs, slots, seen, rest)
  {
    hide DecodedFields, EncodedValue, EncodedTag, FitsValue, LengthPrefixed, EncodedItems, IsDefaultValue, SkipField,
        EncodedEach, MembersOk;
    if EncodedSlot(f, s) == [] {
      assert EncodedSlot(f, s) + rest == rest;
    } else {
      match f
      case Required(tag, t) => ValueFieldIsSkipped(fs, slots, seen, tag, t, s.v, rest);
      case Optional(tag, t) => ValueFieldIsSkipped(fs, slots, seen, tag, t, s.o.value, rest);
      case Implicit(tag, t) => ValueFieldIsSkipped(fs, slots, seen, tag, t, s.v, rest);
      case Repeated(tag, t, _) =>
        if Packable(t) {
          PrefixedIsSkipped(EncodedItems(t, s.vs), rest);
          TagIsSkipped(fs, slots, seen, tag, WT_STRING, LengthPrefixed(EncodedItems(t, s.vs)), rest);
        } else {
          EachIsSkipped(fs, slots, seen, tag, t, s.vs, rest);
        }
      case OneOf(ms) =>
        var (m, v) := s.c.value;
        MemberFacts(ms, m);
        assert MatchField(f, MemberTag(ms, m)).Some?;
        ValueFieldIsSkipped(fs, slots, seen, MemberTag(ms, m), MemberType(ms, m), v, rest);
    }
  }

  lemma {:induction false} ValueFieldIsSkipped(fs: Fields, slots: seq<Slot>, seen: set<nat>, tag: nat, t: LType,
      v: Value, rest: Bytes)
    requires |slots| == Count(fs) && FindField(fs, tag).None? && 1 <= tag < TAG_LIMIT && FitsValue(t, v)
    ensures DecodedFields(fs, slots, seen, EncodedTag(tag, WireType(t)) + EncodedValue(t, v) + rest)
         == DecodedFields(fs, slots, seen, rest)
  {
    hide DecodedFields, EncodedValue, EncodedTag, FitsValue, SkipField;
    WireTypesAreSmall(t);
    ValueIsSkipped(t, v, rest);
    TagIsSkipped(fs, slots, seen, tag, WireType(t), EncodedValue(t, v), rest);
  }

  lemma {:induction false} EachIsSkipped(fs: Fields, slots: seq<Slot>, seen: set<nat>, tag: nat, t: LType,
      vs: seq<Value>, rest: Bytes)
    requires |slots| == Count(fs) && FindField(fs, tag).None? && 1 <= tag < TAG_LIMIT
    requires forall k | 0 <= k < |vs| :: FitsValue(t, vs[k])
    ensures DecodedFields(fs, slots, seen, EncodedEach(tag, t, vs) + rest) == DecodedFields(fs, slots, seen, rest)
    decreases |vs|
  {
    hide DecodedFields, EncodedValue, EncodedTag, FitsValue;
    if vs == [] {
      assert EncodedEach(tag, t, vs) + rest == rest;
    } else {
      var more := EncodedEach(tag, t, vs[1..]) + rest;
      assert EncodedEach(tag, t, vs) + rest == EncodedTag(tag, WireType(t)) + EncodedValue(t, vs[0]) + more;
      ValueFieldIsSkipped(fs, slots, seen, tag, t, vs[0], more);
      EachIsSkipped(fs, slots, seen, tag, t, vs[1..], rest);
    }
  }

  // ---------- A newer sender ----------

  lemma {:induction false} FirstField(fs: Fields, slots: seq<Slot>, known: seq<bool>)
    requires fs.FieldsOf? && |known| == |slots| == Count(fs)
    ensures Encoded(fs, slots) == EncodedSlot(fs.head, slots[0]) + Encoded(fs.tail, slots[1..])
    ensures Defaults(fs) == [DefaultSlot(fs.head)] + Defaults(fs.tail)
    ensures Older(fs, known) == if known[0] then FieldsOf(fs.head, Older(fs.tail, known[1..]))
        else Older(fs.tail, known[1..])
    ensures Known(slots, known) == (if known[0] then [slots[0]] else []) + Known(slots[1..], known[1..])
    ensures KnownOrDefault(fs, slots, known)
        == [if known[0] then slots[0] else DefaultSlot(fs.head)] + KnownOrDefault(fs.tail, slots[1..], known[1..])
    ensures Fits(fs, slots) ==> FitsSlot(fs.head, slots[0]) && Fits(fs.tail, slots[1..])
  {
    hide EncodedSlot, DefaultSlot, FitsSlot;
  }

  /** The fields of the sender from a place on, those that the receiver knows and those it does not. */
  lemma {:induction false} FieldsForOlder(older: Fields, j: nat, fs: Fields, known: seq<bool>, done: seq<Slot>,
      slots: seq<Slot>, seen: set<nat>)
    requires SchemaOk(older) && SchemaOk(fs) && |known| == |slots| == Count(fs) && Fits(fs, slots)
    requires j <= Count(older) && Older(fs, known) == Drop(older, j) && |done| == j
    requires forall i, tag: nat | 0 <= i < Count(fs) && !known[i] && MatchField(FieldAt(fs, i), tag).Some? ::
        FindField(older, tag).None?
    requires forall k | 0 <= k < j && FieldAt(older, k).Required? :: k in seen
    ensures |done + Defaults(Older(fs, known))| == Count(older)
    ensures DecodedFields(older, done + Defaults(Older(fs, known)), seen, Encoded(fs, slots))
         == Some(done + Known(slots, known))
    decreases fs
  {
    hide DecodedFields, SchemaOk, EncodedSlot, FitsSlot, DefaultSlot, MatchField, FindField, FieldOk, MergedSlot,
        AllSeen, Encoded, Known, Older, Fits, Defaults;
    DropNext(older, j);
    var start := done + Defaults(Older(fs, known));
    if fs.NoFields? {
      NothingLeft(slots, known);
      AllAreSeen(older, seen);
      assert done + [] == done;
      EndOfMessage(older, done, seen);
    } else {
      var f, s, rest := fs.head, slots[0], Encoded(fs.tail, slots[1..]);
      TailIsOk(fs);
      FirstField(fs, slots, known);
      forall i, tag: nat | 0 <= i < Count(fs.tail) && !known[1..][i] && MatchField(FieldAt(fs.tail, i), tag).Some?
        ensures FindField(older, tag).None? {
        assert FieldAt(fs, i + 1) == FieldAt(fs.tail, i) && !known[i + 1];
      }
      if known[0] {
        FromDefaultSlot(f, s);
        DefaultSlotIsShaped(f);
        FirstDefault(Older(fs, known));
        SlotMerges(older, j, f, start, s, seen, rest);
        assert start[j := s] == done + [s] + Defaults(Older(fs.tail, known[1..]));
        FieldsForOlder(older, j + 1, fs.tail, known[1..], done + [s], slots[1..],
            if f.Required? then seen + {j} else seen);
        assert done + [s] + Known(slots[1..], known[1..]) == done + Known(slots, known);
      } else {
        assert FieldAt(fs, 0) == f;
        FieldIsSkipped(older, start, seen, f, s, rest);
        FieldsForOlder(older, j, fs.tail, known[1..], done, slots[1..], seen);
        assert [] + Known(slots[1..], known[1..]) == Known(slots[1..], known[1..]);
      }
    }
  }

  lemma {:induction false} NothingLeft(slots: seq<Slot>, known: seq<bool>)
    requires slots == [] && known == []
    ensures Encoded(NoFields, slots) == [] && Defaults(NoFields) == [] && Older(NoFields, known) == NoFields
    ensures Known(slots, known) == [] && KnownOrDefault(NoFields, slots, known) == []
  {
  }

  lemma {:induction false} FirstEncoded(f: Field, s: Slot, fs: Fields, slots: seq<Slot>)
    ensures Encoded(FieldsOf(f, fs), [s] + slots) == EncodedSlot(f, s) + Encoded(fs, slots)
  {
    hide EncodedSlot;
    assert ([s] + slots)[1..] == slots;
  }

  lemma {:induction false} FirstDefault(fs: Fields)
    requires fs.FieldsOf?
    ensures Defaults(fs) == [DefaultSlot(fs.head)] + Defaults(fs.tail)
  {
    hide DefaultSlot;
  }

  lemma {:induction false} TailIsOk(fs: Fields)
    requires SchemaOk(fs) && fs.FieldsOf?
    ensures SchemaOk(fs.tail) && FieldOk(fs.head)
  {
  }

  lemma {:induction false} DefaultSlotIsShaped(f: Field)
    ensures ShapedSlot(f, DefaultSlot(f))
  {
    if f.Required? || f.Implicit? {
      DefaultIsShaped(f.ltype);
    }
  }

  /** A receiver with an older version of the message type reads from a newer message exactly the
      fields it knows, whatever is between them. */
  lemma {:induction false} OlderReceiver(newer: Fields, known: seq<bool>, slots: seq<Slot>)
    requires SchemaOk(newer) && |known| == |slots| == Count(newer) && Fits(newer, slots)
    ensures Decoded(Older(newer, known), Encoded(newer, slots)) == Some(Known(slots, known))
  {
    hide DecodedFields, MatchField, FindField, FieldOk, FitsSlot, SchemaOk;
    var older := Older(newer, known);
    OlderIsOk(newer, known);
    forall i, tag: nat | 0 <= i < Count(newer) && !known[i] && MatchField(FieldAt(newer, i), tag).Some?
      ensures FindField(older, tag).None? {
      FindsField(newer, i, tag);
      OlderFindsKnown(newer, known, tag);
    }
    FieldsForOlder(older, 0, newer, known, [], slots, {});
    assert [] + Defaults(older) == Defaults(older) && [] + Known(slots, known) == Known(slots, known);
  }

  // ---------- An older sender ----------

  /** A required field that the sender does not know, and whose presence is checked. */
  ghost predicate Misses(fs: Fields, known: seq<bool>)
    requires |known| == Count(fs)
  {
    exists i: nat :: i < Count(fs) && FieldAt(fs, i).Required? && RequiredIndex(fs, i) < MAX_REQUIRED_FIELDS
        && !known[i]
  }

  lemma {:induction false} FieldsFromOlder(all: Fields, known: seq<bool>, i: nat, fs: Fields, done: seq<Slot>,
      slots: seq<Slot>, seen: set<nat>)
    requires SchemaOk(all) && |known| == Count(all) && i <= Count(all) && fs == Drop(all, i)
    requires |done| == i && Fits(fs, slots) && |slots| == Count(fs) == |known[i..]|
    requires forall j | 0 <= j < i && FieldAt(all, j).Required? :: j in seen <==> known[j]
    requires forall j | j in seen :: j < i
    ensures |done + Defaults(fs)| == Count(all)
    ensures DecodedFields(all, done + Defaults(fs), seen, Encoded(Older(fs, known[i..]), Known(slots, known[i..])))
         == if Misses(all, known) then None else Some(done + KnownOrDefault(fs, slots, known[i..]))
    decreases fs
  {
    hide DecodedFields, SchemaOk, EncodedSlot, FitsSlot, DefaultSlot, MergedSlot, AllSeen, Encoded, Known, Older,
        Fits, Defaults, KnownOrDefault, Misses;
    DropNext(all, i);
    var start := done + Defaults(fs);
    if fs.NoFields? {
      NothingLeft(slots, known[i..]);
      EndOfMessage(all, done, seen);
      assert done + [] == done;
      SeenAreKnown(all, known, seen);
    } else {
      var f, s := fs.head, slots[0];
      assert known[i..][1..] == known[i + 1..] && known[i..][0] == known[i];
      FirstField(fs, slots, known[i..]);
      var rest := Encoded(Older(fs.tail, known[i + 1..]), Known(slots[1..], known[i + 1..]));
      if known[i] {
        FromDefaultSlot(f, s);
        DefaultSlotIsShaped(f);
        SlotMerges(all, i, f, start, s, seen, rest);
        assert start[i := s] == done + [s] + Defaults(fs.tail);
        FirstEncoded(f, s, Older(fs.tail, known[i + 1..]), Known(slots[1..], known[i + 1..]));
        FieldsFromOlder(all, known, i + 1, fs.tail, done + [s], slots[1..], if f.Required? then seen + {i} else seen);
        assert done + [s] + KnownOrDefault(fs.tail, slots[1..], known[i + 1..])
            == done + KnownOrDefault(fs, slots, known[i..]);
      } else {
        var d := DefaultSlot(f);
        assert start == done + [d] + Defaults(fs.tail);
        assert [] + Known(slots[1..], known[i + 1..]) == Known(slots[1..], known[i + 1..]);
        FieldsFromOlder(all, known, i + 1, fs.tail, done + [d], slots[1..], seen);
        assert done + [d] + KnownOrDefault(fs.tail, slots[1..], known[i + 1..])
            == done + KnownOrDefault(fs, slots, known[i..]);
      }
    }
  }

  lemma {:induction false} SeenAreKnown(all: Fields, known: seq<bool>, seen: set<nat>)
    requires |known| == Count(all)
    requires forall j | 0 <= j < Count(all) && FieldAt(all, j).Required? :: j in seen <==> known[j]
    ensures AllSeen(all, seen) <==> !Misses(all, known)
  {
  }

  /** A receiver with a newer version reads an older message with the fields that are missing at their
      defaults, unless a required one is missing: it is an error if and only if one is, among the
      first 64 required fields. */
  lemma {:induction false} OlderSender(newer: Fields, known: seq<bool>, slots: seq<Slot>)
    requires SchemaOk(newer) && |known| == |slots| == Count(newer) && Fits(newer, slots)
    ensures Decoded(newer, Encoded(Older(newer, known), Known(slots, known)))
         == if Misses(newer, known) then None else Some(KnownOrDefault(newer, slots, known))
  {
    hide DecodedFields, SchemaOk, FitsSlot, Misses;
    assert known[0..] == known;
    FieldsFromOlder(newer, known, 0, newer, [], slots, {});
    assert [] + Defaults(newer) == Defaults(newer)
        && [] + KnownOrDefault(newer, slots, known) == KnownOrDefault(newer, slots, known);
  }
}
