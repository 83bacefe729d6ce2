/** nanopb: what is decoded into a message is merged with it; a message decodes from its encoding to
    itself because it starts from the defaults. */
module NanopbMerge {
  import opened Format
  import opened Coding
  import opened NanopbFormat
  import opened NanopbDecode
  import opened NanopbRoundTrip

  // ---------- What merging means ----------

  /** A value of the right form for its field. */
  predicate ShapedValue(t: LType, v: Value)
    decreases t
  {
    t.SubMessage? ==> v.Message? && Shaped(t.fields, v.slots)
  }

  predicate ShapedSlot(f: Field, s: Slot)
    decreases f
  {
    match f
    case Required(_, t) => s.Single? && ShapedValue(t, s.v)
    case Optional(_, t) => s.Maybe? && (s.o.Some? ==> ShapedValue(t, s.o.value))
    case Implicit(_, t) => s.Single? && ShapedValue(t, s.v)
    case Repeated(_, _, _) => s.Many?
    case OneOf(ms) =>
      && s.Choice?
      && (s.c.Some? ==> s.c.value.0 < MemberCount(ms) && ShapedValue(MemberType(ms, s.c.value.0), s.c.value.1))
  }

  predicate Shaped(fs: Fields, slots: seq<Slot>)
    decreases fs
  {
    if fs.NoFields? then slots == [] else slots != [] && ShapedSlot(fs.head, slots[0]) && Shaped(fs.tail, slots[1..])
  }

  /** A new value takes the place of the one there, but submessages are merged. An array may become
      too long. */
  function MergedValue(t: LType, current: Value, v: Value): Option<Value>
    decreases t
  {
    if t.SubMessage? && current.Message? && v.Message? then
      match Merged(t.fields, current.slots, v.slots)
      case None => None
      case Some(slots) => Some(Message(slots))
    else Some(v)
  }

  /** What is not written leaves a field as it is. Arrays grow. Setting another member of a oneof
      forgets the one that was set. */
  function MergedSlot(f: Field, current: Slot, s: Slot): Option<Slot>
    decreases f
  {
    match (f, current, s)
    case (Required(_, t), Single(a), Single(b)) => InSingle(MergedValue(t, a, b))
    case (Optional(_, t), Maybe(a), Maybe(Some(b))) =>
      (match MergedValue(t, if a.Some? then a.value else DefaultValue(t), b)
       case None => None
       case Some(v) => Some(Maybe(Some(v))))
    case (Implicit(_, t), Single(a), Single(b)) =>
      if IsDefaultValue(t, b) then Some(current) else InSingle(MergedValue(t, a, b))
    case (Repeated(_, _, max), Many(a), Many(b)) => if |a| + |b| <= max || b == [] then Some(Many(a + b)) else None
    case (OneOf(ms), Choice(a), Choice(Some(b))) =>
      if b.0 >= MemberCount(ms) then None
      else
        var t := MemberType(ms, b.0);
        (match MergedValue(t, if a.Some? && a.value.0 == b.0 then a.value.1 else DefaultValue(t), b.1)
         case None => None
         case Some(v) => Some(Choice(Some((b.0, v)))))
    case _ => Some(current)
  }

  function InSingle(v: Option<Value>): Option<Slot> {
    if v.None? then None else Some(Single(v.value))
  }

  function Merged(fs: Fields, current: seq<Slot>, slots: seq<Slot>): (r: Option<seq<Slot>>)
    ensures r.Some? && |current| == |slots| == Count(fs) ==> |r.value| == Count(fs)
    decreases fs
  {
    if fs.NoFields? || current == [] || slots == [] then Some([])
    else
      match MergedSlot(fs.head, current[0], slots[0])
      case None => None
      case Some(s) =>
        match Merged(fs.tail, current[1..], slots[1..])
        case None => None
        case Some(rest) => Some([s] + rest)
  }

  lemma {:induction false} ShapedCount(fs: Fields, slots: seq<Slot>)
    requires Shaped(fs, slots)
    ensures |slots| == Count(fs)
    decreases fs
  {
    hide ShapedSlot;
    if fs.FieldsOf? {
      ShapedCount(fs.tail, slots[1..]);
    }
  }

  // ---------- Merging into the defaults ----------

  lemma {:induction false} DefaultIsShaped(t: LType)
    ensures ShapedValue(t, DefaultValue(t))
    decreases t
  {
    if t.SubMessage? {
      DefaultsAreShaped(t.fields);
    }
  }

  lemma {:induction false} DefaultsAreShaped(fs: Fields)
    ensures Shaped(fs, Defaults(fs))
    decreases fs
  {
    if fs.FieldsOf? {
      if fs.head.Required? || fs.head.Implicit? {
        DefaultIsShaped(fs.head.ltype);
      }
      DefaultsAreShaped(fs.tail);
      assert Defaults(fs)[1..] == Defaults(fs.tail);
    }
  }

  /** A message that fits is a message of the right form. */
  lemma {:induction false} FittingValueIsShaped(t: LType, v: Value)
    requires FitsValue(t, v)
    ensures ShapedValue(t, v)
    decreases t
  {
    hide Encoded;
    if t.SubMessage? {
      FittingIsShaped(t.fields, v.slots);
    }
  }

  lemma {:induction false} FittingIsShaped(fs: Fields, slots: seq<Slot>)
    requires Fits(fs, slots)
    ensures Shaped(fs, slots)
    decreases fs
  {
    hide FitsSlot, ShapedSlot;
    if fs.FieldsOf? {
      FittingSlotIsShaped(fs.head, slots[0]);
      FittingIsShaped(fs.tail, slots[1..]);
    }
  }

  lemma {:induction false} FittingSlotIsShaped(f: Field, s: Slot)
    requires FitsSlot(f, s)
    ensures ShapedSlot(f, s)
    decreases f
  {
    hide Encoded, EncodedItems, FitsValue, ShapedValue;
    match f
    case Required(_, t) => FittingValueIsShaped(t, s.v);
    case Optional(_, t) => if s.o.Some? { FittingValueIsShaped(t, s.o.value); }
    case Implicit(_, t) => FittingValueIsShaped(t, s.v);
    case Repeated(_, _, _) =>
    case OneOf(ms) => if s.c.Some? { FittingValueIsShaped(MemberType(ms, s.c.value.0), s.c.value.1); }
  }

  /** What the decoder does not see written is what it starts from. */
  lemma {:induction false} UnwrittenIsDefault(t: LType, v: Value)
    requires FitsValue(t, v) && IsDefaultValue(t, v)
    ensures v == DefaultValue(t)
    decreases t
  {
    hide Encoded, EncodedItems;
    if t.SubMessage? {
      UnwrittenAreDefaults(t.fields, v.slots);
    }
  }

  lemma {:induction false} UnwrittenAreDefaults(fs: Fields, slots: seq<Slot>)
    requires Fits(fs, slots) && |slots| == Count(fs) && IsDefault(fs, slots)
    ensures slots == Defaults(fs)
    decreases fs
  {
    hide Encoded, EncodedItems;
    if fs.FieldsOf? {
      if fs.head.Implicit? {
        UnwrittenIsDefault(fs.head.ltype, slots[0].v);
      }
      UnwrittenAreDefaults(fs.tail, slots[1..]);
      assert slots == [slots[0]] + slots[1..];
    }
  }

  lemma {:induction false} FromDefaultValue(t: LType, v: Value)
    requires FitsValue(t, v)
    ensures MergedValue(t, DefaultValue(t), v) == Some(v)
    decreases t
  {
    hide Encoded;
    if t.SubMessage? {
      FromDefaults(t.fields, v.slots);
    }
  }

  lemma {:induction false} FromDefaultSlot(f: Field, s: Slot)
    requires FitsSlot(f, s)
    ensures MergedSlot(f, DefaultSlot(f), s) == Some(s)
    decreases f
  {
    hide Encoded, EncodedItems, FitsValue, MergedValue, DefaultValue, IsDefaultValue;
    match f
    case Required(_, t) => FromDefaultValue(t, s.v);
    case Optional(_, t) => if s.o.Some? { FromDefaultValue(t, s.o.value); }
    case Implicit(_, t) =>
      FromDefaultValue(t, s.v);
      if IsDefaultValue(t, s.v) {
        UnwrittenIsDefault(t, s.v);
      }
    case Repeated(_, _, _) => assert [] + s.vs == s.vs;
    case OneOf(ms) => if s.c.Some? { FromDefaultValue(MemberType(ms, s.c.value.0), s.c.value.1); }
  }

  /** Merged into the defaults a message is itself. */
  lemma {:induction false} FromDefaults(fs: Fields, slots: seq<Slot>)
    requires Fits(fs, slots)
    ensures Merged(fs, Defaults(fs), slots) == Some(slots)
    decreases fs
  {
    hide FitsSlot, MergedSlot, DefaultSlot;
    if fs.FieldsOf? {
      FromDefaultSlot(fs.head, slots[0]);
      FromDefaults(fs.tail, slots[1..]);
      assert Defaults(fs)[1..] == Defaults(fs.tail) && [slots[0]] + slots[1..] == slots;
    }
  }

  // ---------- Oneofs ----------

  /** The members of a oneof, with one in the middle. */
  function WithMember(before: Members, tag: nat, t: LType, after: Members): Members {
    match before
    case NoMembers => MembersOf(tag, t, after)
    case MembersOf(tag', t', rest) => MembersOf(tag', t', WithMember(rest, tag, t, after))
  }

  lemma {:induction false} MemberInMiddle(before: Members, tag: nat, t: LType, after: Members)
    ensures var ms, i := WithMember(before, tag, t, after), MemberCount(before);
            i < MemberCount(ms) && MemberTag(ms, i) == tag && MemberType(ms, i) == t
  {
    if before.MembersOf? {
      MemberInMiddle(before.tail, tag, t, after);
    }
  }

  /** A member of a oneof that is set is written as an optional field that is. */
  lemma {:induction false} MemberIsOptional(before: Members, tag: nat, t: LType, after: Members, v: Value)
    ensures EncodedSlot(OneOf(WithMember(before, tag, t, after)), Choice(Some((MemberCount(before), v))))
         == EncodedSlot(Optional(tag, t), Maybe(Some(v)))
    ensures EncodedSlot(OneOf(WithMember(before, tag, t, after)), Choice(None)) == []
  {
    MemberInMiddle(before, tag, t, after);
  }

  // ---------- Decoding merges ----------

  lemma {:induction false} ValueMerges(t: LType, current: Value, v: Value, isNew: bool, rest: Bytes)
    requires TypeOk(t) && FitsValue(t, v) && (isNew || ShapedValue(t, current))
    ensures DecodedValue(t, current, EncodedValue(t, v) + rest, isNew)
         == match MergedValue(t, if isNew then DefaultValue(t) else current, v)
            case None => None
            case Some(w) => Some((w, rest))
    decreases t, 0
  {
    match t
    case SubMessage(fields) =>
      hide Encoded, DecodedFields, LengthPrefixed, Defaults, Merged, Fits, SchemaOk, Shaped;
      var inner := Encoded(fields, v.slots);
      DelimitedReads(inner, rest);
      var start := if isNew then Defaults(fields) else current.slots;
      if isNew {
        DefaultsAreShaped(fields);
      }
      ShapedCount(fields, start);
      FieldsMerge(fields, fields, 0, start, v.slots, {});
      assert start[0..] == start && start[..0] == [];
      var merged := Merged(fields, start, v.slots);
      if merged.Some? {
        assert [] + merged.value == merged.value;
      }
    case BytesOf(_) => BlobRoundTrip(t, v, rest);
    case StringOf(_) => BlobRoundTrip(t, v, rest);
    case FixedBytes(_) => BlobRoundTrip(t, v, rest);
    case _ => IntRoundTrip(t, v.n, rest);
  }

  lemma {:induction false} NumbersAreWritten(t: LType, v: Value, rest: Bytes)
    requires Packable(t) && FitsValue(t, v)
    ensures EncodedValue(t, v) + rest != []
  {
    IntRoundTrip(t, v.n, rest);
  }

  lemma {:induction false} ItemsMerge(t: LType, before: seq<Value>, vs: seq<Value>, max: nat)
    requires Packable(t) && forall i | 0 <= i < |vs| :: FitsValue(t, vs[i])
    ensures DecodedItems(t, before, max, EncodedItems(t, vs))
         == if |before| + |vs| <= max || vs == [] then Some(before + vs) else None
    decreases t, |vs| + 1
  {
    hide DecodedValue, EncodedValue;
    if vs == [] {
      assert before + vs == before;
    } else {
      var more := EncodedItems(t, vs[1..]);
      NumbersAreWritten(t, vs[0], more);
      if |before| < max {
        ValueMerges(t, Int(0), vs[0], true, more);
        ItemsMerge(t, before + [vs[0]], vs[1..], max);
        assert before + [vs[0]] + vs[1..] == before + vs;
      }
    }
  }

  /** Elements that are not packed come one by one. */
  lemma {:induction false} EachMerges(all: Fields, slots: seq<Slot>, seen: set<nat>, i: nat, tag: nat, t: LType,
      max: nat, before: seq<Value>, vs: seq<Value>, rest: Bytes)
    requires SchemaOk(all) && |slots| == Count(all) && i < Count(all) && FieldAt(all, i) == Repeated(tag, t, max)
    requires !Packable(t) && TypeOk(t) && 1 <= tag < TAG_LIMIT && slots[i] == Many(before)
    requires forall k | 0 <= k < |vs| :: FitsValue(t, vs[k])
    ensures DecodedFields(all, slots, seen, EncodedEach(tag, t, vs) + rest)
         == if |before| + |vs| <= max || vs == []
            then DecodedFields(all, slots[i := Many(before + vs)], seen, rest) else None
    decreases t, |vs| + 1
  {
    hide DecodedValue, DecodedFields, EncodedValue, EncodedTag, SchemaOk, FitsValue, MergedValue, DefaultValue;
    if vs == [] {
      assert before + vs == before && EncodedEach(tag, t, vs) + rest == rest && slots[i := Many(before)] == slots;
    } else {
      var more := EncodedEach(tag, t, vs[1..]) + rest;
      assert EncodedEach(tag, t, vs) + rest == EncodedTag(tag, WireType(t)) + (EncodedValue(t, vs[0]) + more);
      WireTypesAreSmall(t);
      ValueMerges(t, DefaultValue(t), vs[0], true, more);
      FromDefaultValue(t, vs[0]);
      OneField(all, slots, seen, i, tag, WireType(t), EncodedValue(t, vs[0]) + more);
      if |before| < max {
        var slots' := slots[i := Many(before + [vs[0]])];
        EachMerges(all, slots', seen, i, tag, t, max, before + [vs[0]], vs[1..], rest);
        assert before + [vs[0]] + vs[1..] == before + vs;
        assert slots'[i := Many(before + vs)] == slots[i := Many(before + vs)];
        assert before + [vs[0]] == before + vs[..1];
      }
    }
  }

  function TypeOf(f: Field, member: nat): LType
    requires f.OneOf? ==> member < MemberCount(f.members)
  {
    match f
    case OneOf(ms) => MemberType(ms, member)
    case _ => f.ltype
  }

  /** The value a field has before it is decoded. */
  function Present(f: Field, member: nat, s: Slot): Value
    requires !f.Repeated? && (f.OneOf? ==> member < MemberCount(f.members))
  {
    match s
    case Single(v) => v
    case Maybe(Some(v)) => v
    case Choice(Some((m, v))) => if m == member then v else DefaultValue(TypeOf(f, member))
    case _ => DefaultValue(TypeOf(f, member))
  }

  function SlotOf(f: Field, member: nat, v: Value): Slot
    requires !f.Repeated?
  {
    match f
    case Required(_, _) => Single(v)
    case Optional(_, _) => Maybe(Some(v))
    case Implicit(_, _) => Single(v)
    case OneOf(_) => Choice(Some((member, v)))
  }

  /** One value with its tag. */
  lemma {:induction false} TaggedMerges(all: Fields, slots: seq<Slot>, seen: set<nat>, i: nat, f: Field, tag: nat,
      member: nat, v: Value, rest: Bytes)
    requires SchemaOk(all) && |slots| == Count(all) && i < Count(all) && f == FieldAt(all, i) && ShapedSlot(f, slots[i])
    requires !f.Repeated? && MatchField(f, tag) == Some(member) && 1 <= tag < TAG_LIMIT
    requires TypeOk(TypeOf(f, member)) && FitsValue(TypeOf(f, member), v)
    ensures var t := TypeOf(f, member);
            DecodedFields(all, slots, seen, EncodedTag(tag, WireType(t)) + EncodedValue(t, v) + rest)
            == match MergedValue(t, Present(f, member, slots[i]), v)
               case None => None
               case Some(w) =>
                 DecodedFields(all, slots[i := SlotOf(f, member, w)], if f.Required? then seen + {i} else seen, rest)
    decreases TypeOf(f, member), 1
  {
    hide DecodedValue, DecodedFields, EncodedValue, EncodedTag, SchemaOk, FitsValue, MergedValue, DefaultValue,
        ShapedValue;
    var t, current := TypeOf(f, member), Present(f, member, slots[i]);
    DefaultIsShaped(t);
    ValueMerges(t, current, v, false, rest);
    WireTypesAreSmall(t);
    assert EncodedTag(tag, WireType(t)) + EncodedValue(t, v) + rest
        == EncodedTag(tag, WireType(t)) + (EncodedValue(t, v) + rest);
    OneField(all, slots, seen, i, tag, WireType(t), EncodedValue(t, v) + rest);
  }

  lemma {:induction false} PackedMerges(all: Fields, slots: seq<Slot>, seen: set<nat>, i: nat, tag: nat, t: LType,
      max: nat, before: seq<Value>, vs: seq<Value>, rest: Bytes)
    requires SchemaOk(all) && |slots| == Count(all) && i < Count(all) && FieldAt(all, i) == Repeated(tag, t, max)
        && slots[i] == Many(before)
    requires Packable(t) && FitsSlot(Repeated(tag, t, max), Many(vs)) && vs != [] && 1 <= tag < TAG_LIMIT
    ensures DecodedFields(all, slots, seen, EncodedTag(tag, WT_STRING) + LengthPrefixed(EncodedItems(t, vs)) + rest)
         == if |before| + |vs| <= max then DecodedFields(all, slots[i := Many(before + vs)], seen, rest) else None
    decreases t, |vs| + 2
  {
    hide DecodedItems, DecodedFields, EncodedItems, EncodedTag, SchemaOk, FitsValue, LengthPrefixed;
    var items := LengthPrefixed(EncodedItems(t, vs));
    ItemsMerge(t, before, vs, max);
    DelimitedReads(EncodedItems(t, vs), rest);
    assert EncodedTag(tag, WT_STRING) + items + rest == EncodedTag(tag, WT_STRING) + (items + rest);
    OneField(all, slots, seen, i, tag, WT_STRING, items + rest);
  }

  lemma {:induction false} TagsAreWritten(tag: nat, wireType: nat, a: Bytes)
    ensures EncodedTag(tag, wireType) + a != []
  {
  }

  /** What is not written changes nothing. */
  lemma {:induction false} NothingWritten(f: Field, current: Slot, s: Slot)
    requires FitsSlot(f, s) && ShapedSlot(f, current) && EncodedSlot(f, s) == []
    ensures MergedSlot(f, current, s) == Some(current)
  {
    hide EncodedTag, EncodedValue, FitsValue, EncodedItems, IsDefaultValue, ShapedValue, MergedValue;
    match f
    case Required(tag, t) => TagsAreWritten(tag, WireType(t), EncodedValue(t, s.v));
    case Optional(tag, t) => if s.o.Some? { TagsAreWritten(tag, WireType(t), EncodedValue(t, s.o.value)); }
    case Implicit(tag, t) => TagsAreWritten(tag, WireType(t), EncodedValue(t, s.v));
    case Repeated(tag, t, max) =>
      TagsAreWritten(tag, WT_STRING, LengthPrefixed(EncodedItems(t, s.vs)));
      if s.vs != [] { EachIsWritten(tag, t, s.vs); }
      assert current.vs + [] == current.vs;
    case OneOf(ms) =>
      if s.c.Some? {
        var (i, v) := s.c.value;
        TagsAreWritten(MemberTag(ms, i), WireType(MemberType(ms, i)), EncodedValue(MemberType(ms, i), v));
      }
  }

  lemma {:induction false} EachIsWritten(tag: nat, t: LType, vs: seq<Value>)
    requires vs != []
    ensures EncodedEach(tag, t, vs) != []
  {
    hide EncodedTag, EncodedValue;
    TagsAreWritten(tag, WireType(t), EncodedValue(t, vs[0]));
    assert |EncodedTag(tag, WireType(t)) + EncodedValue(t, vs[0])| > 0;
  }

  /** A field merges what is there with what was encoded. */
  lemma {:induction false} SlotMerges(all: Fields, i: nat, f: Field, slots: seq<Slot>, s: Slot, seen: set<nat>,
      rest: Bytes)
    requires SchemaOk(all) && |slots| == Count(all) && i < Count(all) && f == FieldAt(all, i)
    requires ShapedSlot(f, slots[i]) && FitsSlot(f, s)
    ensures DecodedFields(all, slots, seen, EncodedSlot(f, s) + rest)
         == match MergedSlot(f, slots[i], s)
            case None => None
            case Some(m) => DecodedFields(all, slots[i := m], if f.Required? then seen + {i} else seen, rest)
    decreases f, 0
  {
    hide DecodedFields, MergedValue, EncodedValue, EncodedTag, FitsValue, ShapedValue, DefaultValue, IsDefaultValue,
        SchemaOk, EncodedItems;
    FieldOfSchema(all, i);
    if EncodedSlot(f, s) == [] {
      NothingWritten(f, slots[i], s);
      assert slots[i := slots[i]] == slots && EncodedSlot(f, s) + rest == rest;
      if f.Required? {
        TagsAreWritten(f.tag, WireType(f.ltype), EncodedValue(f.ltype, s.v));
      }
    } else {
      match f
      case Required(tag, t) => TaggedMerges(all, slots, seen, i, f, tag, 0, s.v, rest);
      case Optional(tag, t) => TaggedMerges(all, slots, seen, i, f, tag, 0, s.o.value, rest);
      case Implicit(tag, t) => TaggedMerges(all, slots, seen, i, f, tag, 0, s.v, rest);
      case Repeated(tag, t, max) =>
        if Packable(t) {
          PackedMerges(all, slots, seen, i, tag, t, max, slots[i].vs, s.vs, rest);
        } else {
          EachMerges(all, slots, seen, i, tag, t, max, slots[i].vs, s.vs, rest);
        }
      case OneOf(ms) =>
        var (m, v) := s.c.value;
        MemberFacts(ms, m);
        TaggedMerges(all, slots, seen, i, f, MemberTag(ms, m), m, v, rest);
    }
  }

  function Drop(fs: Fields, i: nat): Fields
    requires i <= Count(fs)
  {
    if i == 0 then fs else Drop(fs.tail, i - 1)
  }

  lemma {:induction false} DropNext(fs: Fields, i: nat)
    requires i <= Count(fs)
    ensures Count(Drop(fs, i)) == Count(fs) - i
    ensures i < Count(fs) ==>
        Drop(fs, i).FieldsOf? && FieldAt(fs, i) == Drop(fs, i).head && Drop(fs, i + 1) == Drop(fs, i).tail
    decreases i
  {
    if i > 0 {
      DropNext(fs.tail, i - 1);
    }
  }

  lemma {:induction false} AllAreSeen(all: Fields, seen: set<nat>)
    requires forall j | 0 <= j < Count(all) && FieldAt(all, j).Required? :: j in seen
    ensures AllSeen(all, seen)
  {
  }

  /** The fields from a place on, merged one by one. */
  lemma {:induction false} FieldsMerge(all: Fields, fs: Fields, i: nat, current: seq<Slot>, slots: seq<Slot>,
      seen: set<nat>)
    requires SchemaOk(all) && i <= Count(all) == |current| && fs == Drop(all, i)
    requires Shaped(fs, current[i..]) && Fits(fs, slots)
    requires forall j | 0 <= j < i && FieldAt(all, j).Required? :: j in seen
    ensures DecodedFields(all, current, seen, Encoded(fs, slots))
         == match Merged(fs, current[i..], slots)
            case None => None
            case Some(rest) => Some(current[..i] + rest)
    decreases fs, 0
  {
    hide DecodedFields, SchemaOk, EncodedSlot, FitsSlot, ShapedSlot, MergedSlot;
    DropNext(all, i);
    if fs.NoFields? {
      AllAreSeen(all, seen);
      assert current[..i] + [] == current;
      EndOfMessage(all, current, seen);
    } else {
      var f, s, rest := fs.head, slots[0], Encoded(fs.tail, slots[1..]);
      SlotMerges(all, i, f, current, s, seen, rest);
      var m := MergedSlot(f, current[i], s);
      assert current[i..][0] == current[i];
      if m.Some? {
        var next := current[i := m.value];
        assert current[i..][1..] == next[i + 1..];
        FieldsMerge(all, fs.tail, i + 1, next, slots[1..], if f.Required? then seen + {i} else seen);
        var more := Merged(fs.tail, next[i + 1..], slots[1..]);
        if more.Some? {
          assert next[..i + 1] + more.value == current[..i] + ([m.value] + more.value);
        }
      }
    }
  }

  lemma {:induction false} EndOfMessage(all: Fields, slots: seq<Slot>, seen: set<nat>)
    requires |slots| == Count(all)
    ensures DecodedFields(all, slots, seen, []) == if AllSeen(all, seen) then Some(slots) else None
  {
  }

  /** Decoding a message into one that is there, without initialising it, merges the two: what is
      written is updated, and the rest stays. */
  lemma {:induction false} DecodingMerges(fs: Fields, current: seq<Slot>, slots: seq<Slot>)
    requires SchemaOk(fs) && Shaped(fs, current) && Fits(fs, slots)
    ensures |current| == Count(fs) && DecodedFields(fs, current, {}, Encoded(fs, slots)) == Merged(fs, current, slots)
  {
    hide DecodedFields, Encoded, Merged, Shaped, Fits;
    ShapedCount(fs, current);
    FieldsMerge(fs, fs, 0, current, slots, {});
    assert current[0..] == current && current[..0] == [];
    if Merged(fs, current, slots).Some? {
      assert [] + Merged(fs, current, slots).value == Merged(fs, current, slots).value;
    }
  }

  /** Every message that fits its schema decodes from its encoding to itself. */
  lemma {:induction false} MessageRoundTrip(fs: Fields, slots: seq<Slot>)
    requires SchemaOk(fs) && Fits(fs, slots)
    ensures Decoded(fs, Encoded(fs, slots)) == Some(slots)
  {
    hide DecodedFields, Encoded, Merged, Shaped, Fits;
    DefaultsAreShaped(fs);
    DecodingMerges(fs, Defaults(fs), slots);
    FromDefaults(fs, slots);
  }
}
