/** Version edits as bytes. Keys are bytes here; numbers have 64 bits. */
module VersionEditCodec {
  import opened Format
  import opened Coding

  type Level = l: nat | l < 7

  type Number = n: nat | n < TWO_64

  type Text = s: Bytes | |s| < TWO_32

  datatype FileMetaData = FileMetaData(number: Number, size: Number, smallest: Text, largest: Text)

  datatype EditRecord = EditRecord(
    comparator: Option<Text>,
    logNumber: Option<Number>,
    prevLogNumber: Option<Number>,
    nextFile: Option<Number>,
    lastSequence: Option<Number>,
    compactPointers: seq<(Level, Text)>,
    deleted: seq<(Level, Number)>,        // a set, listed in order
    added: seq<(Level, FileMetaData)>
  )

  /** Clearing an edit before decoding into it leaves its compaction pointers, as the code does. */
  function Clear(e: EditRecord): EditRecord {
    EditRecord(None, None, None, None, None, e.compactPointers, [], [])
  }

  /** One tagged field of an encoded edit. */
  datatype Field =
    | Comparator(name: Text)
    | LogNumber(n: Number)
    | PrevLogNumber(n: Number)
    | NextFile(n: Number)
    | LastSequence(n: Number)
    | CompactPointer(level: Level, key: Text)
    | DeletedFile(level: Level, n: Number)
    | NewFile(level: Level, file: FileMetaData)

  function Tag(f: Field): nat {
    match f
    case Comparator(_) => 1
    case LogNumber(_) => 2
    case NextFile(_) => 3
    case LastSequence(_) => 4
    case CompactPointer(_, _) => 5
    case DeletedFile(_, _) => 6
    case NewFile(_, _) => 7
    case PrevLogNumber(_) => 9
  }

  // ---------- Encoding ----------

  function EncodedBody(f: Field): Bytes {
    match f
    case Comparator(name) => LengthPrefixed(name)
    case CompactPointer(level, key) => Varint(level) + LengthPrefixed(key)
    case DeletedFile(level, n) => Varint(level) + Varint(n)
    case NewFile(level, file) =>
      Varint(level) + (Varint(file.number)
          + (Varint(file.size) + (LengthPrefixed(file.smallest) + LengthPrefixed(file.largest))))
    case _ => Varint(f.n)
  }

  function EncodedField(f: Field): Bytes {
    Varint(Tag(f)) + EncodedBody(f)
  }

  function EncodedFields(fs: seq<Field>): Bytes {
    if fs == [] then [] else EncodedField(fs[0]) + EncodedFields(fs[1..])
  }

  /** The fields in the order in which they are written. */
  function FieldsOf(e: EditRecord): seq<Field> {
    ScalarFields(e) + PointerFields(e) + DeletedFields(e) + AddedFields(e)
  }

  function ScalarFields(e: EditRecord): seq<Field> {
    (if e.comparator.Some? then [Comparator(e.comparator.value)] else [])
    + (if e.logNumber.Some? then [LogNumber(e.logNumber.value)] else [])
    + (if e.prevLogNumber.Some? then [PrevLogNumber(e.prevLogNumber.value)] else [])
    + (if e.nextFile.Some? then [NextFile(e.nextFile.value)] else [])
    + (if e.lastSequence.Some? then [LastSequence(e.lastSequence.value)] else [])
  }

  function PointerFields(e: EditRecord): seq<Field> {
    seq(|e.compactPointers|,
        i requires 0 <= i < |e.compactPointers| => CompactPointer(e.compactPointers[i].0, e.compactPointers[i].1))
  }

  function DeletedFields(e: EditRecord): seq<Field> {
    seq(|e.deleted|, i requires 0 <= i < |e.deleted| => DeletedFile(e.deleted[i].0, e.deleted[i].1))
  }

  function AddedFields(e: EditRecord): seq<Field> {
    seq(|e.added|, i requires 0 <= i < |e.added| => NewFile(e.added[i].0, e.added[i].1))
  }

  function Encoded(e: EditRecord): Bytes {
    EncodedFields(FieldsOf(e))
  }

  // ---------- Decoding ----------

  function GetLevel(input: Bytes): Option<(Level, Bytes)> {
    match GetVarint32(input)
    case None => None
    case Some((v, rest)) => if v < 7 then Some((v, rest)) else None
  }

  function GetNumber(input: Bytes): (r: Option<(Number, Bytes)>)
    ensures r.Some? ==> |r.value.1| < |input|
  {
    match GetVarint64(input)
    case None => None
    case Some((v, rest)) => Some((v, rest))
  }

  function GetText(input: Bytes): (r: Option<(Text, Bytes)>)
    ensures r.Some? ==> |r.value.1| < |input|
  {
    match GetLengthPrefixedSlice(input)
    case None => None
    case Some((s, rest)) => var text: Text := s; Some((text, rest))
  }

  function GetNewFile(input: Bytes): (r: Option<(Field, Bytes)>)
    ensures r.Some? ==> |r.value.1| < |input|
  {
    match GetLevel(input)
    case None => None
    case Some((level, r1)) =>
      match GetNumber(r1)
      case None => None
      case Some((number, r2)) =>
        match GetNumber(r2)
        case None => None
        case Some((size, r3)) =>
          match GetText(r3)
          case None => None
          case Some((smallest, r4)) =>
            match GetText(r4)
            case None => None
            case Some((largest, r5)) => Some((NewFile(level, FileMetaData(number, size, smallest, largest)), r5))
  }

  function NumberField(input: Bytes, make: Number -> Field, message: string): (r: Result<(Field, Bytes)>)
    ensures r.Ok? ==> |r.value.1| < |input|
  {
    match GetNumber(input)
    case None => Err(Corruption(message))
    case Some((n, rest)) => Ok((make(n), rest))
  }

  /** The field after a tag. */
  function GetField(tag: nat, input: Bytes): (r: Result<(Field, Bytes)>)
    ensures r.Ok? ==> |r.value.1| < |input|
  {
    match tag
    case 1 =>
      (match GetText(input)
       case None => Err(Corruption("comparator name"))
       case Some((s, rest)) => Ok((Comparator(s), rest)))
    case 2 => NumberField(input, (n: Number) => LogNumber(n), "log number")
    case 9 => NumberField(input, (n: Number) => PrevLogNumber(n), "previous log number")
    case 3 => NumberField(input, (n: Number) => NextFile(n), "next file number")
    case 4 => NumberField(input, (n: Number) => LastSequence(n), "last sequence number")
    case 5 =>
      (match GetLevel(input)
       case None => Err(Corruption("compaction pointer"))
       case Some((level, r1)) =>
         match GetText(r1)
         case None => Err(Corruption("compaction pointer"))
         case Some((key, r2)) => Ok((CompactPointer(level, key), r2)))
    case 6 =>
      (match GetLevel(input)
       case None => Err(Corruption("deleted file"))
       case Some((level, r1)) =>
         match GetNumber(r1)
         case None => Err(Corruption("deleted file"))
         case Some((n, r2)) => Ok((DeletedFile(level, n), r2)))
    case 7 =>
      (match GetNewFile(input)
       case None => Err(Corruption("new-file entry"))
       case Some((f, rest)) => Ok((f, rest)))
    case _ => Err(Corruption("unknown tag"))
  }

  /** The order of deleted files in their set. */
  predicate Before(a: (Level, Number), b: (Level, Number)) {
    a.0 < b.0 || (a.0 == b.0 && a.1 < b.1)
  }

  function InsertDeleted(ds: seq<(Level, Number)>, d: (Level, Number)): seq<(Level, Number)> {
    if ds == [] || Before(d, ds[0]) then [d] + ds
    else if d == ds[0] then ds
    else [ds[0]] + InsertDeleted(ds[1..], d)
  }

  function WithField(e: EditRecord, f: Field): EditRecord {
    match f
    case Comparator(name) => e.(comparator := Some(name))
    case LogNumber(n) => e.(logNumber := Some(n))
    case PrevLogNumber(n) => e.(prevLogNumber := Some(n))
    case NextFile(n) => e.(nextFile := Some(n))
    case LastSequence(n) => e.(lastSequence := Some(n))
    case CompactPointer(level, key) => e.(compactPointers := e.compactPointers + [(level, key)])
    case DeletedFile(level, n) => e.(deleted := InsertDeleted(e.deleted, (level, n)))
    case NewFile(level, file) => e.(added := e.added + [(level, file)])
  }

  function WithFields(e: EditRecord, fs: seq<Field>): EditRecord
    decreases |fs|
  {
    if fs == [] then e else WithFields(WithField(e, fs[0]), fs[1..])
  }

  /** Read fields until the input ends or is found corrupt. */
  function DecodeFields(e: EditRecord, input: Bytes): Result<EditRecord>
    decreases |input|
  {
    match GetVarint32(input)
    case None => if input == [] then Ok(e) else Err(Corruption("invalid tag"))
    case Some((tag, rest)) =>
      match GetField(tag, rest)
      case Err(m) => Err(m)
      case Ok((f, rest')) => DecodeFields(WithField(e, f), rest')
  }

  method DecodeFrom(used: EditRecord, src: Bytes) returns (r: Result<EditRecord>)
    ensures r == DecodeFields(Clear(used), src)
  {
    hide GetVarint32, GetField, WithField;
    var e, input := Clear(used), src;
    while true
      invariant DecodeFields(Clear(used), src) == DecodeFields(e, input)
      decreases |input|
    {
      match GetVarint32(input) {
        case None =>
          return if input == [] then Ok(e) else Err(Corruption("invalid tag"));
        case Some((tag, rest)) =>
          match GetField(tag, rest) {
            case Err(m) => return Err(m);
            case Ok((f, rest')) => e, input := WithField(e, f), rest';
          }
      }
    }
  }

  lemma {:induction false} EncodedSnoc(fs: seq<Field>, f: Field)
    ensures EncodedFields(fs + [f]) == EncodedFields(fs) + EncodedField(f)
    decreases |fs|
  {
    hide EncodedField;
    if fs == [] {
      assert [f][1..] == [];
    } else {
      assert (fs + [f])[1..] == fs[1..] + [f];
      EncodedSnoc(fs[1..], f);
    }
  }

  method EncodeTo(e: EditRecord) returns (dst: Bytes)
    ensures dst == Encoded(e)
  {
    hide EncodedField, EncodedFields, ScalarFields, PointerFields, DeletedFields, AddedFields;
    ghost var fs;
    dst, fs := EncodeScalars(e);
    dst, fs := AppendFields(dst, fs, PointerFields(e));
    dst, fs := AppendFields(dst, fs, DeletedFields(e));
    dst, fs := AppendFields(dst, fs, AddedFields(e));
  }

  method EncodeScalars(e: EditRecord) returns (dst: Bytes, ghost fs: seq<Field>)
    ensures dst == EncodedFields(fs) && fs == ScalarFields(e)
  {
    hide EncodedField, EncodedFields;
    dst, fs := [], [];
    NoFields();
    if e.comparator.Some? {
      dst, fs := AppendField(dst, fs, Comparator(e.comparator.value));
    }
    if e.logNumber.Some? {
      dst, fs := AppendField(dst, fs, LogNumber(e.logNumber.value));
    }
    if e.prevLogNumber.Some? {
      dst, fs := AppendField(dst, fs, PrevLogNumber(e.prevLogNumber.value));
    }
    if e.nextFile.Some? {
      dst, fs := AppendField(dst, fs, NextFile(e.nextFile.value));
    }
    if e.lastSequence.Some? {
      dst, fs := AppendField(dst, fs, LastSequence(e.lastSequence.value));
    }
  }

  method AppendFields(dst: Bytes, ghost fs: seq<Field>, more: seq<Field>) returns (dst': Bytes, ghost fs': seq<Field>)
    requires dst == EncodedFields(fs)
    ensures dst' == EncodedFields(fs') && fs' == fs + more
  {
    hide EncodedField, EncodedFields;
    dst', fs' := dst, fs;
    for i := 0 to |more|
      invariant dst' == EncodedFields(fs') && fs' == fs + more[..i]
    {
      dst', fs' := AppendField(dst', fs', more[i]);
      OneMore(fs, more, i);
    }
    assert more[..|more|] == more;
  }

  lemma {:induction false} NoFields()
    ensures EncodedFields([]) == []
  {
  }

  lemma {:induction false} OneMore<T>(a: seq<T>, b: seq<T>, i: nat)
    requires i < |b|
    ensures a + b[..i] + [b[i]] == a + b[..i + 1]
  {
  }

  method AppendField(dst: Bytes, ghost fs: seq<Field>, f: Field) returns (dst': Bytes, ghost fs': seq<Field>)
    requires dst == EncodedFields(fs)
    ensures dst' == EncodedFields(fs') && fs' == fs + [f]
  {
    EncodedSnoc(fs, f);
    dst', fs' := dst + EncodedField(f), fs + [f];
  }

  // ---------- The round trip ----------

  lemma {:induction false} NumberRoundTrip(n: Number, rest: Bytes)
    ensures GetNumber(Varint(n) + rest) == Some((n, rest))
  {
    Varint64RoundTrip(n, rest);
  }

  lemma {:induction false} TextRoundTrip(s: Text, rest: Bytes)
    ensures GetText(LengthPrefixed(s) + rest) == Some((s, rest))
  {
    LengthPrefixedRoundTrip(s, rest);
  }

  lemma {:induction false} LevelRoundTrip(level: Level, rest: Bytes)
    ensures GetLevel(Varint(level) + rest) == Some((level, rest))
  {
    Varint32RoundTrip(level, rest);
  }

  lemma {:induction false} NewFileRoundTrip(level: Level, file: FileMetaData, rest: Bytes)
    ensures GetNewFile(EncodedBody(NewFile(level, file)) + rest) == Some((NewFile(level, file), rest))
  {
    hide GetLevel, GetNumber, GetText, Varint, LengthPrefixed;
    var e := LengthPrefixed(file.largest) + rest;
    var d := LengthPrefixed(file.smallest) + e;
    var c := Varint(file.size) + d;
    var b := Varint(file.number) + c;
    assert EncodedBody(NewFile(level, file)) + rest == Varint(level) + b;
    LevelRoundTrip(level, b);
    NumberRoundTrip(file.number, c);
    NumberRoundTrip(file.size, d);
    TextRoundTrip(file.smallest, e);
    TextRoundTrip(file.largest, rest);
  }

  lemma {:induction false} FieldRoundTrip(f: Field, rest: Bytes)
    ensures GetField(Tag(f), EncodedBody(f) + rest) == Ok((f, rest))
  {
    hide GetLevel, GetNumber, GetText, GetNewFile, Varint, LengthPrefixed;
    match f
    case Comparator(name) => TextRoundTrip(name, rest);
    case CompactPointer(level, key) =>
      assert EncodedBody(f) + rest == Varint(level) + (LengthPrefixed(key) + rest);
      LevelRoundTrip(level, LengthPrefixed(key) + rest);
      TextRoundTrip(key, rest);
    case DeletedFile(level, n) =>
      assert EncodedBody(f) + rest == Varint(level) + (Varint(n) + rest);
      LevelRoundTrip(level, Varint(n) + rest);
      NumberRoundTrip(n, rest);
    case NewFile(level, file) => NewFileRoundTrip(level, file, rest);
    case _ => NumberRoundTrip(f.n, rest);
  }

  /** Any fields, in any order, decode one by one. */
  lemma {:induction false} FieldsRoundTrip(e: EditRecord, fs: seq<Field>)
    ensures DecodeFields(e, EncodedFields(fs)) == Ok(WithFields(e, fs))
    decreases |fs|
  {
    hide GetVarint32, GetField, WithField, EncodedBody, Varint;
    if fs == [] {
      NothingToRead();
    } else {
      var f, rest := fs[0], EncodedFields(fs[1..]);
      assert EncodedFields(fs) == Varint(Tag(f)) + (EncodedBody(f) + rest);
      Varint32RoundTrip(Tag(f), EncodedBody(f) + rest);
      FieldRoundTrip(f, rest);
      FieldsRoundTrip(WithField(e, f), fs[1..]);
    }
  }

  lemma {:induction false} NothingToRead()
    ensures GetVarint32([]) == None
  {
  }

  lemma {:induction false} WithFieldsConcat(e: EditRecord, a: seq<Field>, b: seq<Field>)
    ensures WithFields(e, a + b) == WithFields(WithFields(e, a), b)
    decreases |a|
  {
    hide WithField;
    if a == [] {
      assert a + b == b;
    } else {
      assert (a + b)[1..] == a[1..] + b;
      WithFieldsConcat(WithField(e, a[0]), a[1..], b);
    }
  }

  predicate InSetOrder(ds: seq<(Level, Number)>) {
    forall i, j | 0 <= i < j < |ds| :: Before(ds[i], ds[j])
  }

  lemma {:induction false} InsertLast(ds: seq<(Level, Number)>, d: (Level, Number))
    requires forall i | 0 <= i < |ds| :: Before(ds[i], d)
    ensures InsertDeleted(ds, d) == ds + [d]
    decreases |ds|
  {
    if ds != [] {
      assert Before(ds[0], d);
      InsertLast(ds[1..], d);
    }
  }

  lemma {:induction false} WithFieldsSnoc(e: EditRecord, fs: seq<Field>, f: Field)
    ensures WithFields(e, fs + [f]) == WithField(WithFields(e, fs), f)
  {
    hide WithField;
    WithFieldsConcat(e, fs, [f]);
    assert [f][1..] == [];
  }

  lemma {:induction false} PointersRestored(e: EditRecord, r: EditRecord, n: nat)
    requires n <= |e.compactPointers|
    ensures WithFields(r, PointerFields(e)[..n]) == r.(compactPointers := r.compactPointers + e.compactPointers[..n])
    decreases n
  {
    if n > 0 {
      PointersRestored(e, r, n - 1);
      assert PointerFields(e)[..n] == PointerFields(e)[..n - 1] + [PointerFields(e)[n - 1]];
      WithFieldsSnoc(r, PointerFields(e)[..n - 1], PointerFields(e)[n - 1]);
      OneMore(r.compactPointers, e.compactPointers, n - 1);
    } else {
      assert r.compactPointers + [] == r.compactPointers;
    }
  }

  lemma {:induction false} DeletedRestored(e: EditRecord, r: EditRecord, n: nat)
    requires n <= |e.deleted| && r.deleted == [] && InSetOrder(e.deleted)
    ensures WithFields(r, DeletedFields(e)[..n]) == r.(deleted := e.deleted[..n])
    decreases n
  {
    if n > 0 {
      DeletedRestored(e, r, n - 1);
      assert DeletedFields(e)[..n] == DeletedFields(e)[..n - 1] + [DeletedFields(e)[n - 1]];
      WithFieldsSnoc(r, DeletedFields(e)[..n - 1], DeletedFields(e)[n - 1]);
      InsertLast(e.deleted[..n - 1], e.deleted[n - 1]);
      assert e.deleted[..n - 1] + [e.deleted[n - 1]] == e.deleted[..n];
    }
  }

  lemma {:induction false} AddedRestored(e: EditRecord, r: EditRecord, n: nat)
    requires n <= |e.added| && r.added == []
    ensures WithFields(r, AddedFields(e)[..n]) == r.(added := e.added[..n])
    decreases n
  {
    if n > 0 {
      AddedRestored(e, r, n - 1);
      assert AddedFields(e)[..n] == AddedFields(e)[..n - 1] + [AddedFields(e)[n - 1]];
      WithFieldsSnoc(r, AddedFields(e)[..n - 1], AddedFields(e)[n - 1]);
      assert e.added[..n - 1] + [e.added[n - 1]] == e.added[..n];
    }
  }

  lemma {:induction false} ScalarsRestored(e: EditRecord, start: EditRecord)
    requires start == Clear(start)
    ensures WithFields(start, ScalarFields(e))
        == e.(compactPointers := start.compactPointers, deleted := [], added := [])
  {
    var s1 := if e.comparator.Some? then [Comparator(e.comparator.value)] else [];
    var s2 := if e.logNumber.Some? then [LogNumber(e.logNumber.value)] else [];
    var s3 := if e.prevLogNumber.Some? then [PrevLogNumber(e.prevLogNumber.value)] else [];
    var s4 := if e.nextFile.Some? then [NextFile(e.nextFile.value)] else [];
    var s5 := if e.lastSequence.Some? then [LastSequence(e.lastSequence.value)] else [];
    WithFieldsConcat(start, s1 + s2 + s3 + s4, s5);
    WithFieldsConcat(start, s1 + s2 + s3, s4);
    WithFieldsConcat(start, s1 + s2, s3);
    WithFieldsConcat(start, s1, s2);
    AtMostOne(start, s1);
    AtMostOne(WithFields(start, s1), s2);
    AtMostOne(WithFields(start, s1 + s2), s3);
    AtMostOne(WithFields(start, s1 + s2 + s3), s4);
    AtMostOne(WithFields(start, s1 + s2 + s3 + s4), s5);
  }

  lemma {:induction false} AtMostOne(e: EditRecord, fs: seq<Field>)
    requires |fs| <= 1
    ensures WithFields(e, fs) == if fs == [] then e else WithField(e, fs[0])
  {
  }

  /** Decoding restores every field, behind the compaction pointers that were there already. */
  lemma {:induction false} DecodedOver(used: EditRecord, e: EditRecord)
    requires InSetOrder(e.deleted)
    ensures DecodeFields(Clear(used), Encoded(e)) == Ok(e.(compactPointers := used.compactPointers + e.compactPointers))
  {
    hide WithFields, WithField, DecodeFields, EncodedFields, ScalarFields, PointerFields, DeletedFields, AddedFields;
    var start, pointers := Clear(used), used.compactPointers + e.compactPointers;
    FieldsRoundTrip(start, FieldsOf(e));
    var a, b, c, d := ScalarFields(e), PointerFields(e), DeletedFields(e), AddedFields(e);
    WithFieldsConcat(start, a + b + c, d);
    WithFieldsConcat(start, a + b, c);
    WithFieldsConcat(start, a, b);
    ScalarsRestored(e, start);
    AllFields(e);
    PointersRestored(e, e.(compactPointers := used.compactPointers, deleted := [], added := []), |e.compactPointers|);
    DeletedRestored(e, e.(compactPointers := pointers, deleted := [], added := []), |e.deleted|);
    AddedRestored(e, e.(compactPointers := pointers, added := []), |e.added|);
  }

  /** An edit decodes to itself exactly when it is decoded into one without compaction pointers. */
  lemma {:induction false} EditRoundTrip(used: EditRecord, e: EditRecord)
    requires InSetOrder(e.deleted)
    ensures DecodeFields(Clear(used), Encoded(e)) == Ok(e) <==> used.compactPointers == []
  {
    hide DecodeFields, Encoded;
    DecodedOver(used, e);
    if used.compactPointers == [] {
      assert [] + e.compactPointers == e.compactPointers;
    } else {
      assert |used.compactPointers + e.compactPointers| > |e.compactPointers|;
    }
  }

  lemma {:induction false} AllFields(e: EditRecord)
    ensures PointerFields(e)[..|e.compactPointers|] == PointerFields(e)
        && e.compactPointers[..|e.compactPointers|] == e.compactPointers
    ensures DeletedFields(e)[..|e.deleted|] == DeletedFields(e) && e.deleted[..|e.deleted|] == e.deleted
    ensures AddedFields(e)[..|e.added|] == AddedFields(e) && e.added[..|e.added|] == e.added
  {
  }
}
