/** The manifest as a file: encoded edits in a log, and what recovery makes of it. */
module ManifestFile {
  import opened Format
  import opened Coding
  import opened Versions
  import opened VersionBuilder
  import opened Database
  import opened LogFormat
  import opened LogRoundTrip
  import opened Manifests
  import opened ManifestRuns
  import opened KeyEncoding
  import Codec = VersionEditCodec

  // ---------- Edits and their records ----------

  /** The metadata of a table. */
  predicate Describes(names: Naming, m: Codec.FileMetaData, f: File) {
    && m.number == f.number && m.size == f.size
    && m.smallest == KeyBytes(names, Smallest(f)) && m.largest == KeyBytes(names, Largest(f))
  }

  function Deletions(ds: seq<(Codec.Level, Codec.Number)>): set<(nat, nat)> {
    set d | d in ds :: (d.0 as nat, d.1 as nat)
  }

  predicate SameNumber(a: Option<Codec.Number>, b: Option<nat>) {
    a.Some? == b.Some? && (a.Some? ==> a.value == b.value)
  }

  /** A record as an edit is encoded. Compaction pointers are no part of the version. */
  ghost predicate IsRecordOf(names: Naming, r: Codec.EditRecord, e: VersionEdit) {
    && (r.comparator.Some? == e.comparator.Some? && (r.comparator.Some? ==> r.comparator.value == e.comparator.value))
    && SameNumber(r.logNumber, e.logNumber) && SameNumber(r.prevLogNumber, e.prevLogNumber)
    && SameNumber(r.nextFile, e.nextFile)
    && (r.lastSequence.Some? == e.lastSequence.Some?
        && (r.lastSequence.Some? ==> r.lastSequence.value == e.lastSequence.value))
    && Codec.InSetOrder(r.deleted) && Deletions(r.deleted) == e.files.deleted
    && |r.added| == |e.files.added|
    && forall i | 0 <= i < |r.added| ::
        r.added[i].0 == e.files.added[i].0 && Describes(names, r.added[i].1, e.files.added[i].1)
  }

  /** The file that metadata stand for, among the tables ever written under some number. */
  predicate Known(names: Naming, tables: map<nat, File>, m: Codec.FileMetaData) {
    m.number as nat in tables && Describes(names, m, tables[m.number as nat])
  }

  function Plain(n: Option<Codec.Number>): Option<nat> {
    if n.Some? then (var m: nat := n.value; Some(m)) else None
  }

  /** The edit that a record stands for. */
  function Meaning(names: Naming, tables: map<nat, File>, r: Codec.EditRecord): Option<VersionEdit> {
    if (r.lastSequence.Some? && r.lastSequence.value > MAX_SEQUENCE) || exists i | 0 <= i < |r.added| ::
        !Known(names, tables, r.added[i].1)
    then None
    else
      Some(VersionEdit(
        if r.comparator.Some? then (var name: Bytes := r.comparator.value; Some(name)) else None,
        Plain(r.logNumber), Plain(r.prevLogNumber), Plain(r.nextFile),
        if r.lastSequence.Some? then (var last: SequenceNumber := r.lastSequence.value; Some(last)) else None,
        Edit(Deletions(r.deleted),
            seq(|r.added|, i requires 0 <= i < |r.added| => (r.added[i].0 as nat,
            tables[r.added[i].1.number as nat])))))
  }

  /** Tables under the numbers that edits give them. */
  ghost predicate TablesOf(tables: map<nat, File>, edits: seq<Edit>) {
    forall k, a | 0 <= k < |edits| && a in edits[k].added :: a.1.number in tables && tables[a.1.number] == a.1
  }

  lemma {:induction false} RecordMeans(names: Naming, tables: map<nat, File>, r: Codec.EditRecord, e: VersionEdit)
    requires IsRecordOf(names, r, e)
        && forall a | a in e.files.added :: a.1.number in tables && tables[a.1.number] == a.1
    ensures Meaning(names, tables, r) == Some(e)
  {
    hide KeyBytes, Codec.InSetOrder;
    forall i | 0 <= i < |r.added|
      ensures Known(names, tables, r.added[i].1)
          && (r.added[i].0 as nat, tables[r.added[i].1.number as nat]) == e.files.added[i]
    {
      assert e.files.added[i] in e.files.added;
    }
    assert Meaning(names, tables, r).value.files.added == e.files.added;
  }

  // ---------- Every edit has a record ----------

  ghost predicate FitsRecord(names: Naming, e: VersionEdit) {
    && (e.comparator.Some? ==> |e.comparator.value| < TWO_32)
    && (e.logNumber.Some? ==> e.logNumber.value < TWO_64) && (e.prevLogNumber.Some? ==> e.prevLogNumber.value < TWO_64)
    && (e.nextFile.Some? ==> e.nextFile.value < TWO_64)
    && (forall d | d in e.files.deleted :: d.0 < NUM_LEVELS && d.1 < TWO_64)
    && forall a | a in e.files.added :: a.0 < NUM_LEVELS && FitsMetaData(names, a.1)
  }

  ghost predicate FitsMetaData(names: Naming, f: File) {
    && f.number < TWO_64 && f.size < TWO_64
    && |KeyBytes(names, Smallest(f))| < TWO_32 && |KeyBytes(names, Largest(f))| < TWO_32
  }

  lemma {:induction false} Listing(s: set<(nat, nat)>) returns (ds: seq<(Codec.Level, Codec.Number)>)
    requires forall d | d in s :: d.0 < NUM_LEVELS && d.1 < TWO_64
    ensures Codec.InSetOrder(ds) && Deletions(ds) == s
    decreases s
  {
    if s == {} {
      ds := [];
    } else {
      var d :| d in s;
      var rest := Listing(s - {d});
      ds := Codec.InsertDeleted(rest, (d.0, d.1));
      InsertedDeletion(rest, (d.0, d.1));
      assert Deletions(ds) == Deletions(rest) + {d};
    }
  }

  lemma {:induction false} InsertedDeletion(ds: seq<(Codec.Level, Codec.Number)>, d: (Codec.Level, Codec.Number))
    requires Codec.InSetOrder(ds)
    ensures var r := Codec.InsertDeleted(ds, d); Codec.InSetOrder(r) && forall x :: x in r <==> x in ds || x == d
  {
    if ds != [] && Codec.Before(ds[0], d) {
      InsertedDeletion(ds[1..], d);
      var rest := Codec.InsertDeleted(ds[1..], d);
      assert forall i | 0 <= i < |rest| :: rest[i] in rest;
    }
  }

  lemma {:induction false} RecordExists(names: Naming, e: VersionEdit) returns (r: Codec.EditRecord)
    requires FitsRecord(names, e)
    ensures IsRecordOf(names, r, e)
  {
    hide KeyBytes, Codec.InSetOrder, Deletions;
    var deleted := Listing(e.files.deleted);
    var added := Metadata(names, e.files.added);
    var name: Option<Codec.Text> := None;
    if e.comparator.Some? {
      var text: Codec.Text := e.comparator.value;
      name := Some(text);
    }
    var last: Option<Codec.Number> := None;
    if e.lastSequence.Some? {
      var n: Codec.Number := e.lastSequence.value;
      last := Some(n);
    }
    r := Codec.EditRecord(name, AsNumber(e.logNumber), AsNumber(e.prevLogNumber), AsNumber(e.nextFile), last, [],
        deleted, added);
  }

  function AsNumber(n: Option<nat>): Option<Codec.Number>
    requires n.Some? ==> n.value < TWO_64
  {
    if n.Some? then (var m: Codec.Number := n.value; Some(m)) else None
  }

  lemma {:induction false} Metadata(names: Naming, adds: seq<(nat, File)>)
      returns (r: seq<(Codec.Level, Codec.FileMetaData)>)
    requires forall a | a in adds :: a.0 < NUM_LEVELS && FitsMetaData(names, a.1)
    ensures |r| == |adds| && forall i | 0 <= i < |r| :: r[i].0 == adds[i].0 && Describes(names, r[i].1, adds[i].1)
  {
    hide KeyBytes;
    r := [];
    for i := 0 to |adds|
      invariant |r| == i && forall j | 0 <= j < i :: r[j].0 == adds[j].0 && Describes(names, r[j].1, adds[j].1)
    {
      var a := adds[i];
      assert a in adds;
      r := r + [(a.0, Codec.FileMetaData(a.1.number, a.1.size, KeyBytes(names, Smallest(a.1)),
          KeyBytes(names, Largest(a.1))))];
    }
  }

  // ---------- Reading the file ----------

  const FRESH: Codec.EditRecord := Codec.EditRecord(None, None, None, None, None, [], [], [])

  function EncodedRecords(rs: seq<Codec.EditRecord>): seq<Bytes> {
    seq(|rs|, i requires 0 <= i < |rs| => Codec.Encoded(rs[i]))
  }

  /** Each record is decoded into a fresh edit. The first that is corrupt, or has the wrong
      comparator, ends it. */
  function Decoded(names: Naming, tables: map<nat, File>, records: seq<Bytes>): Result<seq<VersionEdit>> {
    if records == [] then Ok([])
    else
      match Decoded(names, tables, records[..|records| - 1])
      case Err(e) => Err(e)
      case Ok(es) =>
        if !NamesMatch(es, names.comparator) then Err(InvalidArgument("does not match existing comparator"))
        else
          match Codec.DecodeFields(Codec.Clear(FRESH), records[|records| - 1])
          case Err(e) => Err(e)
          case Ok(r) =>
            match Meaning(names, tables, r)
            case None => Err(Corruption("unknown table"))
            case Some(e) => Ok(es + [e])
  }

  /** From the bytes of a manifest to the version. A corruption that the log reader reports ends it. */
  function ReadManifest(names: Naming, tables: map<nat, File>, file: Bytes): Result<Recovered> {
    var (records, reports) := ReadAll(file, 0);
    if reports != [] then Err(Corruption("corrupt record"))
    else
      match Decoded(names, tables, records)
      case Err(e) => Err(e)
      case Ok(es) => Replay(es, names.comparator)
  }

  ghost predicate AreRecordsOf(names: Naming, rs: seq<Codec.EditRecord>, es: seq<VersionEdit>) {
    |rs| == |es| && forall i | 0 <= i < |es| :: IsRecordOf(names, rs[i], es[i])
  }

  lemma {:induction false} RecordsDecode(names: Naming, tables: map<nat, File>, rs: seq<Codec.EditRecord>,
      es: seq<VersionEdit>, k: nat)
    requires AreRecordsOf(names, rs, es) && TablesOf(tables, Files(es)) && NamesMatch(es, names.comparator) && k <= |es|
    ensures Decoded(names, tables, EncodedRecords(rs)[..k]) == Ok(es[..k])
    decreases k
  {
    hide IsRecordOf, Meaning, Codec.DecodeFields, Codec.Encoded, Codec.InSetOrder;
    if k > 0 {
      var records := EncodedRecords(rs)[..k];
      assert records[..k - 1] == EncodedRecords(rs)[..k - 1];
      RecordsDecode(names, tables, rs, es, k - 1);
      DeletedInOrder(names, rs[k - 1], es[k - 1]);
      Codec.EditRoundTrip(FRESH, rs[k - 1]);
      assert Files(es)[k - 1] == es[k - 1].files;
      RecordMeans(names, tables, rs[k - 1], es[k - 1]);
      assert es[..k] == es[..k - 1] + [es[k - 1]];
    }
  }

  lemma {:induction false} DeletedInOrder(names: Naming, r: Codec.EditRecord, e: VersionEdit)
    requires IsRecordOf(names, r, e)
    ensures Codec.InSetOrder(r.deleted)
  {
  }

  /** The edits of a manifest: a snapshot, which sets no numbers, and complete edits. */
  ghost predicate IsManifest(es: seq<VersionEdit>, name: Bytes) {
    && NamesMatch(es, name) && AllFresh(Files(es))
    && (es != [] ==> es[0].logNumber.None? && es[0].nextFile.None? && es[0].lastSequence.None?)
    && forall i | 1 <= i < |es| ::
         es[i].logNumber.Some? && es[i].prevLogNumber.Some? && es[i].nextFile.Some? && es[i].lastSequence.Some?
  }

  function RecoveredAfter(es: seq<VersionEdit>, k: nat): Recovered
    requires 2 <= k <= |es|
    requires var e := es[k - 1]; e.logNumber.Some? && e.prevLogNumber.Some? && e.nextFile.Some? && e.lastSequence.Some?
  {
    var e := es[k - 1];
    Recovered(EditedAll(NO_FILES, Files(es[..k])), e.logNumber.value, e.prevLogNumber.value, e.nextFile.value,
        e.nextFile.value + 1, e.lastSequence.value)
  }

  lemma {:induction false} PrefixReplays(es: seq<VersionEdit>, name: Bytes, k: nat)
    requires IsManifest(es, name) && 2 <= k <= |es|
    ensures Replay(es[..k], name) == Ok(RecoveredAfter(es, k))
  {
    hide EditedAll, AllFresh, Replay;
    var front, e := es[..k - 1], es[k - 1];
    assert es[..k] == front + [e];
    PrefixFresh(es, k);
    assert NamesMatch(es[..k], name);
    RecordRebuilds(front, EditedAll(NO_FILES, Files(front)), e, name);
    assert Files(es[..k]) == Files(front) + [e.files];
  }

  lemma {:induction false} PrefixFresh(es: seq<VersionEdit>, k: nat)
    requires AllFresh(Files(es)) && k <= |es|
    ensures AllFresh(Files(es[..k]))
    decreases |es| - k
  {
    hide AllFresh;
    if k == |es| {
      assert es[..k] == es;
    } else {
      PrefixFresh(es, k + 1);
      assert es[..k + 1] == es[..k] + [es[k]];
      FreshBefore(es[..k], es[k]);
    }
  }

  lemma {:induction false} TooShortToReplay(es: seq<VersionEdit>, name: Bytes, k: nat)
    requires IsManifest(es, name) && k <= 1 && k <= |es|
    ensures Replay(es[..k], name) == Err(Corruption("no meta-nextfile entry in descriptor"))
  {
    hide AllFresh, Rebuilt;
    assert NamesMatch(es[..k], name);
    if k == 1 {
      assert es[..1] == [es[0]] && [es[0]][..0] == [] && NextFileOf(es[0]) == None;
      assert LastSet([], NextFileOf) == None;
      assert LastSet([es[0]], NextFileOf) == None;
    }
  }

  /** A manifest cut off anywhere recovers to the version, the log number, the file number and the last
      sequence number after the edits that are whole in it. */
  lemma {:induction false} ManifestRecovers(names: Naming, tables: map<nat, File>, rs: seq<Codec.EditRecord>,
      es: seq<VersionEdit>, n: nat)
    requires AreRecordsOf(names, rs, es) && TablesOf(tables, Files(es)) && IsManifest(es, names.comparator)
    requires n <= |Log(0, EncodedRecords(rs))|
    ensures var k := Whole(0, EncodedRecords(rs), n);
            && k <= |es|
            && ReadManifest(names, tables, Log(0, EncodedRecords(rs))[..n])
               == if k < 2 then Err(Corruption("no meta-nextfile entry in descriptor")) else Ok(RecoveredAfter(es, k))
  {
    hide Decoded, Codec.Encoded, Log, Whole, ReadAll, IsManifest, AreRecordsOf, TablesOf, Replay, AllFresh, EditedAll;
    var k := Whole(0, EncodedRecords(rs), n);
    TornTail(EncodedRecords(rs), n);
    ManifestParts(names, rs, es);
    RecordsDecode(names, tables, rs, es, k);
    if k < 2 {
      TooShortToReplay(es, names.comparator, k);
    } else {
      CompleteAt(es, names.comparator, k - 1);
      PrefixReplays(es, names.comparator, k);
    }
  }

  lemma {:induction false} ManifestParts(names: Naming, rs: seq<Codec.EditRecord>, es: seq<VersionEdit>)
    requires AreRecordsOf(names, rs, es) && IsManifest(es, names.comparator)
    ensures |rs| == |es| && NamesMatch(es, names.comparator)
  {
  }

  lemma {:induction false} CompleteAt(es: seq<VersionEdit>, name: Bytes, i: nat)
    requires IsManifest(es, name) && 1 <= i < |es|
    ensures es[i].logNumber.Some? && es[i].prevLogNumber.Some? && es[i].nextFile.Some? && es[i].lastSequence.Some?
  {
  }

  // ---------- The manifest of a run ----------

  /** The records of a run: a snapshot of the first version, and a complete edit for each step that
      logs one. */
  ghost predicate IsManifestOf(es: seq<VersionEdit>, states: seq<State>, actions: seq<Action>, o: Options, name: Bytes)
    requires IsRunFrom(states, actions, o)
  {
    && es != [] && es[0] == Snapshot(states[0].levels, name) && Files(es) == EditsOf(states, actions, o, |actions|)
    && forall i | 1 <= i < |es| ::
         && es[i].comparator.None?
         && es[i].logNumber.Some? && es[i].prevLogNumber.Some? && es[i].nextFile.Some? && es[i].lastSequence.Some?
  }

  lemma {:induction false} EditsGrow(states: seq<State>, actions: seq<Action>, o: Options, i: nat, n: nat)
    requires IsRunFrom(states, actions, o) && i <= n <= |actions|
    ensures EditsOf(states, actions, o, i) <= EditsOf(states, actions, o, n)
    decreases n
  {
    hide EditOf, Enabled, After;
    if i < n {
      EditsGrow(states, actions, o, i, n - 1);
    }
  }

  ghost predicate WasAdded(edits: seq<Edit>, f: File) {
    exists k, a :: 0 <= k < |edits| && a in edits[k].added && a.1 == f
  }

  ghost function AddedNumbers(edits: seq<Edit>): set<nat> {
    set k, a | 0 <= k < |edits| && a in edits[k].added :: a.1.number
  }

  ghost function FileNumbered(edits: seq<Edit>, n: nat): (f: File)
    requires n in AddedNumbers(edits)
    ensures f.number == n && WasAdded(edits, f)
  {
    var k, a :| 0 <= k < |edits| && a in edits[k].added && a.1.number == n;
    a.1
  }

  ghost function AddedTables(edits: seq<Edit>): map<nat, File> {
    map n | n in AddedNumbers(edits) :: FileNumbered(edits, n)
  }

  /** Along a run each number stands for one table, so that there are tables to read. */
  lemma {:induction false} TablesExist(states: seq<State>, actions: seq<Action>, o: Options, n: nat)
    requires IsRunFrom(states, actions, o) && Inv(states[0]) && n <= |actions|
    ensures TablesOf(AddedTables(EditsOf(states, actions, o, n)), EditsOf(states, actions, o, n))
  {
    hide Inv, EditsOf, AllFresh, EditedAll, AllInOrder, OnlyMovedDown, IsRunFrom;
    RunTold(states, actions, o, n);
    OneTableEach(EditsOf(states, actions, o, n));
  }

  lemma {:induction false} OneTableEach(edits: seq<Edit>)
    requires OneFileEach(edits)
    ensures TablesOf(AddedTables(edits), edits)
  {
    forall k, a | 0 <= k < |edits| && a in edits[k].added
      ensures a.1.number in AddedTables(edits) && AddedTables(edits)[a.1.number] == a.1
    {
      assert a.1.number in AddedNumbers(edits);
      assert WasAdded(edits, FileNumbered(edits, a.1.number));
    }
  }

  /** A crash at any point of any run: once the manifest has been opened, recovery finds, among the
      tables of the run, the version as it was after the last step whose edit is whole in the file. */
  lemma {:induction false} RunRecovers(names: Naming, rs: seq<Codec.EditRecord>, es: seq<VersionEdit>, n: nat,
      states: seq<State>, actions: seq<Action>, o: Options, i: nat)
    requires IsRunFrom(states, actions, o) && Inv(states[0]) && i <= |actions|
        && IsManifestOf(es, states, actions, o, names.comparator)
    requires AreRecordsOf(names, rs, es) && n <= |Log(0, EncodedRecords(rs))|
    requires Whole(0, EncodedRecords(rs), n) == |EditsOf(states, actions, o, i)| >= 2
    ensures var k, tables := |EditsOf(states, actions, o, i)|, AddedTables(EditsOf(states, actions, o, |actions|));
            && k <= |es| && es[k - 1].logNumber.Some? && es[k - 1].lastSequence.Some?
            && var r := ReadManifest(names, tables, Log(0, EncodedRecords(rs))[..n]);
               && r.Ok? && r.value.levels == states[i].levels
               && r.value.logNumber == es[k - 1].logNumber.value && r.value.lastSequence == es[k - 1].lastSequence.value
  {
    hide Inv, Log, Whole, EditsOf, ReadManifest, AllFresh, EditedAll, TablesOf, IsRecordOf, AllInOrder, Past, Snapshot,
        IsRunFrom, AddedTables;
    NumbersStayFresh(states, actions, o, |actions|);
    NumbersStayFresh(states, actions, o, i);
    EditsGrow(states, actions, o, i, |actions|);
    ManifestOfRun(es, states, actions, o, names.comparator);
    TablesExist(states, actions, o, |actions|);
    ManifestRecovers(names, AddedTables(EditsOf(states, actions, o, |actions|)), rs, es, n);
    var k := |EditsOf(states, actions, o, i)|;
    assert Files(es[..k]) == EditsOf(states, actions, o, i) by {
      FilesOfPrefix(es, k);
    }
  }

  lemma {:induction false} FilesOfPrefix(es: seq<VersionEdit>, k: nat)
    requires k <= |es|
    ensures Files(es[..k]) == Files(es)[..k]
  {
  }

  lemma {:induction false} ManifestOfRun(es: seq<VersionEdit>, states: seq<State>, actions: seq<Action>, o: Options,
      name: Bytes)
    requires IsRunFrom(states, actions, o) && IsManifestOf(es, states, actions, o, name) && AllFresh(Files(es))
    ensures IsManifest(es, name)
  {
    hide IsRunFrom, AllFresh, EditsOf;
  }
}
