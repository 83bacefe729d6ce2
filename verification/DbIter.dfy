/** The user-facing iterator: one position per live user key at a snapshot, in both directions. */
module DbIter {
  import opened Format
  import Merger

  // ---------- The live keys at a snapshot ----------

  predicate Visible(es: seq<Entry>, s: SequenceNumber, i: nat)
    requires i < |es|
  {
    es[i].key.sequence <= s
  }

  /** Entry i shows its user key: it is the first visible entry of that key, and a value. */
  predicate Yields(es: seq<Entry>, s: SequenceNumber, i: nat)
    requires i < |es|
  {
    && Visible(es, s, i) && es[i].key.kind == Put
    && !(i > 0 && es[i - 1].key.user == es[i].key.user && Visible(es, s, i - 1))
  }

  /** The first live position at or after i. */
  function NextLive(es: seq<Entry>, s: SequenceNumber, i: nat): (r: Option<nat>)
    requires i <= |es|
    ensures r.Some? ==> i <= r.value < |es| && Yields(es, s, r.value)
    ensures forall j | i <= j < |es| && Yields(es, s, j) :: r.Some? && r.value <= j
    decreases |es| - i
  {
    if i == |es| then None else if Yields(es, s, i) then Some(i) else NextLive(es, s, i + 1)
  }

  /** The last live position before i. */
  function PrevLive(es: seq<Entry>, s: SequenceNumber, i: nat): (r: Option<nat>)
    requires i <= |es|
    ensures r.Some? ==> r.value < i && Yields(es, s, r.value)
    ensures forall j | 0 <= j < i && Yields(es, s, j) :: r.Some? && j <= r.value
  {
    if i == 0 then None else if Yields(es, s, i - 1) then Some(i - 1) else PrevLive(es, s, i - 1)
  }

  lemma {:induction false} UsersInOrder(es: seq<Entry>, i: nat, j: nat)
    requires Sorted(es) && i < j < |es|
    ensures es[i].key.user <= es[j].key.user
    ensures es[i].key.user == es[j].key.user ==> es[j].key.sequence <= es[i].key.sequence
  {
    assert Less(es[i].key, es[j].key);
  }

  /** Between two entries of a key, of which the first is visible, all are visible and of that key. */
  lemma {:induction false} SameUserBetween(es: seq<Entry>, s: SequenceNumber, i: nat, k: nat, j: nat)
    requires Sorted(es) && i <= k <= j < |es|
    requires es[i].key.user == es[j].key.user && Visible(es, s, i)
    ensures es[k].key.user == es[i].key.user && Visible(es, s, k)
  {
    if i < k { UsersInOrder(es, i, k); }
    if k < j { UsersInOrder(es, k, j); }
  }

  /** Live positions are exactly the keys whose read at the snapshot finds a value. */
  lemma {:induction false} LivePositionsAreReads(es: seq<Entry>, s: SequenceNumber, u: UserKey)
    requires Sorted(es) && Distinct(SetOf(es))
    ensures forall i | 0 <= i < |es| && Yields(es, s, i) && es[i].key.user == u ::
        Read(SetOf(es), u, s) == Some(es[i].value)
    ensures Read(SetOf(es), u, s).Some? ==> exists i :: 0 <= i < |es| && Yields(es, s, i) && es[i].key.user == u
  {
    hide Read;
    forall i | 0 <= i < |es| && Yields(es, s, i) && es[i].key.user == u
        ensures Read(SetOf(es), u, s) == Some(es[i].value) {
      FirstVisibleIsNewest(es, s, i);
      ReadNewest(SetOf(es), u, s, es[i]);
    }
    if Read(SetOf(es), u, s).Some? {
      if Unseen(SetOf(es), u, s) {
        ReadUnseen(SetOf(es), u, s);
      } else {
        var e := NewestExists(SetOf(es), u, s);
        ReadNewest(SetOf(es), u, s, e);
        var i :| 0 <= i < |es| && es[i] == e;
        if i > 0 {
          UsersInOrder(es, i - 1, i);
          assert es[i - 1] in SetOf(es) && Less(es[i - 1].key, es[i].key);
        }
        assert Yields(es, s, i);
      }
    }
  }

  lemma {:induction false} FirstVisibleIsNewest(es: seq<Entry>, s: SequenceNumber, i: nat)
    requires Sorted(es) && i < |es| && Yields(es, s, i)
    ensures Newest(SetOf(es), es[i].key.user, s, es[i])
  {
    assert es[i] in SetOf(es);
    forall x | x in SetOf(es) && Sees(x, es[i].key.user, s) ensures x.key.sequence <= es[i].key.sequence {
      var j :| 0 <= j < |es| && es[j] == x;
      if j < i {
        SameUserBetween(es, s, j, i - 1, i);
      } else if i < j {
        UsersInOrder(es, i, j);
      }
    }
  }

  /** Live positions come in increasing order of user key. */
  lemma {:induction false} LivePositionsInOrder(es: seq<Entry>, s: SequenceNumber, i: nat, j: nat)
    requires Sorted(es) && i < j < |es| && Visible(es, s, i) && Yields(es, s, j)
    ensures es[i].key.user < es[j].key.user
  {
    var k := j - 1;
    UsersInOrder(es, i, j);
    if es[i].key.user == es[j].key.user {
      SameUserBetween(es, s, i, k, j);
    }
  }

  // ---------- The iterator ----------

  datatype Direction = Forward | Reverse

  class DBIter {
    const iter: Merger.MergingIterator
    const sequence: SequenceNumber
    ghost const es: seq<Entry>      // what the internal iterator runs over, in key order
    ghost var pos: int              // where it stands; outside es when it is invalid
    var direction: Direction
    var valid: bool
    var savedKey: Option<UserKey>   // the current key when going back; the key to skip going forward
    var savedValue: Bytes
    ghost var at: nat               // the live position this iterator stands for, when valid

    constructor (iter: Merger.MergingIterator, sequence: SequenceNumber)
      requires iter.Valid() && iter.At() == None
      ensures Valid() && At() == None && this.iter == iter && es == iter.merged && this.sequence == sequence
    {
      this.iter, this.sequence, es := iter, sequence, iter.merged;
      pos, direction, valid, savedKey, savedValue, at := -1, Forward, false, None, [], 0;
    }

    predicate IterValid()
      reads iter
    {
      iter.current.Some?
    }

    /** The internal iterator stands at `pos` of its merged run. */
    ghost predicate Synced()
      reads this`pos, iter
      ensures Synced() ==> Sorted(es) && -1 <= pos <= |es| && (IterValid() <==> 0 <= pos < |es|)
    {
      && iter.Valid() && iter.merged == es && Sorted(es) && -1 <= pos <= |es|
      && iter.At() == if 0 <= pos < |es| then Some(pos) else None
    }

    function Current(): (e: Entry)
      requires Synced() && IterValid()
      reads this`pos, iter
      ensures e == es[pos]
    {
      iter.CurrentIsUnderCursor();
      iter.Current()
    }

    method IterNext()
      requires Synced() && IterValid()
      modifies `pos, iter
      ensures Synced() && pos == old(pos) + 1
    {
      iter.Next();
      pos := pos + 1;
    }

    method IterSeekToFirst()
      requires Synced()
      modifies `pos, iter
      ensures Synced() && pos == 0
    {
      iter.SeekToFirst();
      pos := 0;
    }

    method IterSeekToLast()
      requires Synced()
      modifies `pos, iter
      ensures Synced() && pos == |es| - 1
    {
      iter.SeekToLast();
      pos := |es| - 1;
    }

    method IterSeek(target: InternalKey)
      requires Synced()
      modifies `pos, iter
      ensures Synced() && pos == SeekIndex(es, target)
    {
      iter.Seek(target);
      pos := SeekIndex(es, target);
    }

    method IterPrev()
      requires Synced() && IterValid()
      modifies `pos, iter
      ensures Synced() && pos == old(pos) - 1
    {
      iter.Prev();
      pos := pos - 1;
    }

    /** Going forward the internal iterator is on the current entry. Going back it is before it,
        on the last visible entry of a smaller key, and the current key and value are saved. */
    ghost predicate Valid()
      reads this, iter
    {
      && Synced()
      && (valid ==> at < |es| && Yields(es, sequence, at))
      && (valid && direction == Forward ==> pos == at)
      && (valid && direction == Reverse ==>
            && savedKey == Some(es[at].key.user) && savedValue == es[at].value
            && pos < at && NoneVisible(es, sequence, pos + 1, at)
            && (pos >= 0 ==> es[pos].key.user < es[at].key.user && Visible(es, sequence, pos)))
    }

    ghost function At(): Option<nat>
      reads this
    {
      if valid then Some(at) else None
    }

    function Key(): UserKey
      requires Valid() && valid
      reads this, iter
      ensures Key() == es[at].key.user
    {
      if direction == Forward then Current().key.user else savedKey.value
    }

    function Value(): Bytes
      requires Valid() && valid
      reads this, iter
      ensures Value() == es[at].value
    {
      if direction == Forward then Current().value else savedValue
    }

    /** Find the first live position from `pos` on whose key is past `skip` when skipping. */
    method FindNextUserEntry(skipping: bool, skip: Option<UserKey>)
      requires Synced() && IterValid() && direction == Forward && (skipping ==> skip.Some?)
      requires SkipIsSafe(es, sequence, pos, skipping, skip)
      modifies this, iter
      ensures Valid() && direction == Forward
      ensures At() == NextPast(es, sequence, old(pos), if skipping then skip else None)
    {
      hide Synced;
      ghost var start, bar := pos, if skipping then skip else None;
      var skipping', skip' := skipping, skip;
      while true
        invariant Synced() && direction == Forward && start <= pos < |es|
        invariant skipping' ==> skip'.Some?
        invariant Skipping(es, sequence, start, pos, bar, skipping', skip')
        decreases |es| - pos
      {
        var e := Current();
        SkippingStep(es, sequence, start, pos, bar, skipping', skip');
        if e.key.sequence <= sequence {
          match e.key.kind {
            case Deletion =>
              skip', skipping' := Some(e.key.user), true;
            case Put =>
              if skipping' && e.key.user <= skip'.value {
              } else {
                valid, at := true, pos;
                savedKey := None;
                return;
              }
          }
        }
        IterNext();
        if !IterValid() {
          break;
        }
      }
      savedKey := None;
      valid := false;
    }

    /** Find the last live position at or before `pos`. */
    method FindPrevUserEntry()
      requires Synced() && pos < |es| && direction == Reverse
      modifies this, iter
      ensures Valid() && At() == PrevLive(es, sequence, old(pos) + 1)
    {
      hide Synced;
      hide Candidate, Sorted, Yields, PrevLive;
      ghost var top: int, c: nat := pos, 0;
      CandidateStart(es, sequence, pos, savedKey, savedValue);
      var valueType := Deletion;
      if IterValid() {
        while true
          invariant Synced() && direction == Reverse && 0 <= pos <= top < |es|
          invariant Candidate(es, sequence, top, pos, valueType, c, savedKey, savedValue)
          decreases pos
        {
          CandidateStep(es, sequence, top, pos, valueType, c, savedKey, savedValue);
          CandidateShape(es, sequence, top, pos, valueType, c, savedKey, savedValue);
          var e := Current();
          if e.key.sequence <= sequence {
            if valueType != Deletion && e.key.user < savedKey.value {
              break;
            }
            valueType := e.key.kind;
            c := pos;
            if valueType == Deletion {
              savedKey, savedValue := None, [];
            } else {
              savedKey, savedValue := Some(e.key.user), e.value;
            }
          }
          IterPrev();
          if !IterValid() {
            break;
          }
        }
        if pos == -1 {
          CandidateShape(es, sequence, top, pos, valueType, c, savedKey, savedValue);
          CandidateAtFront(es, sequence, top, valueType, c, savedKey, savedValue);
        }
      }
      if valueType == Deletion {
        valid, savedKey, savedValue, direction := false, None, [], Forward;
      } else {
        valid, at := true, c;
      }
    }

    method Next()
      requires Valid() && valid
      modifies this, iter
      ensures Valid() && At() == NextLive(es, sequence, old(at) + 1)
    {
      hide Synced;
      NextFrom(es, sequence, at, if direction == Forward then pos else pos + 1);
      if direction == Reverse {
        direction := Forward;
        if !IterValid() {
          IterSeekToFirst();
        } else {
          IterNext();
        }
        if !IterValid() {
          // The code gives up here, but the entries of the current key are always still ahead.
          assert false;
        }
      } else {
        savedKey := Some(Current().key.user);
      }
      FindNextUserEntry(true, savedKey);
    }

    method Prev()
      requires Valid() && valid
      modifies this, iter
      ensures Valid() && At() == PrevLive(es, sequence, old(at))
    {
      hide Synced;
      hide Sorted, PrevLive;
      if direction == Forward {
        savedKey := Some(Current().key.user);
        while true
          invariant Synced() && 0 <= pos <= at < |es| && at == old(at) && direction == Forward
              && Yields(es, sequence, at)
          invariant savedKey == Some(es[at].key.user)
          invariant forall k | pos <= k < at :: es[k].key.user >= es[at].key.user
          decreases pos
        {
          IterPrev();
          if !IterValid() {
            NothingBeforeFirst(es, sequence);
            GroupStartHidden(es, sequence, 0, at);
            valid, savedKey, savedValue := false, None, [];
            return;
          }
          if Current().key.user < savedKey.value {
            break;
          }
        }
        GroupStartHidden(es, sequence, pos + 1, at);
        direction := Reverse;
      } else {
        NothingLiveBetween(es, sequence, pos + 1, at);
      }
      FindPrevUserEntry();
    }

    method Seek(target: UserKey)
      requires Valid()
      modifies this, iter
      ensures Valid() && At() == NextLive(es, sequence, SeekIndex(es, SeekKey(target, sequence)))
    {
      hide Synced;
      direction, savedValue, savedKey := Forward, [], Some(target);
      IterSeek(SeekKey(target, sequence));
      if IterValid() {
        SoughtIsSafe(es, sequence, target);
        NoBar(es, sequence, pos);
        FindNextUserEntry(false, savedKey);
      } else {
        valid := false;
      }
    }

    method SeekToFirst()
      requires Valid()
      modifies this, iter
      ensures Valid() && At() == NextLive(es, sequence, 0)
    {
      hide Synced;
      direction, savedValue := Forward, [];
      IterSeekToFirst();
      if IterValid() {
        NoBar(es, sequence, 0);
        FindNextUserEntry(false, savedKey);
      } else {
        valid := false;
      }
    }

    method SeekToLast()
      requires Valid()
      modifies this, iter
      ensures Valid() && At() == PrevLive(es, sequence, |es|)
    {
      hide Synced;
      direction, savedValue := Reverse, [];
      IterSeekToLast();
      FindPrevUserEntry();
    }
  }

  /** The state of the backward scan, which started at `top` and has come to i: no candidate and
      nothing live behind it, or a candidate c with nothing visible between it and i. */
  ghost predicate Candidate(es: seq<Entry>, s: SequenceNumber, top: int, i: int, kind: ValueType, c: nat,
                            savedKey: Option<UserKey>, savedValue: Bytes)
    requires -1 <= i <= top < |es|
  {
    if kind == Deletion then PrevLive(es, s, top + 1) == PrevLive(es, s, i + 1)
    else
      && i < c <= top && Visible(es, s, c) && es[c].key.kind == Put
      && savedKey == Some(es[c].key.user) && savedValue == es[c].value
      && NoneVisible(es, s, i + 1, c) && PrevLive(es, s, top + 1) == PrevLive(es, s, c + 1)
  }

  lemma {:induction false} CandidateStart(es: seq<Entry>, s: SequenceNumber, top: int, savedKey: Option<UserKey>,
      savedValue: Bytes)
    requires -1 <= top < |es|
    ensures Candidate(es, s, top, top, Deletion, 0, savedKey, savedValue)
    ensures top == -1 ==> PrevLive(es, s, top + 1) == None
  {
  }

  lemma {:induction false} CandidateShape(es: seq<Entry>, s: SequenceNumber, top: int, i: int, kind: ValueType, c: nat,
                                          savedKey: Option<UserKey>, savedValue: Bytes)
    requires -1 <= i <= top < |es| && Candidate(es, s, top, i, kind, c, savedKey, savedValue)
    ensures kind == Put ==> i < c < |es| && savedKey == Some(es[c].key.user) && savedValue == es[c].value
                            && NoneVisible(es, s, i + 1, c)
  {
  }

  /** One step of the backward scan. */
  lemma {:induction false} CandidateStep(es: seq<Entry>, s: SequenceNumber, top: int, i: int, kind: ValueType, c: nat,
                                         savedKey: Option<UserKey>, savedValue: Bytes)
    requires Sorted(es) && 0 <= i <= top < |es|
    requires Candidate(es, s, top, i, kind, c, savedKey, savedValue)
    ensures !Visible(es, s, i) ==> Candidate(es, s, top, i - 1, kind, c, savedKey, savedValue)
    ensures Visible(es, s, i) && kind == Put && es[i].key.user < savedKey.value ==> PrevLive(es, s, top + 1) == Some(c)
    ensures Visible(es, s, i) && !(kind == Put && es[i].key.user < savedKey.value) ==>
              if es[i].key.kind == Deletion then Candidate(es, s, top, i - 1, Deletion, i, None, [])
              else Candidate(es, s, top, i - 1, Put, i, Some(es[i].key.user), es[i].value)
  {
    if kind == Put {
      UsersInOrder(es, i, c);
      if Visible(es, s, i) && es[i].key.user == savedKey.value {
        SameUserBetween(es, s, i, c - 1, c);
        NothingLiveBetween(es, s, i + 1, c);
      }
    }
  }

  lemma {:induction false} NothingLiveBetween(es: seq<Entry>, s: SequenceNumber, i: nat, j: nat)
    requires i <= j <= |es| && NoneVisible(es, s, i, j)
    ensures PrevLive(es, s, j) == PrevLive(es, s, i)
    decreases j
  {
    if i < j {
      NothingLiveBetween(es, s, i, j - 1);
    }
  }

  /** At the front of the run the candidate, if any, is the answer. */
  lemma {:induction false} CandidateAtFront(es: seq<Entry>, s: SequenceNumber, top: int, kind: ValueType, c: nat,
                                            savedKey: Option<UserKey>, savedValue: Bytes)
    requires Sorted(es) && -1 <= top < |es| && Candidate(es, s, top, -1, kind, c, savedKey, savedValue)
    ensures PrevLive(es, s, top + 1) == if kind == Deletion then None else Some(c)
  {
  }

  ghost predicate NoneVisible(es: seq<Entry>, s: SequenceNumber, i: nat, j: nat)
    requires j <= |es|
  {
    forall k | i <= k < j :: !Visible(es, s, k)
  }

  /** The first live position from i on with a key past the bar, if there is a bar. */
  ghost function NextPast(es: seq<Entry>, s: SequenceNumber, i: nat, bar: Option<UserKey>): (r: Option<nat>)
    requires i <= |es|
    decreases |es| - i
  {
    if i == |es| then None
    else if Yields(es, s, i) && (bar.Some? ==> bar.value < es[i].key.user) then Some(i)
    else NextPast(es, s, i + 1, bar)
  }

  /** Starting at i is safe: if i continues a key already shown or deleted, that key is skipped,
      and every visible entry from i on is of the skipped key or past it. */
  ghost predicate SkipIsSafe(es: seq<Entry>, s: SequenceNumber, i: nat, skipping: bool, skip: Option<UserKey>)
    requires i < |es| && (skipping ==> skip.Some?)
  {
    && (i > 0 && Visible(es, s, i - 1) && es[i - 1].key.user == es[i].key.user ==>
        skipping && es[i].key.user <= skip.value)
    && (skipping ==> forall k | i <= k < |es| && Visible(es, s, k) :: skip.value <= es[k].key.user)
  }

  /** The state of the forward scan at i: what lies behind is settled, and the skipped key hides
      exactly the entries at i that are not live past the bar. */
  ghost predicate Skipping(es: seq<Entry>, s: SequenceNumber, start: nat, i: nat, bar: Option<UserKey>,
                           skipping: bool, skip: Option<UserKey>)
    requires start <= i <= |es| && (skipping ==> skip.Some?)
  {
    && NextPast(es, s, start, bar) == NextPast(es, s, i, bar)
    && (i < |es| ==> SkipIsSafe(es, s, i, skipping, skip))
    && (bar.Some? ==> skipping && bar.value <= skip.value)
    && (skipping && bar != skip ==>
          exists d | start <= d < i :: Visible(es, s, d) && es[d].key.user == skip.value)
  }

  /** One step of the forward scan: the entry is the answer, or the scan goes on past it. */
  lemma {:induction false} SkippingStep(es: seq<Entry>, s: SequenceNumber, start: nat, i: nat, bar: Option<UserKey>,
                                        skipping: bool, skip: Option<UserKey>)
    requires Sorted(es) && start <= i < |es| && (skipping ==> skip.Some?)
    requires Skipping(es, s, start, i, bar, skipping, skip)
    ensures var e := es[i];
            if Visible(es, s, i) && e.key.kind == Deletion
                then Skipping(es, s, start, i + 1, bar, true, Some(e.key.user))
                else if Visible(es, s, i) && !(skipping && e.key.user <= skip.value) then
              NextPast(es, s, start, bar) == Some(i) && Yields(es, s, i)
            else Skipping(es, s, start, i + 1, bar, skipping, skip)
  {
    if Visible(es, s, i) && es[i].key.kind == Put && skipping && es[i].key.user <= skip.value {
      assert es[i].key.user == skip.value;
      if bar != skip {
        var d :| start <= d < i && Visible(es, s, d) && es[d].key.user == skip.value;
        SameUserBetween(es, s, d, i - 1, i);
      }
    }
    forall k | i < k < |es| ensures es[i].key.user <= es[k].key.user {
      UsersInOrder(es, i, k);
    }
  }

  lemma {:induction false} NoBar(es: seq<Entry>, s: SequenceNumber, i: nat)
    requires i <= |es|
    ensures NextPast(es, s, i, None) == NextLive(es, s, i)
    decreases |es| - i
  {
    if i < |es| {
      NoBar(es, s, i + 1);
    }
  }

  /** Skipping the current key from a position with nothing visible in between finds the next live
      position. */
  lemma {:induction false} NextFrom(es: seq<Entry>, s: SequenceNumber, at: nat, i: nat)
    requires Sorted(es) && i <= at < |es| && Yields(es, s, at) && NoneVisible(es, s, i, at)
    requires i < at && i > 0 && Visible(es, s, i - 1) ==> es[i - 1].key.user < es[at].key.user
    ensures NextPast(es, s, i, Some(es[at].key.user)) == NextLive(es, s, at + 1)
    ensures SkipIsSafe(es, s, i, true, Some(es[at].key.user))
    decreases at - i
  {
    forall k | i <= k < |es| && Visible(es, s, k) ensures es[at].key.user <= es[k].key.user {
      if at < k { UsersInOrder(es, at, k); }
    }
    if i < at {
      UsersInOrder(es, i, at);
      NextFrom(es, s, at, i + 1);
    } else {
      BarIsPassed(es, s, at, at + 1);
    }
  }

  lemma {:induction false} BarIsPassed(es: seq<Entry>, s: SequenceNumber, at: nat, i: nat)
    requires Sorted(es) && at < i <= |es| && Visible(es, s, at)
    ensures NextPast(es, s, i, Some(es[at].key.user)) == NextLive(es, s, i)
    decreases |es| - i
  {
    if i < |es| {
      if Yields(es, s, i) {
        LivePositionsInOrder(es, s, at, i);
      }
      BarIsPassed(es, s, at, i + 1);
    }
  }

  /** The entries of a key before its live position are not visible. */
  lemma {:induction false} GroupStartHidden(es: seq<Entry>, s: SequenceNumber, i: nat, at: nat)
    requires Sorted(es) && i <= at < |es| && Yields(es, s, at)
    requires forall k | i <= k < at :: es[k].key.user >= es[at].key.user
    ensures NoneVisible(es, s, i, at) && PrevLive(es, s, at) == PrevLive(es, s, i)
  {
    var last := at - 1;
    forall k | i <= k < at ensures !Visible(es, s, k) {
      UsersInOrder(es, k, at);
      if Visible(es, s, k) {
        SameUserBetween(es, s, k, last, at);
      }
    }
    NothingLiveBetween(es, s, i, at);
  }

  /** A seek lands where no visible entry of the same key has been passed. */
  lemma {:induction false} SoughtIsSafe(es: seq<Entry>, s: SequenceNumber, target: UserKey)
    requires Sorted(es) && SeekIndex(es, SeekKey(target, s)) < |es|
    ensures SkipIsSafe(es, s, SeekIndex(es, SeekKey(target, s)), false, None)
  {
    var i := SeekIndex(es, SeekKey(target, s));
    SeekSkipsExactlyTheUnseen(es[i].key, target, s);
    if i > 0 {
      SeekSkipsExactlyTheUnseen(es[i - 1].key, target, s);
    }
  }

  lemma {:induction false} NothingBeforeFirst(es: seq<Entry>, s: SequenceNumber)
    ensures PrevLive(es, s, 0) == None
  {
  }

  // ---------- The cursor over the sorted map of live keys ----------

  ghost predicate IsLive(es: seq<Entry>, s: SequenceNumber, u: UserKey) {
    Read(SetOf(es), u, s).Some?
  }

  /** A found position is the least live key past a bound, with its value; none found, none live. */
  ghost predicate LeastLive(es: seq<Entry>, s: SequenceNumber, r: Option<nat>, past: UserKey -> bool)
  {
    match r
    case Some(i) =>
      && i < |es| && past(es[i].key.user) && Read(SetOf(es), es[i].key.user, s) == Some(es[i].value)
      && forall u | past(u) && IsLive(es, s, u) :: es[i].key.user <= u
    case None => forall u | past(u) :: !IsLive(es, s, u)
  }

  ghost predicate GreatestLive(es: seq<Entry>, s: SequenceNumber, r: Option<nat>, before: UserKey -> bool)
  {
    match r
    case Some(i) =>
      && i < |es| && before(es[i].key.user) && Read(SetOf(es), es[i].key.user, s) == Some(es[i].value)
      && forall u | before(u) && IsLive(es, s, u) :: u <= es[i].key.user
    case None => forall u | before(u) :: !IsLive(es, s, u)
  }

  /** The live position of a live key. */
  lemma {:induction false} LivePositionOf(es: seq<Entry>, s: SequenceNumber, u: UserKey) returns (i: nat)
    requires Sorted(es) && Distinct(SetOf(es)) && IsLive(es, s, u)
    ensures i < |es| && Yields(es, s, i) && es[i].key.user == u
  {
    LivePositionsAreReads(es, s, u);
    i :| 0 <= i < |es| && Yields(es, s, i) && es[i].key.user == u;
  }

  /** Positions found by the forward search from i are the least live keys past a bound, when the
      bound separates the positions before i from those after. */
  lemma {:induction false} NextLiveIsLeast(es: seq<Entry>, s: SequenceNumber, i: nat, past: UserKey -> bool)
    requires Sorted(es) && Distinct(SetOf(es)) && i <= |es|
    requires forall j | 0 <= j < |es| && Yields(es, s, j) :: past(es[j].key.user) <==> i <= j
    ensures LeastLive(es, s, NextLive(es, s, i), past)
  {
    hide Read, Distinct, Yields;
    var r := NextLive(es, s, i);
    if r.Some? {
      LivePositionsAreReads(es, s, es[r.value].key.user);
    }
    forall u | past(u) && IsLive(es, s, u) ensures r.Some? && es[r.value].key.user <= u {
      var j := LivePositionOf(es, s, u);
      if r.value < j { UsersInOrder(es, r.value, j); }
    }
  }

  lemma {:induction false} PrevLiveIsGreatest(es: seq<Entry>, s: SequenceNumber, i: nat, before: UserKey -> bool)
    requires Sorted(es) && Distinct(SetOf(es)) && i <= |es|
    requires forall j | 0 <= j < |es| && Yields(es, s, j) :: before(es[j].key.user) <==> j < i
    ensures GreatestLive(es, s, PrevLive(es, s, i), before)
  {
    hide Read, Distinct, Yields;
    var r := PrevLive(es, s, i);
    if r.Some? {
      LivePositionsAreReads(es, s, es[r.value].key.user);
    }
    forall u | before(u) && IsLive(es, s, u) ensures r.Some? && u <= es[r.value].key.user {
      var j := LivePositionOf(es, s, u);
      if j < r.value { UsersInOrder(es, j, r.value); }
    }
  }

  /** Next, Prev, Seek, SeekToFirst and SeekToLast are the moves of a cursor over the sorted map
      of live keys: successor, predecessor, ceiling, first and last. */
  lemma {:induction false} MovesOfTheMapCursor(es: seq<Entry>, s: SequenceNumber, at: nat, target: UserKey)
    requires Sorted(es) && Distinct(SetOf(es))
    requires at < |es| && Yields(es, s, at)
    ensures LeastLive(es, s, NextLive(es, s, at + 1), u => es[at].key.user < u)
    ensures GreatestLive(es, s, PrevLive(es, s, at), u => u < es[at].key.user)
    ensures LeastLive(es, s, NextLive(es, s, SeekIndex(es, SeekKey(target, s))), u => target <= u)
    ensures LeastLive(es, s, NextLive(es, s, 0), _ => true)
    ensures GreatestLive(es, s, PrevLive(es, s, |es|), _ => true)
  {
    hide Read, Distinct, LeastLive, GreatestLive, Less;
    forall j | 0 <= j < |es| && Yields(es, s, j)
      ensures es[at].key.user < es[j].key.user <==> at < j
      ensures es[j].key.user < es[at].key.user <==> j < at
    {
      if at < j { LivePositionsInOrder(es, s, at, j); }
      if j < at { LivePositionsInOrder(es, s, j, at); }
    }
    forall j | 0 <= j < |es| && Yields(es, s, j)
      ensures target <= es[j].key.user <==> SeekIndex(es, SeekKey(target, s)) <= j
    {
      SeekSkipsExactlyTheUnseen(es[j].key, target, s);
    }
    NextLiveIsLeast(es, s, at + 1, u => es[at].key.user < u);
    PrevLiveIsGreatest(es, s, at, u => u < es[at].key.user);
    NextLiveIsLeast(es, s, SeekIndex(es, SeekKey(target, s)), u => target <= u);
    NextLiveIsLeast(es, s, 0, _ => true);
    PrevLiveIsGreatest(es, s, |es|, _ => true);
  }
}
