/** Which reads a compaction preserves: all of them, exactly when it resurrects no key. */
module CompactionReads {
  import opened Format
  import opened Versions
  import opened CompactionWork

  // ---------- The survivors as a set ----------

  ghost predicate HiddenIn(input: set<Entry>, e: Entry, smallest: SequenceNumber) {
    exists x :: x in input && x.key.user == e.key.user && e.key.sequence < x.key.sequence <= smallest
  }

  /** Rule (A) looks only at the entry just before, yet finds any newer one visible to all. */
  lemma {:induction false} HiddenLooksOneBack(input: seq<Entry>, i: nat, smallest: SequenceNumber)
    requires Sorted(input) && Distinct(SetOf(input)) && i < |input|
    ensures Hidden(input, i, smallest) <==> HiddenIn(SetOf(input), input[i], smallest)
  {
    if Hidden(input, i, smallest) {
      var x := input[i - 1];
      assert x in SetOf(input) && input[i] in SetOf(input) && Less(x.key, input[i].key);
    }
    if HiddenIn(SetOf(input), input[i], smallest) {
      var x :| x in SetOf(input) && x.key.user == input[i].key.user
          && input[i].key.sequence < x.key.sequence <= smallest;
      var j :| 0 <= j < |input| && input[j] == x;
      RanksInOrder(input, j, i);
      assert j < i - 1 ==> Less(input[j].key, input[i - 1].key);
      assert Less(input[i - 1].key, input[i].key);
    }
  }

  lemma {:induction false} SurvivorsPrefix(levels: Levels, level: nat, input: seq<Entry>, n: nat,
      smallest: SequenceNumber, e: Entry)
    requires n <= |input|
    ensures e in Survivors(levels, level, input, n, smallest) <==>
              exists i | 0 <= i < n :: input[i] == e && !Dropped(levels, level, input, i, smallest)
  {
    hide Dropped;
    if n > 0 {
      SurvivorsPrefix(levels, level, input, n - 1, smallest, e);
    }
  }

  lemma {:induction false} SurvivorsHold(levels: Levels, level: nat, input: seq<Entry>, smallest: SequenceNumber,
      e: Entry)
    requires Sorted(input) && Distinct(SetOf(input))
    ensures e in Survivors(levels, level, input, |input|, smallest) <==>
              e in input && !HiddenIn(SetOf(input), e, smallest) && !Obsolete(levels, level, e, smallest)
  {
    hide HiddenIn, Hidden, Obsolete, Sorted, Distinct;
    SurvivorsPrefix(levels, level, input, |input|, smallest, e);
    forall i | 0 <= i < |input|
      ensures Dropped(levels, level, input, i, smallest) <==>
                HiddenIn(SetOf(input), input[i], smallest) || Obsolete(levels, level, input[i], smallest)
    {
      HiddenLooksOneBack(input, i, smallest);
    }
  }

  // ---------- The theorem on sets of entries ----------

  /** Around a compaction: entries above its inputs, left at its output level, and below it. */
  datatype Surroundings = Surroundings(above: set<Entry>, beside: set<Entry>, below: set<Entry>) {
    ghost function Rest(): set<Entry> {
      above + beside + below
    }

    ghost predicate Around(input: set<Entry>) {
      && Distinct(Rest() + input) && Rest() !! input
      && Newer(above, input)
    }
  }

  /** The compaction keeps the inputs that are neither hidden nor obsolete tombstones. */
  ghost predicate Keeps(input: set<Entry>, output: set<Entry>, obsolete: set<Entry>, smallest: SequenceNumber) {
    && (forall e :: e in output <==> e in input && !HiddenIn(input, e, smallest) && e !in obsolete)
    && forall d | d in obsolete :: d in input && d.key.kind == Deletion && d.key.sequence <= smallest
  }

  /** The tombstone that hides `u` from a reader at `at` is dropped as obsolete, while a value it hides
      is left at the output level, outside the compaction. */
  ghost predicate Resurrects(around: Surroundings, input: set<Entry>, obsolete: set<Entry>, at: SequenceNumber,
      u: UserKey)
  {
    exists d, v :: d in obsolete && Newest(around.Rest() + input, u, at, d)
                   && Newest(around.beside, u, d.key.sequence, v) && v.key.kind == Put
  }

  /** Where a tombstone was dropped, only entries left beside the compaction can show through. */
  lemma {:induction false} OnlyBesideShowsThrough(around: Surroundings, input: set<Entry>, output: set<Entry>,
      obsolete: set<Entry>, smallest: SequenceNumber, s: SequenceNumber, d: Entry, e: Entry)
    requires around.Around(input) && Keeps(input, output, obsolete, smallest) && smallest <= s
    requires forall d, x | d in obsolete && x in around.below :: d.key.user != x.key.user
    requires d in obsolete && Newest(around.Rest() + input, d.key.user, s, d)
    requires e in around.Rest() + output && Sees(e, d.key.user, s)
    ensures e in around.beside && e.key.sequence < d.key.sequence
  {
    assert e in output ==> e in input && !HiddenIn(input, e, smallest);
  }

  lemma {:induction false} CompactionReadsAt(around: Surroundings, input: set<Entry>, output: set<Entry>,
      obsolete: set<Entry>, smallest: SequenceNumber, at: SequenceNumber, u: UserKey, s: SequenceNumber)
    requires around.Around(input) && Keeps(input, output, obsolete, smallest) && smallest <= at <= s
    requires forall d, x | d in obsolete && x in around.below :: d.key.user != x.key.user
    requires !Resurrects(around, input, obsolete, at, u)
    ensures Read(around.Rest() + output, u, s) == Read(around.Rest() + input, u, s)
  {
    hide Read, Keeps, Resurrects;
    var before, after := around.Rest() + input, around.Rest() + output;
    assert after <= before by { KeptAreInputs(input, output, obsolete, smallest); }
    if Unseen(before, u, s) {
      ReadUnseen(before, u, s);
      ReadUnseen(after, u, s);
    } else {
      var e := NewestExists(before, u, s);
      ReadNewest(before, u, s, e);
      if e in after {
        ReadNewest(after, u, s, e);
      } else {
        DroppedNewestIsObsolete(around, input, output, obsolete, smallest, u, s, e);
        if Unseen(after, u, s) {
          ReadUnseen(after, u, s);
        } else {
          var v := NewestExists(after, u, s);
          ReadNewest(after, u, s, v);
          ShownThroughIsNoValue(around, input, output, obsolete, smallest, at, s, e, v);
        }
      }
    }
  }

  lemma {:induction false} KeptAreInputs(input: set<Entry>, output: set<Entry>, obsolete: set<Entry>,
      smallest: SequenceNumber)
    requires Keeps(input, output, obsolete, smallest)
    ensures output <= input
  {
  }

  lemma {:induction false} DroppedNewestIsObsolete(around: Surroundings, input: set<Entry>, output: set<Entry>,
      obsolete: set<Entry>, smallest: SequenceNumber, u: UserKey, s: SequenceNumber, e: Entry)
    requires Keeps(input, output, obsolete, smallest) && smallest <= s
    requires Newest(around.Rest() + input, u, s, e) && e !in around.Rest() + output
    ensures e in obsolete && e.key.kind == Deletion
  {
    assert !HiddenIn(input, e, smallest);
  }

  lemma {:induction false} ShownThroughIsNoValue(around: Surroundings, input: set<Entry>, output: set<Entry>,
      obsolete: set<Entry>, smallest: SequenceNumber, at: SequenceNumber, s: SequenceNumber, d: Entry, v: Entry)
    requires around.Around(input) && Keeps(input, output, obsolete, smallest) && smallest <= at <= s
    requires forall d, x | d in obsolete && x in around.below :: d.key.user != x.key.user
    requires d in obsolete && Newest(around.Rest() + input, d.key.user, s, d)
    requires Newest(around.Rest() + output, d.key.user, s, v)
    requires !Resurrects(around, input, obsolete, at, d.key.user)
    ensures v.key.kind != Put
  {
    hide HiddenIn, Distinct, Newer;
    OnlyBesideShowsThrough(around, input, output, obsolete, smallest, s, d, v);
    assert Newest(around.Rest() + input, d.key.user, at, d);
    assert Newest(around.beside, d.key.user, d.key.sequence, v);
  }

  /** The read at `at` changes when a key is resurrected there. */
  lemma {:induction false} ResurrectionIsVisible(around: Surroundings, input: set<Entry>, output: set<Entry>,
      obsolete: set<Entry>, smallest: SequenceNumber, at: SequenceNumber, u: UserKey)
    requires around.Around(input) && Keeps(input, output, obsolete, smallest) && smallest <= at
    requires forall d, x | d in obsolete && x in around.below :: d.key.user != x.key.user
    requires Resurrects(around, input, obsolete, at, u)
    ensures Read(around.Rest() + input, u, at) == None
    ensures Read(around.Rest() + output, u, at).Some?
  {
    hide Read;
    var before, after := around.Rest() + input, around.Rest() + output;
    var d, v :| d in obsolete && Newest(before, u, at, d)
                && Newest(around.beside, u, d.key.sequence, v) && v.key.kind == Put;
    ReadNewest(before, u, at, d);
    forall e | e in after && Sees(e, u, at) ensures e.key.sequence <= v.key.sequence {
      OnlyBesideShowsThrough(around, input, output, obsolete, smallest, at, d, e);
    }
    assert v in after && Sees(v, u, at);
    KeptAreInputs(input, output, obsolete, smallest);
    assert Distinct(after);
    ReadNewest(after, u, at, v);
  }

  /** A compaction preserves every read of `u` from `at` on if and only if it does not resurrect
      `u` at `at`. */
  lemma {:induction false} CompactionPreservesReads(around: Surroundings, input: set<Entry>, output: set<Entry>,
      obsolete: set<Entry>, smallest: SequenceNumber, at: SequenceNumber, u: UserKey)
    requires around.Around(input) && Keeps(input, output, obsolete, smallest) && smallest <= at
    requires forall d, x | d in obsolete && x in around.below :: d.key.user != x.key.user
    ensures (forall s: SequenceNumber | at <= s ::
               Read(around.Rest() + output, u, s) == Read(around.Rest() + input, u, s))
            <==> !Resurrects(around, input, obsolete, at, u)
  {
    hide Read, Keeps, Resurrects;
    if Resurrects(around, input, obsolete, at, u) {
      ResurrectionIsVisible(around, input, output, obsolete, smallest, at, u);
    } else {
      forall s: SequenceNumber | at <= s
        ensures Read(around.Rest() + output, u, s) == Read(around.Rest() + input, u, s)
      {
        CompactionReadsAt(around, input, output, obsolete, smallest, at, u, s);
      }
    }
  }
}
