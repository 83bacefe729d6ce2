/** The filter block of a table: one filter for the keys of all data blocks that begin in the same
    two kilobytes of the file. */
module FilterBlocks {
  import opened Format
  import opened Coding
  import opened Blocks
  import opened Bloom
  import opened Comparators

  const BASE_LG: Byte := 11
  const BASE: nat := 2048

  // ---------- Keys, flattened ----------

  function Flat(keys: seq<Bytes>): Bytes {
    if keys == [] then [] else Flat(keys[..|keys| - 1]) + keys[|keys| - 1]
  }

  ghost predicate AreStarts(keys: seq<Bytes>, start: seq<nat>) {
    |start| == |keys| && forall i | 0 <= i < |keys| :: start[i] == |Flat(keys[..i])|
  }

  lemma {:induction false} OneMoreFlat(keys: seq<Bytes>, i: nat)
    requires i < |keys|
    ensures Flat(keys[..i + 1]) == Flat(keys[..i]) + keys[i]
  {
    assert keys[..i + 1][..i] == keys[..i];
  }

  lemma {:induction false} FlatPrefix(keys: seq<Bytes>, i: nat)
    requires i <= |keys|
    ensures |Flat(keys[..i])| <= |Flat(keys)| && Flat(keys)[..|Flat(keys[..i])|] == Flat(keys[..i])
    decreases |keys| - i
  {
    if i == |keys| {
      assert keys[..i] == keys;
    } else {
      OneMoreFlat(keys, i);
      FlatPrefix(keys, i + 1);
    }
  }

  lemma {:induction false} FlatAt(keys: seq<Bytes>, i: nat)
    requires i < |keys|
    ensures |Flat(keys[..i])| <= |Flat(keys[..i + 1])| <= |Flat(keys)|
    ensures Flat(keys)[|Flat(keys[..i])|..|Flat(keys[..i + 1])|] == keys[i]
  {
    hide Flat;
    OneMoreFlat(keys, i);
    FlatPrefix(keys, i + 1);
    var a, b := |Flat(keys[..i])|, |Flat(keys[..i + 1])|;
    assert Flat(keys)[a..b] == Flat(keys)[..b][a..];
  }

  lemma {:induction false} FlatAppended(keys: seq<Bytes>, key: Bytes)
    ensures Flat(keys + [key]) == Flat(keys) + key
    ensures forall i | 0 <= i <= |keys| :: (keys + [key])[..i] == keys[..i]
  {
    assert (keys + [key])[..|keys|] == keys;
  }

  // ---------- Filters ----------

  function Users(keys: seq<Bytes>): seq<Bytes> {
    seq(|keys|, i requires 0 <= i < |keys| => UserOf(keys[i]))
  }

  /** No bytes at all for no keys. */
  ghost predicate Covers(policy: FilterPolicy, group: seq<Bytes>, filter: Bytes) {
    if group == [] then filter == [] else policy.IsFilter(Users(group), filter)
  }

  function EndOf(offsets: seq<nat>, i: nat, size: nat): nat
    requires i < |offsets|
  {
    if i + 1 < |offsets| then offsets[i + 1] else size
  }

  /** One filter after the other, one for each group of keys. */
  ghost predicate AreFilters(policy: FilterPolicy, groups: seq<seq<Bytes>>, offsets: seq<nat>, filters: Bytes) {
    && |offsets| == |groups|
    && forall i | 0 <= i < |groups| ::
         offsets[i] <= EndOf(offsets, i, |filters|) <= |filters|
             && Covers(policy, groups[i], filters[offsets[i]..EndOf(offsets, i, |filters|)])
  }

  lemma {:induction false} OneMoreFilter(policy: FilterPolicy, groups: seq<seq<Bytes>>, offsets: seq<nat>,
      filters: Bytes, group: seq<Bytes>, filter: Bytes)
    requires AreFilters(policy, groups, offsets, filters) && Covers(policy, group, filter)
    ensures AreFilters(policy, groups + [group], offsets + [|filters|], filters + filter)
  {
    hide Covers;
    var all, starts := filters + filter, offsets + [|filters|];
    assert all[|filters|..|all|] == filter;
    forall i | 0 <= i < |groups|
      ensures EndOf(starts, i, |all|) == EndOf(offsets, i, |filters|)
          && all[offsets[i]..EndOf(offsets, i, |filters|)] == filters[offsets[i]..EndOf(offsets, i, |filters|)]
    {
    }
  }

  /** The filters, the array of their offsets, where that begins, and the base. */
  ghost predicate IsFilterBlock(policy: FilterPolicy, groups: seq<seq<Bytes>>, offsets: seq<nat>, filters: Bytes,
      contents: Bytes)
  {
    && AreFilters(policy, groups, offsets, filters)
    && contents == filters + Fixed32s(offsets) + LittleEndian(|filters|, 4) + [BASE_LG]
  }

  // ---------- The builder ----------

  /** The policy is asked about user keys. */
  method CreateFilter(policy: FilterPolicy, keys: seq<Bytes>, dst: Bytes) returns (r: Bytes)
    requires policy.Valid() && keys != []
    ensures |r| >= |dst| && r[..|dst|] == dst && Covers(policy, keys, r[|dst|..])
  {
    hide *;
    var mkey := keys;
    for i := 0 to |keys|
      invariant |mkey| == |keys| && forall j | 0 <= j < |keys| :: mkey[j] == if j < i then UserOf(keys[j]) else keys[j]
    {
      mkey := mkey[i := UserOf(keys[i])];
    }
    AreUsers(keys, mkey);
    r := policy.CreateFilter(mkey, dst);
    CoversUsers(policy, keys, r[|dst|..]);
  }

  lemma {:induction false} AreUsers(keys: seq<Bytes>, users: seq<Bytes>)
    requires |users| == |keys| && forall j | 0 <= j < |keys| :: users[j] == UserOf(keys[j])
    ensures users == Users(keys)
  {
  }

  lemma {:induction false} CoversUsers(policy: FilterPolicy, keys: seq<Bytes>, filter: Bytes)
    requires keys != [] && policy.IsFilter(Users(keys), filter)
    ensures Covers(policy, keys, filter)
  {
  }

  class FilterBlockBuilder {
    const policy: FilterPolicy
    var keys: Bytes
    var start: seq<nat>
    var result: Bytes
    var filterOffsets: seq<nat>
    ghost var groups: seq<seq<Bytes>>
    ghost var pending: seq<Bytes>

    ghost predicate Valid()
      reads this
    {
      && policy.Valid() && keys == Flat(pending) && AreStarts(pending, start)
      && AreFilters(policy, groups, filterOffsets, result)
    }

    constructor (policy: FilterPolicy)
      requires policy.Valid()
      ensures Valid() && groups == [] && pending == [] && this.policy == policy
    {
      this.policy := policy;
      keys, start, result, filterOffsets, groups, pending := [], [], [], [], [], [];
    }

    /** Keys to come belong to the block that begins at this offset. */
    method StartBlock(blockOffset: nat)
      requires Valid() && blockOffset / BASE >= |groups|
      modifies this
      ensures Valid() && |groups| == blockOffset / BASE
      ensures |groups| == |old(groups)| ==> groups == old(groups) && pending == old(pending)
      ensures |groups| > |old(groups)| ==>
          pending == [] && old(groups) + [old(pending)] <= groups
          && forall i | |old(groups)| < i < |groups| :: groups[i] == []
    {
      hide AreFilters, AreStarts, Flat;
      var filterIndex := blockOffset / BASE;
      Sizes();
      while filterIndex > |filterOffsets|
        invariant Valid() && |groups| == |filterOffsets| <= filterIndex
        invariant |groups| == |old(groups)| ==> groups == old(groups) && pending == old(pending)
        invariant |groups| > |old(groups)| ==>
            pending == [] && old(groups) + [old(pending)] <= groups
            && forall i | |old(groups)| < i < |groups| :: groups[i] == []
        decreases filterIndex - |filterOffsets|
      {
        GenerateFilter();
        Sizes();
      }
    }

    method AddKey(key: Bytes)
      requires Valid()
      modifies this
      ensures Valid() && groups == old(groups) && pending == old(pending) + [key]
    {
      hide AreFilters, Flat;
      FlatAppended(pending, key);
      assert (pending + [key])[..|pending|] == pending;
      start := start + [|keys|];
      keys := keys + key;
      pending := pending + [key];
    }

    method Finish() returns (contents: Bytes)
      requires Valid()
      modifies this
      ensures groups == if old(pending) == [] then old(groups) else old(groups) + [old(pending)]
      ensures exists offsets, filters :: IsFilterBlock(policy, groups, offsets, filters, contents)
    {
      hide AreFilters, AreStarts, Flat, Fixed32s, LittleEndian;
      Sizes();
      if start != [] {
        GenerateFilter();
      }
      ghost var filters, offsets, all := result, filterOffsets, groups;
      var arrayOffset := |result|;
      Fixed32sOfMore(filterOffsets, 0);
      for i := 0 to |filterOffsets|
        invariant filterOffsets == offsets && groups == all && result == filters + Fixed32s(filterOffsets[..i])
      {
        Fixed32sOfMore(filterOffsets, i);
        result := result + LittleEndian(filterOffsets[i], 4);
      }
      assert filterOffsets[..|filterOffsets|] == filterOffsets;
      result := result + LittleEndian(arrayOffset, 4);
      result := result + [BASE_LG];
      contents := result;
      assert IsFilterBlock(policy, groups, filterOffsets, filters, contents);
    }

    lemma {:induction false} Sizes()
      requires Valid()
      ensures |start| == |pending| && |filterOffsets| == |groups|
    {
      hide Flat, Covers;
    }

    method GenerateFilter()
      requires Valid()
      modifies this
      ensures Valid() && groups == old(groups) + [old(pending)] && pending == []
    {
      hide AreFilters;
      Sizes();
      var numKeys := |start|;
      if numKeys == 0 {
        assert Covers(policy, [], []);
        OneMoreFilter(policy, groups, filterOffsets, result, [], []);
        assert result + [] == result;
        filterOffsets := filterOffsets + [|result|];
        groups := groups + [[]];
        return;
      }
      start := start + [|keys|];
      assert pending[..numKeys] == pending;
      var tmpKeys := [];
      for i := 0 to numKeys
        modifies {}
        invariant tmpKeys == pending[..i]
      {
        FlatAt(pending, i);
        tmpKeys := tmpKeys + [keys[start[i]..start[i + 1]]];
      }
      filterOffsets := filterOffsets + [|result|];
      var before := result;
      result := CreateFilter(policy, tmpKeys, result);
      assert filterOffsets == filterOffsets[..|groups|] + [|before|];
      OneMoreFilter(policy, groups, filterOffsets[..|groups|], before, pending, result[|before|..]);
      assert result == before + result[|before|..];
      keys, start, groups, pending := [], [], groups + [pending], [];
    }
  }
  // ---------- The reader ----------

  function ShiftedRight(n: nat, places: nat): nat
    decreases places
  {
    if places == 0 then n else ShiftedRight(n / 2, places - 1)
  }

  /** What the filter at an index says; offsets that make no sense are errors. */
  predicate FilterMatches(policy: FilterPolicy, contents: Bytes, lastWord: nat, index: nat, key: Bytes)
    requires lastWord + 4 * index + 9 <= |contents|
  {
    var begin := FromLittleEndian(contents[lastWord + index * 4..lastWord + index * 4 + 4]);
    var limit := FromLittleEndian(contents[lastWord + index * 4 + 4..lastWord + index * 4 + 8]);
    if begin <= limit <= lastWord then policy.MayMatch(UserOf(key), contents[begin..limit]) else begin != limit
  }

  /** May a key be in the data block that begins at this offset? Errors are potential matches. */
  predicate KeyMayMatch(policy: FilterPolicy, contents: Bytes, blockOffset: nat, key: Bytes) {
    var n := |contents|;
    if n < 5 then true
    else
      var lastWord := FromLittleEndian(contents[n - 5..n - 1]);
      if lastWord > n - 5 then true
      else
        var index := ShiftedRight(blockOffset, contents[n - 1]);
        if index < (n - 5 - lastWord) / 4 then FilterMatches(policy, contents, lastWord, index, key) else true
  }

  /** A filter in the block that a key does not match, or one that is empty. */
  ghost predicate Hides(policy: FilterPolicy, contents: Bytes, key: Bytes, begin: nat, limit: nat) {
    begin == limit || (begin <= limit <= |contents| && !policy.MayMatch(UserOf(key), contents[begin..limit]))
  }

  /** Errors are potential matches: only such a filter hides a key. */
  lemma {:induction false} OnlyFiltersHide(policy: FilterPolicy, contents: Bytes, blockOffset: nat, key: Bytes)
    requires !KeyMayMatch(policy, contents, blockOffset, key)
    ensures exists begin, limit :: Hides(policy, contents, key, begin, limit)
  {
    hide FromLittleEndian, ShiftedRight, UserOf, FilterPolicy.MayMatch;
    var n := |contents|;
    var lastWord := FromLittleEndian(contents[n - 5..n - 1]);
    var at := lastWord + ShiftedRight(blockOffset, contents[n - 1]) * 4;
    var begin, limit := FromLittleEndian(contents[at..at + 4]), FromLittleEndian(contents[at + 4..at + 8]);
    assert Hides(policy, contents, key, begin, limit);
  }

  lemma {:induction false} ShiftedByThree(n: nat, places: nat)
    ensures ShiftedRight(n, places + 3) == ShiftedRight(n / 8, places)
  {
    assert ShiftedRight(n, places + 3) == ShiftedRight(n / 2, places + 2) == ShiftedRight(n / 4, places + 1);
  }

  lemma {:induction false} ShiftedByBase(n: nat)
    ensures ShiftedRight(n, BASE_LG) == n / BASE
  {
    ShiftedByThree(n, 8);
    ShiftedByThree(n / 8, 5);
    ShiftedByThree(n / 64, 2);
  }

  /** What the reader finds in a block that the builder made: the word after an offset is the next
      offset, or where the array begins. */
  lemma {:induction false} FilterLayout(policy: FilterPolicy, groups: seq<seq<Bytes>>, offsets: seq<nat>,
      filters: Bytes, contents: Bytes)
    requires IsFilterBlock(policy, groups, offsets, filters, contents) && |contents| < TWO_32
    ensures var n := |contents|;
            && n == |filters| + 4 * |groups| + 5 && contents[n - 1] == BASE_LG
                && FromLittleEndian(contents[n - 5..n - 1]) == |filters|
            && |offsets| == |groups| && contents[..|filters|] == filters
            && forall i | 0 <= i < |groups| ::
                 && FromLittleEndian(contents[|filters| + i * 4..|filters| + i * 4 + 4]) == offsets[i]
                 && FromLittleEndian(contents[|filters| + i * 4 + 4..|filters| + i * 4 + 8])
                     == EndOf(offsets, i, |filters|)
  {
    hide LittleEndian, FromLittleEndian, Fixed32s, Covers;
    var n, points := |contents|, Fixed32s(offsets);
    Fixed32sLength(offsets);
    FixedCapacities();
    LittleEndianRoundTrip(|filters|, 4);
    assert contents[n - 5..n - 1] == LittleEndian(|filters|, 4);
    assert contents[..|filters|] == filters;
    forall i | 0 <= i < |groups|
      ensures FromLittleEndian(contents[|filters| + i * 4..|filters| + i * 4 + 4]) == offsets[i] <= |filters|
    {
      Fixed32sAt(offsets, i);
      LittleEndianRoundTrip(offsets[i], 4);
      assert contents[|filters| + i * 4..|filters| + i * 4 + 4] == points[4 * i..4 * i + 4];
    }
    forall i | 0 <= i < |groups|
      ensures FromLittleEndian(contents[|filters| + i * 4 + 4..|filters| + i * 4 + 8]) == EndOf(offsets, i, |filters|)
    {
      var j := i + 1;
      assert |filters| + j * 4 == |filters| + i * 4 + 4;
    }
  }

  ghost predicate FilterLetsThrough(policy: FilterPolicy, offsets: seq<nat>, filters: Bytes, i: nat, key: Bytes)
    requires i < |offsets| && offsets[i] <= EndOf(offsets, i, |filters|) <= |filters|
  {
    policy.MayMatch(UserOf(key), filters[offsets[i]..EndOf(offsets, i, |filters|)])
  }

  lemma {:induction false} ReaderAsksFilter(policy: FilterPolicy, groups: seq<seq<Bytes>>, offsets: seq<nat>,
      filters: Bytes, contents: Bytes, blockOffset: nat, key: Bytes)
    requires IsFilterBlock(policy, groups, offsets, filters, contents) && |contents| < TWO_32
    ensures var i := blockOffset / BASE;
            if i < |groups| then
              && i < |offsets| && offsets[i] <= EndOf(offsets, i, |filters|) <= |filters|
              && (KeyMayMatch(policy, contents, blockOffset, key)
                  <==> FilterLetsThrough(policy, offsets, filters, i, key))
            else KeyMayMatch(policy, contents, blockOffset, key)
  {
    hide LittleEndian, FromLittleEndian, Fixed32s, ShiftedRight, FilterPolicy.MayMatch, FilterPolicy.IsFilter, Covers,
        UserOf;
    FilterLayout(policy, groups, offsets, filters, contents);
    ShiftedByBase(blockOffset);
    var i, n := blockOffset / BASE, |contents|;
    assert (n - 5 - |filters|) / 4 == |groups|;
    if i < |groups| {
      var begin, limit := offsets[i], EndOf(offsets, i, |filters|);
      assert contents[begin..limit] == contents[..|filters|][begin..limit];
    }
  }

  /** A filter block never hides a key of the group that the offset belongs to. It lets nothing
      through for a group without keys, and everything for offsets beyond the last group. */
  lemma {:induction false} BuiltFilterMatches(policy: FilterPolicy, groups: seq<seq<Bytes>>, offsets: seq<nat>,
      filters: Bytes, contents: Bytes, blockOffset: nat, key: Bytes)
    requires policy.Valid() && IsFilterBlock(policy, groups, offsets, filters, contents) && |contents| < TWO_32
    ensures var i := blockOffset / BASE;
            if i < |groups| then
              && (key in groups[i] ==> KeyMayMatch(policy, contents, blockOffset, key))
              && (groups[i] == [] ==> !KeyMayMatch(policy, contents, blockOffset, key))
            else KeyMayMatch(policy, contents, blockOffset, key)
  {
    hide LittleEndian, FromLittleEndian, Fixed32s, KeyMayMatch, FilterPolicy.MayMatch, FilterPolicy.IsFilter, UserOf;
    ReaderAsksFilter(policy, groups, offsets, filters, contents, blockOffset, key);
    var i := blockOffset / BASE;
    if i < |groups| {
      var filter := filters[offsets[i]..EndOf(offsets, i, |filters|)];
      assert Covers(policy, groups[i], filter);
      if key in groups[i] {
        var j :| 0 <= j < |groups[i]| && groups[i][j] == key;
        policy.NoFalseNegatives(Users(groups[i]), filter, j);
      } else if groups[i] == [] {
        NothingMatchesEmpty(policy, UserOf(key));
      }
    }
  }

  lemma {:induction false} NothingMatchesEmpty(policy: FilterPolicy, key: Bytes)
    ensures !policy.MayMatch(key, [])
  {
  }
}
