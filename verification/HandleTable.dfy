/** The hash table of a cache: an array of chains, linked through the entries themselves. */
module HandleTables {
  import opened Format

  /** An entry of the cache. */
  class LRUHandle {
    const key: Bytes
    const hash: nat
    const charge: nat
    var nextHash: LRUHandle?
    var next: LRUHandle?
    var prev: LRUHandle?
    var inCache: bool
    var refs: nat

    constructor (key: Bytes, hash: nat, charge: nat)
      ensures this.key == key && this.hash == hash && this.charge == charge
    {
      this.key, this.hash, this.charge := key, hash, charge;
    }

    /** The dummy head of an empty circular list. */
    constructor Head ()
      ensures next == this && prev == this
    {
      key, hash, charge := [], 0, 0;
      new;
      next, prev := this, this;
    }

    predicate Is(key: Bytes, hash: nat) {
      this.hash == hash && this.key == key
    }
  }

  // ---------- Chains ----------

  ghost function ItemAt(s: seq<LRUHandle>, j: nat): LRUHandle? {
    if j < |s| then s[j] else null
  }

  /** The entries from `first` on, each linked to the next. */
  ghost predicate Chain(first: LRUHandle?, s: seq<LRUHandle>)
    reads SetOf(s)`nextHash
  {
    first == ItemAt(s, 0) && forall j | 0 <= j < |s| :: s[j].nextHash == ItemAt(s, j + 1)
  }

  /** No two entries of a chain have the same key and hash. */
  ghost predicate NoRepeats(s: seq<LRUHandle>) {
    forall j, k | 0 <= j < k < |s| :: !s[k].Is(s[j].key, s[j].hash)
  }

  ghost predicate InBucket(s: seq<LRUHandle>, i: nat, length: nat)
    requires length > 0
  {
    forall j | 0 <= j < |s| :: s[j].hash % length == i
  }

  function Total<T>(chains: seq<seq<T>>): nat {
    if chains == [] then 0 else Total(chains[..|chains| - 1]) + |chains[|chains| - 1]|
  }

  predicate IsPowerOfTwo(n: nat) {
    n == 1 || (n > 0 && n % 2 == 0 && IsPowerOfTwo(n / 2))
  }

  ghost function AllOf(chains: seq<seq<LRUHandle>>): set<LRUHandle> {
    set i, j | 0 <= i < |chains| && 0 <= j < |chains[i]| :: chains[i][j]
  }

  lemma {:induction false} InAll(chains: seq<seq<LRUHandle>>, i: nat, j: nat)
    requires i < |chains| && j < |chains[i]|
    ensures chains[i][j] in AllOf(chains)
  {
  }

  lemma {:induction false} WhereInAll(chains: seq<seq<LRUHandle>>, h: LRUHandle) returns (i: nat, j: nat)
    requires h in AllOf(chains)
    ensures i < |chains| && j < |chains[i]| && chains[i][j] == h
  {
    i, j :| 0 <= i < |chains| && 0 <= j < |chains[i]| && chains[i][j] == h;
  }

  ghost predicate Buckets(chains: seq<seq<LRUHandle>>) {
    forall i | 0 <= i < |chains| :: NoRepeats(chains[i]) && InBucket(chains[i], i, |chains|)
  }

  /** Entries in different places are different, even in key or hash. */
  lemma {:induction false} OneOfAKind(chains: seq<seq<LRUHandle>>, i: nat, j: nat, k: nat, l: nat)
    requires Buckets(chains) && i < |chains| && j < |chains[i]| && k < |chains| && l < |chains[k]| && (i != k || j != l)
    ensures !chains[i][j].Is(chains[k][l].key, chains[k][l].hash)
  {
    if i == k && j < l {
      assert !chains[i][l].Is(chains[i][j].key, chains[i][j].hash);
    }
  }

  /** Among all entries, one is only in its place. */
  lemma {:induction false} OnlyThere(chains: seq<seq<LRUHandle>>, i: nat, j: nat)
    requires Buckets(chains) && i < |chains| && j < |chains[i]|
    ensures chains[i][j] in AllOf(chains)
    ensures forall k, l | 0 <= k < |chains| && 0 <= l < |chains[k]| && (k != i || l != j) ::
        chains[k][l] != chains[i][j]
  {
    forall k, l | 0 <= k < |chains| && 0 <= l < |chains[k]| && (k != i || l != j) ensures chains[k][l] != chains[i][j] {
      OneOfAKind(chains, k, l, i, j);
    }
  }

  lemma {:induction false} NotThere(chains: seq<seq<LRUHandle>>, h: LRUHandle)
    requires h !in AllOf(chains)
    ensures forall k, l | 0 <= k < |chains| && 0 <= l < |chains[k]| :: chains[k][l] != h
  {
  }

  lemma {:induction false} OthersDiffer(chains: seq<seq<LRUHandle>>, i: nat, j: nat)
    requires Buckets(chains) && i < |chains| && j <= |chains[i]|
    ensures j < |chains[i]| ==>
        forall k | 0 <= k < |chains[i]| :: k != j ==> !chains[i][k].Is(chains[i][j].key, chains[i][j].hash)
  {
    if j < |chains[i]| {
      forall k | 0 <= k < |chains[i]| && k != j ensures !chains[i][k].Is(chains[i][j].key, chains[i][j].hash) {
        OneOfAKind(chains, i, k, i, j);
      }
    }
  }

  function Without(s: seq<LRUHandle>, j: nat): seq<LRUHandle>
    requires j < |s|
  {
    s[..j] + s[j + 1..]
  }

  lemma {:induction false} ItemsAre(s: seq<LRUHandle>)
    ensures forall l | 0 <= l < |s| :: ItemAt(s, l) == s[l]
    ensures ItemAt(s, |s|) == null
  {
  }

  lemma {:induction false} ItemsWithout(s: seq<LRUHandle>, j: nat)
    requires j < |s|
    ensures var t := Without(s, j);
      && |t| == |s| - 1 && (forall l | 0 <= l < |t| :: t[l] == if l < j then s[l] else s[l + 1])
      && forall l: nat | l <= |t| :: ItemAt(t, l) == ItemAt(s, if l < j then l else l + 1)
  {
  }

  lemma {:induction false} RemovedKeepsBuckets(chains: seq<seq<LRUHandle>>, i: nat, j: nat)
    requires Buckets(chains) && i < |chains| && j < |chains[i]|
    ensures Buckets(chains[i := Without(chains[i], j)])
  {
    var s, t := chains[i], Without(chains[i], j);
    forall k, l | 0 <= k < l < |t| ensures !t[l].Is(t[k].key, t[k].hash) {
      assert t[k] == (if k < j then s[k] else s[k + 1]) && t[l] == (if l < j then s[l] else s[l + 1]);
    }
  }

  lemma {:induction false} AllAfterRemoving(chains: seq<seq<LRUHandle>>, i: nat, j: nat)
    requires Buckets(chains) && i < |chains| && j < |chains[i]|
    ensures AllOf(chains[i := Without(chains[i], j)]) == AllOf(chains) - {chains[i][j]}
  {
    var s, after := chains[i], chains[i := Without(chains[i], j)];
    OnlyThere(chains, i, j);
    forall k, l | 0 <= k < |after| && 0 <= l < |after[k]| ensures after[k][l] in AllOf(chains) && after[k][l] != s[j] {
      var m := if k == i && l >= j then l + 1 else l;
      assert after[k][l] == chains[k][m];
      InAll(chains, k, m);
    }
    forall k, l | 0 <= k < |chains| && 0 <= l < |chains[k]| && (k != i || l != j) ensures chains[k][l] in AllOf(after) {
      var m := if k == i && l > j then l - 1 else l;
      assert after[k][m] == chains[k][l];
      InAll(after, k, m);
    }
  }

  /** The chain of an entry, its place there, and what put in that place makes of the chain. */
  function Replaced(s: seq<LRUHandle>, j: nat, h: LRUHandle): seq<LRUHandle>
    requires j <= |s|
  {
    if j < |s| then s[j := h] else s + [h]
  }

  lemma {:induction false} ReplacedKeepsBuckets(chains: seq<seq<LRUHandle>>, i: nat, j: nat, h: LRUHandle)
    requires Buckets(chains) && i < |chains| && j <= |chains[i]| && h.hash % |chains| == i
    requires forall k | 0 <= k < |chains[i]| :: k != j ==> !chains[i][k].Is(h.key, h.hash)
    ensures Buckets(chains[i := Replaced(chains[i], j, h)])
  {
    var s := Replaced(chains[i], j, h);
    forall k, l | 0 <= k < l < |s| ensures !s[l].Is(s[k].key, s[k].hash) {
      assert k != j ==> s[k] == chains[i][k];
      assert l != j ==> s[l] == chains[i][l];
    }
  }

  lemma {:induction false} AllAfterReplacing(chains: seq<seq<LRUHandle>>, i: nat, j: nat, h: LRUHandle)
    requires Buckets(chains) && i < |chains| && j <= |chains[i]| && h !in AllOf(chains)
    ensures AllOf(chains[i := Replaced(chains[i], j, h)]) == AllOf(chains) - (if j < |chains[i]| then {chains[i][j]}
        else {}) + {h}
  {
    var s := Replaced(chains[i], j, h);
    var after := chains[i := s];
    assert after[i][j] == h;
    forall k, l | 0 <= k < |after| && 0 <= l < |after[k]| && (k != i || l != j)
      ensures after[k][l] in AllOf(chains) && (j < |chains[i]| ==> after[k][l] != chains[i][j])
    {
      assert after[k][l] == chains[k][l];
      InAll(chains, k, l);
      if j < |chains[i]| {
        OneOfAKind(chains, k, l, i, j);
      }
    }
    forall k, l | 0 <= k < |chains| && 0 <= l < |chains[k]| && (k != i || l != j)
      ensures chains[k][l] in AllOf(after)
    {
      assert after[k][l] == chains[k][l];
      InAll(after, k, l);
    }
    InAll(after, i, j);
  }

  lemma {:induction false} TotalUpdated<T>(chains: seq<seq<T>>, i: nat, s: seq<T>)
    requires i < |chains|
    ensures Total(chains[i := s]) + |chains[i]| == Total(chains) + |s|
    decreases |chains|
  {
    var n := |chains| - 1;
    if i < n {
      TotalUpdated(chains[..n], i, s);
      assert chains[i := s][..n] == chains[..n][i := s];
    } else {
      assert chains[i := s][..n] == chains[..n];
    }
  }

  class HandleTable {
    var length: nat      // a power of two
    var elems: nat
    var list: array<LRUHandle?>
    ghost var chains: seq<seq<LRUHandle>>

    ghost function Members(): set<LRUHandle>
      reads this
    {
      AllOf(chains)
    }

    ghost predicate Linked()
      reads this, list, Members()`nextHash
    {
      && list.Length == length == |chains| && elems == Total(chains) && Buckets(chains)
      && forall i | 0 <= i < length :: Chain(list[i], chains[i])
    }

    ghost predicate Valid()
      reads this, list, Members()`nextHash
    {
      Linked() && length >= 4 && IsPowerOfTwo(length) && elems <= length
    }

    constructor ()
      ensures Valid() && Members() == {} && fresh(list)
    {
      length, elems, chains := 0, 0, [];
      list := new LRUHandle?[0];
      new;
      Resize();
    }

    /** There is at most one entry for a key and hash. */
    lemma {:induction false} AtMostOne(a: LRUHandle, b: LRUHandle)
      requires Valid() && a in Members() && b in Members() && a.Is(b.key, b.hash)
      ensures a == b
    {
      hide Total, IsPowerOfTwo, Buckets, Chain;
      var i, j := WhereInAll(chains, a);
      var k, l := WhereInAll(chains, b);
      if i != k || j != l {
        OneOfAKind(chains, i, j, k, l);
      }
    }

    /** The slot that holds the entry sought, or the empty slot at the end of its chain: the head of
        the chain, or the link of the entry before. */
    method FindPointer(key: Bytes, hash: nat) returns (before: LRUHandle?, found: LRUHandle?, ghost j: nat)
      requires Valid()
      ensures var s := chains[hash % length];
              && j <= |s| && found == ItemAt(s, j) && before == (if j == 0 then null else s[j - 1])
              && (forall k | 0 <= k < j :: !s[k].Is(key, hash)) && (j < |s| ==> s[j].Is(key, hash))
    {

      hide Total, IsPowerOfTwo, Buckets;
      var i := hash % length;
      ghost var s := chains[i];
      assert Chain(list[i], s);
      before, found, j := null, list[i], 0;
      while found != null && !found.Is(key, hash)
        invariant j <= |s| && found == ItemAt(s, j) && before == (if j == 0 then null else s[j - 1])
        invariant forall k | 0 <= k < j :: !s[k].Is(key, hash)
        decreases |s| - j
      {
        before, found, j := found, found.nextHash, j + 1;
      }
    }

    method Lookup(key: Bytes, hash: nat) returns (r: LRUHandle?)
      requires Valid()
      ensures r != null ==> r in Members() && r.Is(key, hash)
      ensures r == null ==> forall h | h in Members() :: !h.Is(key, hash)
    {
      hide Total, IsPowerOfTwo;
      var before, found, j := FindPointer(key, hash);
      if found == null {
        NoneElsewhere(chains, key, hash);
      }
      r := found;
    }

    /** Put an entry in a place of its chain. */
    method Place(h: LRUHandle, before: LRUHandle?, found: LRUHandle?, ghost j: nat)
      requires Linked() && length > 0 && h !in Members()
      requires var s := chains[h.hash % length];
               && j <= |s| && found == ItemAt(s, j) && before == (if j == 0 then null else s[j - 1])
               && forall k | 0 <= k < |s| :: k != j ==> !s[k].Is(h.key, h.hash)
      modifies list, h`nextHash, Members()`nextHash, this`chains
      ensures list.Length == length == |chains| && Buckets(chains)
          && forall i | 0 <= i < length :: Chain(list[i], chains[i])
      ensures chains == old(chains[h.hash % length := Replaced(chains[h.hash % length], j, h)])
    {
      hide Total, IsPowerOfTwo, AllOf, Buckets;
      var i := h.hash % length;
      ghost var s, t := chains[i], Replaced(chains[i], j, h);
      ghost var was := chains;
      ReplacedKeepsBuckets(was, i, j, h);
      NotThere(was, h);
      if j > 0 {
        OnlyThere(was, i, j - 1);
      }
      assert Chain(list[i], s);
      h.nextHash := if found == null then null else found.nextHash;
      if before == null {
        list[i] := h;
      } else {
        before.nextHash := h;
      }
      chains := was[i := t];
      forall k | 0 <= k < length ensures Chain(list[k], chains[k]) {
        assert old(Chain(list[k], was[k]));
        if k == i {
          forall l | 0 <= l < |t| ensures t[l].nextHash == ItemAt(t, l + 1) {
            assert l < |s| && l != j && l + 1 != j ==> t[l] == s[l];
          }
        }
      }
    }

    /** Put an entry in, in place of the one with the same key and hash, if there is one. */
    method Insert(h: LRUHandle) returns (r: LRUHandle?)
      requires Valid() && h !in Members()
      modifies this, list, h`nextHash, Members()`nextHash
      ensures Valid() && (list == old(list) || fresh(list))
      ensures r != null ==> r in old(Members()) && r.Is(h.key, h.hash)
      ensures r == null ==> forall x | x in old(Members()) :: !x.Is(h.key, h.hash)
      ensures Members() == old(Members()) - (if r == null then {} else {r}) + {h}
      ensures if elems > old(length) then length < 2 * elems else length == old(length)
    {
      hide Total, IsPowerOfTwo, Buckets, AllOf;
      var before, found, j := FindPointer(h.key, h.hash);
      ghost var was, i := chains, h.hash % length;
      if found == null {
        NoneElsewhere(was, h.key, h.hash);
      } else {
        InAll(was, i, j);
      }
      OthersDiffer(was, i, j);
      AllAfterReplacing(was, i, j, h);
      TotalUpdated(was, i, Replaced(was[i], j, h));
      Place(h, before, found, j);
      r := found;
      if r == null {
        elems := elems + 1;
        if elems > length {
          Resize();
        }
      }
    }

    method Remove(key: Bytes, hash: nat) returns (r: LRUHandle?)
      requires Valid()
      modifies this`elems, this`chains, list, Members()`nextHash
      ensures Valid()
      ensures r != null ==> r in old(Members()) && r.Is(key, hash)
      ensures r == null ==> forall x | x in old(Members()) :: !x.Is(key, hash)
      ensures Members() == old(Members()) - (if r == null then {} else {r})
    {
      hide Total, IsPowerOfTwo, Buckets, AllOf;
      var before, found, j := FindPointer(key, hash);
      ghost var was := chains;
      var i := hash % length;
      r := found;
      if r == null {
        NoneElsewhere(was, key, hash);
        return;
      }
      InAll(was, i, j);
      RemovedKeepsBuckets(was, i, j);
      AllAfterRemoving(was, i, j);
      TotalUpdated(was, i, Without(was[i], j));
      Unlink(before, r, i, j);
      elems := elems - 1;
    }

    /** Take an entry out of its place in its chain. */
    method Unlink(before: LRUHandle?, found: LRUHandle, i: nat, ghost j: nat)
      requires Linked() && i < length && j < |chains[i]| && found == chains[i][j]
          && before == (if j == 0 then null else chains[i][j - 1])
      modifies list, Members()`nextHash, this`chains
      ensures list.Length == length == |chains| && forall k | 0 <= k < length :: Chain(list[k], chains[k])
      ensures chains == old(chains[i := Without(chains[i], j)])
    {
      hide Total, IsPowerOfTwo, AllOf, Buckets, Without, ItemAt;
      ghost var was, s, t := chains, chains[i], Without(chains[i], j);
      ItemsWithout(s, j);
      ItemsAre(s);
      ItemsAre(t);
      if j > 0 {
        OnlyThere(was, i, j - 1);
      }
      assert Chain(list[i], s);
      if before == null {
        list[i] := found.nextHash;
      } else {
        before.nextHash := found.nextHash;
      }
      chains := was[i := t];
      forall k | 0 <= k < length ensures Chain(list[k], chains[k]) {
        assert old(Chain(list[k], was[k]));
        if k == i {
          forall l | 0 <= l < |t| ensures t[l].nextHash == ItemAt(t, l + 1) {
            assert t[l] == (if l < j then s[l] else s[l + 1])
                && ItemAt(t, l + 1) == ItemAt(s, if l + 1 < j then l + 1 else l + 2);
          }
        }
      }
    }

    /** Move all entries to a new array, long enough for short chains. */
    method Resize()
      requires Linked()
      modifies this, Members()`nextHash
      ensures Valid() && fresh(list) && Members() == old(Members()) && elems == old(elems)
      ensures length == 4 || length < 2 * elems
    {
      hide Total, Buckets, AllOf, Chain;
      var newLength := 4;
      while newLength < elems
        invariant newLength >= 4 && IsPowerOfTwo(newLength) && (newLength == 4 || newLength < 2 * elems)
      {
        newLength := newLength * 2;
      }
      var newList := new LRUHandle?[newLength](_ => null);
      ghost var moved: seq<seq<LRUHandle>> := seq(newLength, _ => []);
      ghost var was := chains;
      NothingMoved(moved, was);
      forall b | 0 <= b < newLength ensures Chain(newList[b], moved[b]) {
        EmptyChain();
      }
      for i := 0 to length
        modifies newList, Members()`nextHash
        invariant |moved| == newLength && Buckets(moved) && AllOf(moved) == UpTo(was, i, 0)
            && Total(moved) == Total(was[..i])
        invariant forall b | 0 <= b < newLength :: Chain(newList[b], moved[b])
        invariant forall k | i <= k < length :: Chain(list[k], was[k])
      {
        OneMoreTotal(was, i);
        moved := MoveChain(list[i], newList, i, moved);
      }
      AllMoved(was);
      list := newList;
      length := newLength;
      chains := moved;
    }

    /** Move one chain, entry by entry. */
    method MoveChain(first: LRUHandle?, newList: array<LRUHandle?>, i: nat, ghost moved: seq<seq<LRUHandle>>)
        returns (ghost after: seq<seq<LRUHandle>>)
      requires length == |chains| == list.Length && i < length && list != newList && newList.Length == |moved| > 0
          && Buckets(chains)
      requires Buckets(moved) && AllOf(moved) == UpTo(chains, i, 0)
          && forall b | 0 <= b < |moved| :: Chain(newList[b], moved[b])
      requires first == list[i] && forall k | i <= k < length :: Chain(list[k], chains[k])
      modifies newList, Members()`nextHash
      ensures |after| == |moved| && Buckets(after) && AllOf(after) == UpTo(chains, i + 1, 0)
          && Total(after) == Total(moved) + |chains[i]|
      ensures forall b | 0 <= b < |after| :: Chain(newList[b], after[b])
      ensures forall k | i < k < length :: Chain(list[k], chains[k])
    {
      hide Total, Buckets, AllOf, Chain;
      ghost var s, j := chains[i], 0;
      var h := first;
      after := moved;
      assert s[0..] == s;
      while h != null
        invariant j <= |s| && Chain(h, s[j..]) && |after| == |moved| && Buckets(after)
            && AllOf(after) == UpTo(chains, i, j) && Total(after) == Total(moved) + j
        invariant forall b | 0 <= b < |after| :: Chain(newList[b], after[b])
        invariant forall k | i < k < length :: Chain(list[k], chains[k])
        decreases |s| - j
      {
        ChainHead(h, s, j);
        var next := h.nextHash;
        NewToMoved(chains, i, j);
        OnlyThere(chains, i, j);
        assert h !in SetOf(s[j + 1..]) && forall k | i < k < length :: h !in SetOf(chains[k]);
        after := Prepend(newList, h, after);
        h, j := next, j + 1;
      }
      ChainEnds(s, j);
      UpToEnd(chains, i);
    }

    static method Prepend(newList: array<LRUHandle?>, h: LRUHandle, ghost moved: seq<seq<LRUHandle>>)
        returns (ghost after: seq<seq<LRUHandle>>)
      requires newList.Length == |moved| > 0 && Buckets(moved)
          && forall b | 0 <= b < |moved| :: Chain(newList[b], moved[b])
      requires h !in AllOf(moved) && forall x | x in AllOf(moved) :: !x.Is(h.key, h.hash)
      modifies newList, h`nextHash
      ensures |after| == |moved| && Buckets(after) && AllOf(after) == AllOf(moved) + {h}
          && Total(after) == Total(moved) + 1
      ensures forall b | 0 <= b < |after| :: Chain(newList[b], after[b])
    {
      hide Total, Buckets, AllOf;
      var b := h.hash % newList.Length;
      NotThere(moved, h);
      h.nextHash := newList[b];
      newList[b] := h;
      after := moved[b := [h] + moved[b]];
      Prepended(moved, b, h);
    }
  }

  lemma {:induction false} Prepended(moved: seq<seq<LRUHandle>>, b: nat, h: LRUHandle)
    requires Buckets(moved) && b < |moved| && h.hash % |moved| == b
        && forall x | x in AllOf(moved) :: !x.Is(h.key, h.hash)
    ensures var after := moved[b := [h] + moved[b]];
        Buckets(after) && AllOf(after) == AllOf(moved) + {h} && Total(after) == Total(moved) + 1
  {
    hide Total;
    var s := [h] + moved[b];
    var after := moved[b := s];
    TotalUpdated(moved, b, s);
    forall k, l | 0 <= k < l < |s| ensures !s[l].Is(s[k].key, s[k].hash) {
      InAll(moved, b, l - 1);
    }
    assert after[b][0] == h;
    forall k, l | 0 <= k < |after| && 0 <= l < |after[k]| ensures after[k][l] in AllOf(moved) + {h} {
      if k == b && l > 0 {
        InAll(moved, b, l - 1);
      }
    }
    forall k, l | 0 <= k < |moved| && 0 <= l < |moved[k]| ensures moved[k][l] in AllOf(after) {
      assert moved[k][l] == if k == b then after[k][l + 1] else after[k][l];
      InAll(after, k, if k == b then l + 1 else l);
    }
    InAll(after, b, 0);
  }

  /** The entries before a place. */
  ghost function UpTo(chains: seq<seq<LRUHandle>>, i: nat, j: nat): set<LRUHandle> {
    set k, l | 0 <= k < |chains| && 0 <= l < |chains[k]| && (k < i || (k == i && l < j)) :: chains[k][l]
  }

  lemma {:induction false} NothingMoved(moved: seq<seq<LRUHandle>>, chains: seq<seq<LRUHandle>>)
    requires |moved| > 0 && forall b | 0 <= b < |moved| :: moved[b] == []
    ensures Buckets(moved) && AllOf(moved) == UpTo(chains, 0, 0) && Total(moved) == Total(chains[..0])
  {
    NoneInAll(moved);
  }

  lemma {:induction false} NoneInAll<T>(moved: seq<seq<T>>)
    requires forall b | 0 <= b < |moved| :: moved[b] == []
    ensures Total(moved) == 0
  {
    if moved != [] {
      NoneInAll(moved[..|moved| - 1]);
    }
  }

  lemma {:induction false} OneMoreTotal<T>(chains: seq<seq<T>>, i: nat)
    requires i < |chains|
    ensures Total(chains[..i + 1]) == Total(chains[..i]) + |chains[i]|
  {
    assert chains[..i + 1][..i] == chains[..i];
  }

  lemma {:induction false} AllMoved(chains: seq<seq<LRUHandle>>)
    ensures UpTo(chains, |chains|, 0) == AllOf(chains) && chains[..|chains|] == chains
  {
  }

  lemma {:induction false} UpToEnd(chains: seq<seq<LRUHandle>>, i: nat)
    requires i < |chains|
    ensures UpTo(chains, i, |chains[i]|) == UpTo(chains, i + 1, 0)
  {
  }

  /** The entry at a place is not like any entry before it. */
  lemma {:induction false} NewToMoved(chains: seq<seq<LRUHandle>>, i: nat, j: nat)
    requires Buckets(chains) && i < |chains| && j < |chains[i]|
    ensures chains[i][j] !in UpTo(chains, i, j)
        && forall x | x in UpTo(chains, i, j) :: !x.Is(chains[i][j].key, chains[i][j].hash)
    ensures UpTo(chains, i, j + 1) == UpTo(chains, i, j) + {chains[i][j]}
  {
    hide Buckets;
    forall k, l | 0 <= k < |chains| && 0 <= l < |chains[k]| && (k < i || (k == i && l < j))
      ensures !chains[k][l].Is(chains[i][j].key, chains[i][j].hash)
    {
      OneOfAKind(chains, k, l, i, j);
    }
    forall k, l | 0 <= k < |chains| && 0 <= l < |chains[k]| && (k < i || (k == i && l < j + 1))
      ensures chains[k][l] in UpTo(chains, i, j) + {chains[i][j]}
    {
    }
    assert chains[i][j] in UpTo(chains, i, j + 1);
  }

  lemma {:induction false} ChainHead(h: LRUHandle, s: seq<LRUHandle>, j: nat)
    requires j <= |s| && Chain(h, s[j..])
    ensures j < |s| && h == s[j] && Chain(h.nextHash, s[j + 1..])
  {
    var rest, more := s[j..], s[j + 1..];
    assert rest[0] == s[j] && ItemAt(rest, 1) == ItemAt(more, 0);
    forall k | 0 <= k < |more| ensures more[k].nextHash == ItemAt(more, k + 1) {
      assert more[k] == rest[k + 1];
      assert ItemAt(more, k + 1) == ItemAt(rest, k + 2);
    }
  }

  lemma {:induction false} ChainEnds(s: seq<LRUHandle>, j: nat)
    requires j <= |s| && Chain(null, s[j..])
    ensures j == |s|
  {
  }

  lemma {:induction false} EmptyChain()
    ensures Chain(null, [])
  {
  }

  /** Nothing that a table depends on has changed. */
  twostate predicate Kept(table: HandleTable)
    reads table, table.list, table.Members()`nextHash
  {
    && table.list == old(table.list) && table.chains == old(table.chains) && table.length == old(table.length)
        && table.elems == old(table.elems)
    && (forall i | 0 <= i < table.list.Length :: table.list[i] == old(table.list[i]))
    && (forall h | h in table.Members() :: h.nextHash == old(h.nextHash))
  }

  twostate lemma {:induction false} StaysValid(table: HandleTable)
    requires old(table.Valid()) && Kept(table)
    ensures table.Valid() && table.Members() == old(table.Members())
  {
    hide Total, IsPowerOfTwo, Buckets;
    forall i | 0 <= i < table.length ensures Chain(table.list[i], table.chains[i]) {
      assert old(Chain(table.list[i], table.chains[i]));
      forall j | 0 <= j < |table.chains[i]| ensures table.chains[i][j].nextHash == old(table.chains[i][j].nextHash) {
        InAll(table.chains, i, j);
      }
    }
  }

  /** An entry is nowhere but in its bucket. */
  lemma {:induction false} NoneElsewhere(chains: seq<seq<LRUHandle>>, key: Bytes, hash: nat)
    requires Buckets(chains) && |chains| > 0
    requires forall k | 0 <= k < |chains[hash % |chains|]| :: !chains[hash % |chains|][k].Is(key, hash)
    ensures forall h | h in AllOf(chains) :: !h.Is(key, hash)
  {
  }
}
