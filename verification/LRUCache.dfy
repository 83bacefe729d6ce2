/** One shard of the cache: entries counted, hashed, and listed from the least recently used on. */
module LRUCaches {
  import opened Format
  import opened HandleTables

  // ---------- Circular lists ----------

  /** Around the circle, from the dummy head back to it. */
  ghost function Node(head: LRUHandle, s: seq<LRUHandle>, k: nat): LRUHandle {
    if 0 < k <= |s| then s[k - 1] else head
  }

  ghost predicate Ring(head: LRUHandle, s: seq<LRUHandle>)
    reads {head}`next, {head}`prev, SetOf(s)`next, SetOf(s)`prev
  {
    forall k | 0 <= k <= |s| :: Linked(Node(head, s, k), Node(head, s, k + 1))
  }

  ghost predicate Linked(a: LRUHandle, b: LRUHandle)
    reads {a}`next, {b}`prev
  {
    a.next == b && b.prev == a
  }

  lemma {:induction false} EmptyRing(head: LRUHandle)
    requires head.next == head && head.prev == head
    ensures Ring(head, [])
  {
  }

  ghost predicate NoDuplicates(s: seq<LRUHandle>) {
    forall j, k | 0 <= j < k < |s| :: s[j] != s[k]
  }

  ghost predicate Apart(head: LRUHandle, s: seq<LRUHandle>) {
    head !in s && NoDuplicates(s)
  }

  method LruRemove(e: LRUHandle, ghost head: LRUHandle, ghost s: seq<LRUHandle>, ghost k: nat)
    requires Ring(head, s) && Apart(head, s) && k < |s| && s[k] == e
    modifies {head}`next, {head}`prev, SetOf(s)`next, SetOf(s)`prev
    ensures Ring(head, Without(s, k))
  {
    ghost var t := Without(s, k);
    assert Linked(Node(head, s, k), Node(head, s, k + 1)) && Linked(Node(head, s, k + 1), Node(head, s, k + 2));
    e.next.prev := e.prev;
    e.prev.next := e.next;
    forall m | 0 <= m <= |t| ensures Linked(Node(head, t, m), Node(head, t, m + 1)) {
      var j := if m <= k then m else m + 1;
      assert old(Linked(Node(head, s, j), Node(head, s, j + 1)));
      assert Node(head, t, m) == Node(head, s, j);
      assert Node(head, t, m + 1) == Node(head, s, if m < k then m + 1 else m + 2);
    }
  }

  lemma {:induction false} NodesDiffer(list: LRUHandle, s: seq<LRUHandle>, e: LRUHandle, m: nat)
    requires Apart(list, s + [e]) && m < |s|
    ensures Node(list, s, m) != Node(list, s, |s|) && Node(list, s, m) != e && Node(list, s, m + 1) != e
        && Node(list, s, m + 1) != list
  {
    var t := s + [e];
    assert forall j | 0 <= j < |s| :: t[j] == s[j];
    assert s[m] == t[m] && t[|s|] == e;
  }

  /** To the end of a list, as the newest. */
  method LruAppend(list: LRUHandle, e: LRUHandle, ghost s: seq<LRUHandle>)
    requires Ring(list, s) && Apart(list, s + [e])
    modifies {list}`next, {list}`prev, SetOf(s)`next, SetOf(s)`prev, e`next, e`prev
    ensures Ring(list, s + [e])
  {
    ghost var t := s + [e];
    assert Linked(Node(list, s, |s|), Node(list, s, |s| + 1));
    assert e == t[|s|] && forall j | 0 <= j < |s| :: t[j] == s[j];
    e.next := list;
    e.prev := list.prev;
    e.prev.next := e;
    e.next.prev := e;
    forall m | 0 <= m <= |t| ensures Linked(Node(list, t, m), Node(list, t, m + 1)) {
      if m < |s| {
        NodesDiffer(list, s, e, m);
        assert old(Linked(Node(list, s, m), Node(list, s, m + 1)));
        assert Node(list, t, m) == Node(list, s, m) && Node(list, t, m + 1) == Node(list, s, m + 1);
      }
    }
  }

  // ---------- A list without one of its entries ----------

  ghost function Minus(s: seq<LRUHandle>, e: LRUHandle): seq<LRUHandle> {
    if s == [] then [] else if s[0] == e then s[1..] else [s[0]] + Minus(s[1..], e)
  }

  lemma {:induction false} MinusIsWithout(s: seq<LRUHandle>, k: nat)
    requires NoDuplicates(s) && k < |s|
    ensures Minus(s, s[k]) == Without(s, k)
    decreases k
  {
    if k > 0 {
      MinusIsWithout(s[1..], k - 1);
      assert Without(s, k) == [s[0]] + Without(s[1..], k - 1);
    }
  }

  lemma {:induction false} MinusNothing(s: seq<LRUHandle>, e: LRUHandle)
    requires e !in s
    ensures Minus(s, e) == s
  {
    if s != [] {
      MinusNothing(s[1..], e);
      assert s == [s[0]] + s[1..];
    }
  }

  function Charges(s: seq<LRUHandle>): nat {
    if s == [] then 0 else s[0].charge + Charges(s[1..])
  }

  /** What leaving one entry out changes. */
  lemma {:induction false} MinusParts(s: seq<LRUHandle>, e: LRUHandle)
    requires NoDuplicates(s) && e in s
    ensures SetOf(Minus(s, e)) == SetOf(s) - {e} && NoDuplicates(Minus(s, e))
        && Charges(Minus(s, e)) + e.charge == Charges(s)
  {
    if s[0] == e {
      forall k | 0 <= k < |s[1..]| ensures s[1..][k] != e {
        assert s[1..][k] == s[k + 1];
      }
      assert SetOf(s) == SetOf(s[1..]) + {e};
    } else {
      MinusParts(s[1..], e);
      assert SetOf(s) == SetOf(s[1..]) + {s[0]};
      var t := Minus(s[1..], e);
      assert Minus(s, e) == [s[0]] + t && SetOf([s[0]] + t) == SetOf(t) + {s[0]};
      forall k | 0 <= k < |t| ensures t[k] != s[0] {
        assert t[k] in SetOf(s[1..]);
        var m :| 0 <= m < |s[1..]| && s[1..][m] == t[k];
        assert s[1..][m] == s[m + 1];
      }
      assert ([s[0]] + t)[1..] == t;
    }
  }

  lemma {:induction false} ChargesOfMore(s: seq<LRUHandle>, e: LRUHandle)
    ensures Charges(s + [e]) == Charges(s) + e.charge
  {
    if s != [] {
      ChargesOfMore(s[1..], e);
      assert (s + [e])[1..] == s[1..] + [e];
    } else {
      assert (s + [e])[1..] == [];
    }
  }

  // ---------- The cache ----------

  /** Two lists with nothing in common, not even their heads. */
  ghost predicate Disjoint(a: LRUHandle, s: seq<LRUHandle>, b: LRUHandle, t: seq<LRUHandle>) {
    && a != b && a !in s && a !in t && b !in s && b !in t && NoDuplicates(s) && NoDuplicates(t)
    && forall h | h in s :: h !in t
  }

  lemma {:induction false} StillDisjoint(a: LRUHandle, s: seq<LRUHandle>, b: LRUHandle, t: seq<LRUHandle>, e: LRUHandle)
    requires Disjoint(a, s, b, t) && e in s
    ensures Disjoint(a, Minus(s, e), b, t) && e !in Minus(s, e) && Minus(t, e) == t && e !in t
    ensures SetOf(Minus(s, e)) == SetOf(s) - {e}
  {
    MinusParts(s, e);
    MinusNothing(t, e);
    assert forall h | h in Minus(s, e) :: h in SetOf(Minus(s, e));
    assert e !in SetOf(Minus(s, e));
  }

  /** References are those of clients, and one of the cache. */
  ghost predicate Counted(cached: set<LRUHandle>, clients: multiset<LRUHandle>)
    reads cached`refs, cached`inCache, HeldBy(clients)`refs, HeldBy(clients)`inCache
  {
    forall h | h in cached + HeldBy(clients) ::
        (h.inCache <==> h in cached) && h.refs == clients[h] + (if h in cached then 1 else 0)
  }

  ghost function HeldBy(clients: multiset<LRUHandle>): set<LRUHandle> {
    set h | h in clients
  }

  lemma {:induction false} NothingCounted()
    ensures Counted({}, multiset{}) && Accounted({}, multiset{}, [], {}) && SetOf<LRUHandle>([]) == {}
  {
  }

  /** The same, but for one entry that still counts a reference that is being given up. */
  ghost predicate Owing(cached: set<LRUHandle>, clients: multiset<LRUHandle>, e: LRUHandle)
    reads cached`refs, cached`inCache, HeldBy(clients)`refs, HeldBy(clients)`inCache, e`refs, e`inCache
  {
    && (forall h | h in cached + HeldBy(clients) && h != e ::
        (h.inCache <==> h in cached) && h.refs == clients[h] + (if h in cached then 1 else 0))
    && (e.inCache <==> e in cached) && e.refs == clients[e] + (if e in cached then 1 else 0) + 1
  }

  /** Which list an entry is in says whether a client holds it. */
  ghost predicate Placed(s: seq<LRUHandle>, t: seq<LRUHandle>, clients: multiset<LRUHandle>) {
    (forall h | h in s :: h !in clients) && (forall h | h in t :: h in clients)
  }

  /** Every entry ever made is alive, or it has been freed, once. */
  ghost predicate Accounted(cached: set<LRUHandle>, clients: multiset<LRUHandle>, freed: seq<LRUHandle>,
      made: set<LRUHandle>)
  {
    NoDuplicates(freed) && made == cached + HeldBy(clients) + SetOf(freed) && SetOf(freed) !! cached + HeldBy(clients)
  }

  // ---------- What the steps keep ----------

  lemma {:induction false} ClientPlaced(s: seq<LRUHandle>, t: seq<LRUHandle>, clients: multiset<LRUHandle>,
      e: LRUHandle)
    requires Placed(s, t, clients) && NoDuplicates(s) && (e in s || e in t)
    ensures e in s ==> Placed(Minus(s, e), t + [e], clients + multiset{e})
    ensures e !in s ==> Placed(s, t, clients + multiset{e})
  {
    if e in s {
      MinusParts(s, e);
      assert forall h | h in Minus(s, e) :: h in SetOf(Minus(s, e));
    }
  }

  lemma {:induction false} HeldIsMade(cached: set<LRUHandle>, clients: multiset<LRUHandle>, freed: seq<LRUHandle>,
      made: set<LRUHandle>, e: LRUHandle)
    requires Accounted(cached, clients, freed, made) && e in clients
    ensures e in made
  {
  }

  /** A client's reference is given up. */
  lemma {:induction false} ClientGone(cached: set<LRUHandle>, clients: multiset<LRUHandle>, e: LRUHandle)
    requires Counted(cached, clients) && e in clients
    ensures Owing(cached, clients - multiset{e}, e)
  {
  }

  lemma {:induction false} ReleasePlaced(s: seq<LRUHandle>, t: seq<LRUHandle>, clients: multiset<LRUHandle>,
      e: LRUHandle)
    requires Placed(s, t, clients) && NoDuplicates(t) && e in clients
    ensures var rest := clients - multiset{e};
            if e in t && e !in rest
                then Placed(s + [e], Minus(t, e), rest)
                && Charges(s + [e]) + Charges(Minus(t, e)) == Charges(s) + Charges(t)
            else Placed(s, t, rest)
    ensures e !in s
  {
    hide Charges, Minus;
    if e in t {
      MinusParts(t, e);
      ChargesOfMore(s, e);
      assert forall h | h in Minus(t, e) :: h in SetOf(Minus(t, e));
    }
  }

  lemma {:induction false} ReleaseAccounted(cached: set<LRUHandle>, clients: multiset<LRUHandle>,
      freed: seq<LRUHandle>, made: set<LRUHandle>, e: LRUHandle)
    requires Accounted(cached, clients, freed, made) && e in clients
    ensures var rest := clients - multiset{e};
            Accounted(cached, rest, if e !in cached && e !in rest then freed + [e] else freed, made)
  {
    var rest := clients - multiset{e};
    if e in cached || e in rest {
      assert cached + HeldBy(rest) == cached + HeldBy(clients);
    } else {
      assert HeldBy(rest) == HeldBy(clients) - {e};
      assert SetOf(freed + [e]) == SetOf(freed) + {e};
    }
  }

  lemma {:induction false} EraseAccounted(cached: set<LRUHandle>, clients: multiset<LRUHandle>, freed: seq<LRUHandle>,
      made: set<LRUHandle>, e: LRUHandle)
    requires Accounted(cached, clients, freed, made) && e in cached
    ensures Accounted(cached - {e}, clients, if e !in clients then freed + [e] else freed, made)
  {
    if e in clients {
      assert cached - {e} + HeldBy(clients) == cached + HeldBy(clients);
    } else {
      assert SetOf(freed + [e]) == SetOf(freed) + {e};
      assert cached - {e} + HeldBy(clients) == cached + HeldBy(clients) - {e};
    }
  }

  lemma {:induction false} ErasePlaced(s: seq<LRUHandle>, t: seq<LRUHandle>, clients: multiset<LRUHandle>, e: LRUHandle)
    requires Placed(s, t, clients) && NoDuplicates(s) && NoDuplicates(t) && (e in s || e in t) && (e in s ==> e !in t)
    ensures Placed(Minus(s, e), Minus(t, e), clients)
    ensures Charges(Minus(s, e)) + Charges(Minus(t, e)) + e.charge == Charges(s) + Charges(t)
  {
    hide Charges, Minus;
    var u := if e in s then s else t;
    MinusParts(u, e);
    MinusNothing(if e in s then t else s, e);
    assert forall h | h in Minus(u, e) :: h in SetOf(Minus(u, e));
  }

  lemma {:induction false} ClientAccounted(cached: set<LRUHandle>, clients: multiset<LRUHandle>, freed: seq<LRUHandle>,
      made: set<LRUHandle>, e: LRUHandle)
    requires Accounted(cached, clients, freed, made) && e in cached
    ensures Accounted(cached, clients + multiset{e}, freed, made)
  {
    assert cached + HeldBy(clients + multiset{e}) == cached + HeldBy(clients);
  }

  class LRUCache {
    var capacity: nat
    var usage: nat
    const lru: LRUHandle       // its entries are in no client's hands
    const inUse: LRUHandle
    const table: HandleTable
    ghost var lruList: seq<LRUHandle>
    ghost var inUseList: seq<LRUHandle>
    ghost var clients: multiset<LRUHandle>    // handles returned and not yet released
    ghost var freed: seq<LRUHandle>           // entries that their deleter was called for
    ghost var made: set<LRUHandle>

    ghost function Cached(): set<LRUHandle>
      reads `lruList, `inUseList
    {
      SetOf(lruList) + SetOf(inUseList)
    }

    ghost function Nodes(): set<LRUHandle>
      reads `lruList, `inUseList
    {
      Cached() + {lru, inUse}
    }

    ghost predicate Lists()
      reads `lruList, `inUseList, Nodes()`next, Nodes()`prev
    {
      Ring(lru, lruList) && Ring(inUse, inUseList) && Disjoint(lru, lruList, inUse, inUseList)
    }

    ghost predicate Counts()
      reads `lruList, `inUseList, `clients, Cached()`refs, Cached()`inCache, HeldBy(clients)`refs,
          HeldBy(clients)`inCache
    {
      Counted(Cached(), clients) && Placed(lruList, inUseList, clients)
    }

    ghost predicate Books()
      reads this
    {
      usage == Charges(lruList) + Charges(inUseList) && Accounted(Cached(), clients, freed, made) && lru !in made
          && inUse !in made
    }

    ghost predicate TableHolds(entries: set<LRUHandle>)
      reads table, table.list, table.Members()`nextHash
    {
      table.Valid() && table.Members() == entries
    }

    ghost predicate Valid()
      reads this, Nodes()`next, Nodes()`prev, Cached()`refs, Cached()`inCache, HeldBy(clients)`refs,
          HeldBy(clients)`inCache
      reads table, table.list, table.Members()`nextHash
    {
      Lists() && Counts() && Books() && TableHolds(Cached())
    }

    constructor (capacity: nat)
      ensures Valid() && this.capacity == capacity && usage == 0 && made == {}
      ensures fresh(lru) && fresh(inUse) && fresh(table) && fresh(table.list)
    {
      this.capacity, usage := capacity, 0;
      lruList, inUseList, clients, freed, made := [], [], multiset{}, [], {};
      lru := new LRUHandle.Head();
      inUse := new LRUHandle.Head();
      table := new HandleTable();
      new;
      hide *;
      InitiallyValid();
    }

    lemma {:induction false} InitiallyValid()
      requires lruList == [] && inUseList == [] && clients == multiset{} && freed == [] && made == {} && usage == 0
      requires lru != inUse && lru.next == lru && lru.prev == lru && inUse.next == inUse && inUse.prev == inUse
      requires table.Valid() && table.Members() == {}
      ensures Valid()
    {
      hide HandleTable.Valid, HandleTable.Members, Ring, Counted, Accounted, Linked;
      EmptyRing(lru);
      EmptyRing(inUse);
      NothingCounted();
    }

    /** Take an entry out of the list it is in. */
    method Detach(e: LRUHandle)
      requires Lists() && e in Cached()
      modifies Nodes()`next, Nodes()`prev, `lruList, `inUseList
      ensures Lists() && lruList == Minus(old(lruList), e) && inUseList == Minus(old(inUseList), e)
      ensures e !in Cached() && Cached() == old(Cached()) - {e}
    {
      hide Ring, Minus, HandleTable.Valid;
      ghost var head, s := if e in lruList then lru else inUse, if e in lruList then lruList else inUseList;
      ghost var k :| 0 <= k < |s| && s[k] == e;
      MinusIsWithout(s, k);
      if e in lruList {
        StillDisjoint(lru, lruList, inUse, inUseList, e);
      } else {
        StillDisjoint(inUse, inUseList, lru, lruList, e);
      }
      LruRemove(e, head, s, k);
      lruList, inUseList := Minus(lruList, e), Minus(inUseList, e);
    }

    /** Put an entry at the end of a list. */
    method Append(list: LRUHandle, e: LRUHandle)
      requires Lists() && e !in Nodes() && (list == lru || list == inUse)
      modifies Nodes()`next, Nodes()`prev, e`next, e`prev, `lruList, `inUseList
      ensures Lists() && Cached() == old(Cached()) + {e}
      ensures lruList == (if list == lru then old(lruList) + [e] else old(lruList))
          && inUseList == (if list == inUse then old(inUseList) + [e] else old(inUseList))
    {
      hide Ring, HandleTable.Valid;
      ghost var s := if list == lru then lruList else inUseList;
      LruAppend(list, e, s);
      if list == lru {
        lruList := lruList + [e];
      } else {
        inUseList := inUseList + [e];
      }
    }

    method MoveTo(list: LRUHandle, e: LRUHandle)
      requires Lists() && ((list == lru && e in inUseList) || (list == inUse && e in lruList))
      modifies Nodes()`next, Nodes()`prev, `lruList, `inUseList
      ensures Lists() && Cached() == old(Cached())
      ensures lruList == (if list == lru then old(lruList) + [e] else Minus(old(lruList), e))
          && inUseList == (if list == inUse then old(inUseList) + [e] else Minus(old(inUseList), e))
    {
      hide Ring, Minus, NoDuplicates, HandleTable.Valid, HandleTable.Members;
      MinusNothing(if list == lru then lruList else inUseList, e);
      Detach(e);
      Append(list, e);
    }

    lemma {:induction false} ListsApart()
      requires Lists()
      ensures lru != inUse && NoDuplicates(lruList) && NoDuplicates(inUseList)
          && forall h | h in lruList :: h !in inUseList
    {
      hide Ring;
    }

    /** The count of references says which list a cached entry is in. */
    lemma {:induction false} RefsTell(e: LRUHandle)
      requires Counts() && (e in Cached() || e in clients)
      ensures e.refs > 0 && (e.inCache <==> e in Cached()) && (e.refs == 1 && e.inCache <==> e in lruList)
      ensures e.refs == clients[e] + if e in Cached() then 1 else 0
    {
    }

    /** One more reference for a client. */
    method Ref(e: LRUHandle)
      requires Valid() && e in Cached()
      modifies `lruList, `inUseList, `clients, Nodes()`next, Nodes()`prev, e`refs
      ensures Valid() && Cached() == old(Cached()) && clients == old(clients) + multiset{e}
      ensures lruList == Minus(old(lruList), e)
          && inUseList == (if e in old(lruList) then old(inUseList) + [e] else old(inUseList))
    {
      hide Ring, Disjoint, HandleTable.Valid, HandleTable.Members, Minus, NoDuplicates, Lists, Counted, Placed,
          Charges, Accounted;
      ghost var cached := Cached();
      RefsTell(e);
      ListsApart();
      ChargesAfter(lruList, inUseList, e);
      ClientPlaced(lruList, inUseList, clients, e);
      ClientAccounted(cached, clients, freed, made, e);
      if e.refs == 1 && e.inCache {
        MoveTo(inUse, e);
        assert forall h | h in cached + HeldBy(clients) :: h.refs == old(h.refs) && h.inCache == old(h.inCache);
        assert Counted(cached, clients);
      }
      AddClient(e);
      StaysValid(table);
      assert Books();
      assert Counts();
      assert TableHolds(Cached());
    }

    method AddClient(e: LRUHandle)
      requires Lists() && Counted(Cached(), clients) && e in Cached()
      modifies `clients, e`refs
      ensures Lists() && Counted(Cached(), clients) && clients == old(clients) + multiset{e}
    {
      hide Ring, Disjoint;
      e.refs := e.refs + 1;
      clients := clients + multiset{e};
    }

    /** Give up a reference. The last one takes the entry with it; the last one of a client takes it
        to the end of the list of entries that may go. */
    method Unref(e: LRUHandle)
      requires Lists() && Owing(Cached(), clients, e) && e != lru && e != inUse
      requires e in Cached() && e !in clients ==> e in inUseList
      modifies `lruList, `inUseList, `freed, Nodes()`next, Nodes()`prev, e`refs
      ensures Lists() && Counted(Cached(), clients) && Cached() == old(Cached())
      ensures freed == if e !in Cached() && e !in clients then old(freed) + [e] else old(freed)
      ensures if e in Cached() && e !in clients
          then lruList == old(lruList) + [e] && inUseList == Minus(old(inUseList), e)
          else lruList == old(lruList) && inUseList == old(inUseList)
    {
      hide Ring, Disjoint, Minus, NoDuplicates, Lists, Counted;
      ghost var cached := Cached();
      ListsApart();
      DropReference(e);
      label Dropped:
      if e.refs == 0 {
        freed := freed + [e];
      } else if e.inCache && e.refs == 1 {
        MoveTo(lru, e);
        assert forall h | h in cached + HeldBy(clients) ::
            h.refs == old@Dropped(h.refs) && h.inCache == old@Dropped(h.inCache);
        assert Counted(cached, clients);
      }
    }

    method DropReference(e: LRUHandle)
      requires Lists() && Owing(Cached(), clients, e)
      modifies e`refs
      ensures Lists() && Counted(Cached(), clients) && e.refs == clients[e] + (if e in Cached() then 1 else 0)
          && (e.inCache <==> e in Cached())
    {
      hide Ring, Disjoint;
      e.refs := e.refs - 1;
    }

    /** A client returns its handle. */
    method Release(e: LRUHandle)
      requires Valid() && e in clients
      modifies `lruList, `inUseList, `clients, `freed, Nodes()`next, Nodes()`prev, e`refs
      ensures Valid() && Cached() == old(Cached()) && clients == old(clients) - multiset{e}
      ensures freed == if e !in Cached() && e !in clients then old(freed) + [e] else old(freed)
      ensures if e in Cached() && e !in clients
          then lruList == old(lruList) + [e] && inUseList == Minus(old(inUseList), e)
          else lruList == old(lruList) && inUseList == old(inUseList)
    {
      hide Ring, Disjoint, HandleTable.Valid, HandleTable.Members, Minus, NoDuplicates, Lists, Counted, Placed,
          Charges, Accounted, Owing;
      ListsApart();
      HeldIsMade(Cached(), clients, freed, made, e);
      ClientGone(Cached(), clients, e);
      ReleasePlaced(lruList, inUseList, clients, e);
      ReleaseAccounted(Cached(), clients, freed, made, e);
      GiveUp(e);
      Unref(e);
      StaysValid(table);
      assert Books();
      assert Counts();
      assert TableHolds(Cached());
    }

    ghost method GiveUp(e: LRUHandle)
      requires Lists() && Owing(Cached(), clients - multiset{e}, e)
      modifies `clients
      ensures Lists() && Owing(Cached(), clients, e) && clients == old(clients) - multiset{e}
    {
      hide Ring, Disjoint, Owing;
      clients := clients - multiset{e};
    }

    /** Finish taking an entry out of the cache; the hash table does not have it any more. */
    method FinishErase(e: LRUHandle)
      requires Lists() && Counts() && Books() && e in Cached() && TableHolds(Cached() - {e})
      modifies `lruList, `inUseList, `freed, `usage, Nodes()`next, Nodes()`prev, e`refs, e`inCache
      ensures Valid() && Cached() == old(Cached()) - {e} && usage + e.charge == old(usage)
      ensures lruList == Minus(old(lruList), e) && inUseList == Minus(old(inUseList), e)
      ensures freed == if e !in clients then old(freed) + [e] else old(freed)
    {
      hide Ring, Disjoint, HandleTable.Valid, HandleTable.Members, Minus, NoDuplicates, Lists, Counted, Placed,
          Charges, Accounted, Owing;
      ListsApart();
      NotHead(e);
      ErasePlaced(lruList, inUseList, clients, e);
      EraseAccounted(Cached(), clients, freed, made, e);
      ChargeCounts(lruList, inUseList, e);
      LeaveList(e);
      usage := usage - e.charge;
      Unref(e);
      StaysValid(table);
      assert Books();
      assert Counts();
      assert TableHolds(Cached());
    }

    method LeaveList(e: LRUHandle)
      requires Lists() && Counted(Cached(), clients) && e in Cached()
      modifies `lruList, `inUseList, Nodes()`next, Nodes()`prev, e`inCache
      ensures Lists() && Owing(Cached(), clients, e) && e !in Cached() && Cached() == old(Cached()) - {e}
      ensures lruList == Minus(old(lruList), e) && inUseList == Minus(old(inUseList), e)
    {
      hide Ring, Disjoint, Minus, Lists, Counted, Owing;
      ghost var cached := Cached();
      Detach(e);
      assert forall h | h in cached + HeldBy(clients) :: h.refs == old(h.refs) && h.inCache == old(h.inCache);
      assert Counted(cached, clients);
      LeaveCache(e, cached);
    }

    method LeaveCache(e: LRUHandle, ghost cached: set<LRUHandle>)
      requires Lists() && Counted(cached, clients) && e in cached && Cached() == cached - {e}
      modifies e`inCache
      ensures Lists() && Owing(Cached(), clients, e)
    {
      hide Ring, Disjoint;
      e.inCache := false;
    }

    lemma {:induction false} NotHead(e: LRUHandle)
      requires Lists() && e in Cached()
      ensures e != lru && e != inUse
    {
      hide Ring;
    }

    /** A handle for the entry of a key, if it is cached. */
    method Lookup(key: Bytes, hash: nat) returns (r: LRUHandle?)
      requires Valid()
      modifies `lruList, `inUseList, `clients, Nodes()`next, Nodes()`prev, Cached()`refs
      ensures Valid() && Cached() == old(Cached())
      ensures r != null ==> r in Cached() && r.Is(key, hash) && clients == old(clients) + multiset{r}
      ensures r != null ==>
          lruList == Minus(old(lruList), r)
          && inUseList == (if r in old(lruList) then old(inUseList) + [r] else old(inUseList))
      ensures r == null ==>
          clients == old(clients) && lruList == old(lruList) && inUseList == old(inUseList)
          && forall h | h in Cached() :: !h.Is(key, hash)
    {
      hide Lists, Placed, Accounted, Charges, HandleTable.Valid, HandleTable.Members, Minus;
      r := table.Lookup(key, hash);
      assert Lists();
      assert forall h | h in Cached() + HeldBy(clients) :: h.refs == old(h.refs) && h.inCache == old(h.inCache);
      assert Counted(Cached(), clients);
      StaysValid(table);
      if r != null {
        Ref(r);
      }
    }

    method TakeFromTable(key: Bytes, hash: nat) returns (r: LRUHandle?)
      requires Valid()
      modifies table`elems, table`chains, table.list, Cached()`nextHash
      ensures Lists() && Counts() && Books()
      ensures r == null ==> Valid() && forall h | h in Cached() :: !h.Is(key, hash)
      ensures r != null ==> r in Cached() && r.Is(key, hash) && TableHolds(Cached() - {r})
      ensures forall h | h in Cached() && r != null && h.Is(key, hash) :: h == r
    {
      hide Ring, Disjoint, HandleTable.Valid, HandleTable.Members, Counted, Placed, Accounted, Charges;
      AllOneOfAKind();
      r := table.Remove(key, hash);
      assert forall h | h in Nodes() :: h.next == old(h.next) && h.prev == old(h.prev);
      assert Ring(lru, lruList) && Ring(inUse, inUseList);
      assert forall h | h in Cached() + HeldBy(clients) :: h.refs == old(h.refs) && h.inCache == old(h.inCache);
      assert Counted(Cached(), clients);
    }

    lemma {:induction false} AllOneOfAKind()
      requires Valid()
      ensures forall a, b | a in Cached() && b in Cached() && a.Is(b.key, b.hash) :: a == b
    {
      hide Lists, Counts, Books, HandleTable.Valid, HandleTable.Members;
      forall a, b | a in Cached() && b in Cached() && a.Is(b.key, b.hash) ensures a == b {
        table.AtMostOne(a, b);
      }
    }

    method Erase(key: Bytes, hash: nat)
      requires Valid()
      modifies `lruList, `inUseList, `freed, `usage, Nodes()`next, Nodes()`prev, Cached()`refs, Cached()`inCache
      modifies table`elems, table`chains, table.list, Cached()`nextHash
      ensures Valid() && clients == old(clients) && forall h | h in Cached() :: !h.Is(key, hash)
      ensures forall h | h in old(Cached()) :: h.Is(key, hash) || h in Cached()
      ensures forall h | h in old(Cached()) && h.Is(key, hash) ::
        && lruList == Minus(old(lruList), h) && inUseList == Minus(old(inUseList), h)
        && freed == if h !in clients then old(freed) + [h] else old(freed)
      ensures (forall h | h in old(Cached()) :: !h.Is(key, hash)) ==>
          lruList == old(lruList) && inUseList == old(inUseList) && freed == old(freed)
    {
      hide Lists, Counts, Books, TableHolds, Minus;
      var r := TakeFromTable(key, hash);
      if r != null {
        FinishErase(r);
      }
    }

    /** The oldest entry in no client's hands goes. */
    method EvictOldest()
      requires Valid() && lruList != []
      modifies `lruList, `inUseList, `freed, `usage, Nodes()`next, Nodes()`prev, Cached()`refs, Cached()`inCache
      modifies table`elems, table`chains, table.list, Cached()`nextHash
      ensures Valid() && Cached() == old(Cached()) - {old(lruList)[0]} && lruList == old(lruList)[1..]
          && inUseList == old(inUseList)
      ensures freed == old(freed) + [old(lruList)[0]] && usage + old(lruList)[0].charge == old(usage)
    {
      hide Lists, Counts, Books, TableHolds, Minus;
      ghost var h := lruList[0];
      OldestIs();
      NoClientHolds();
      var e := lru.next;
      var r := TakeFromTable(e.key, e.hash);
      assert h in Cached() && h.Is(e.key, e.hash);
      if r == null {
        // The table has every cached entry.
        assert false;
      }
      FinishErase(r);
    }

    /** The oldest entry follows the head, which follows itself in an empty list. */
    lemma {:induction false} OldestIs()
      requires Lists()
      ensures lru.next == lru <==> lruList == []
      ensures lruList != [] ==>
          lru.next == lruList[0] && lruList[0] !in inUseList && Minus(lruList, lruList[0]) == lruList[1..]
          && Minus(inUseList, lruList[0]) == inUseList
    {
      assert Linked(Node(lru, lruList, 0), Node(lru, lruList, 1));
      if lruList != [] {
        MinusNothing(inUseList, lruList[0]);
      }
    }

    lemma {:induction false} NoClientHolds()
      requires Counts() && lruList != []
      ensures lruList[0] !in clients
    {
    }

    /** Everything goes that no client holds. */
    method Prune()
      requires Valid()
      modifies `lruList, `inUseList, `freed, `usage, Nodes()`next, Nodes()`prev, Cached()`refs, Cached()`inCache
      modifies table`elems, table`chains, table.list, Cached()`nextHash
      ensures Valid() && lruList == [] && inUseList == old(inUseList) && freed == old(freed) + old(lruList)
    {
      hide Lists, Counts, Books, TableHolds, HandleTable.Members;
      ghost var n := 0;
      OldestIs();
      while lru.next != lru
        invariant Valid() && n <= |old(lruList)| && lruList == old(lruList)[n..] && inUseList == old(inUseList)
            && freed == old(freed) + old(lruList)[..n]
        invariant table.list == old(table.list) && (lru.next == lru <==> lruList == [])
        decreases |lruList|
      {
        n := n + 1;
        EvictOldest();
        OldestIs();
      }
    }

    /** A new entry, for the cache and for the client that gets the handle. */
    method Join(e: LRUHandle)
      requires Valid() && e !in made && e != lru && e != inUse
      modifies `lruList, `inUseList, `clients, `usage, `made, Nodes()`next, Nodes()`prev, e`next, e`prev, e`refs,
          e`inCache
      ensures Lists() && Counts() && Books() && TableHolds(old(Cached())) && Cached() == old(Cached()) + {e}
          && e !in old(Cached())
      ensures lruList == old(lruList) && inUseList == old(inUseList) + [e] && usage == old(usage) + e.charge
      ensures clients == old(clients) + multiset{e} && made == old(made) + {e}
    {
      hide Ring, Disjoint, HandleTable.Valid, HandleTable.Members, Minus, NoDuplicates, Lists, Counted, Placed,
          Charges, Accounted;
      NewIsNotLive(Cached(), clients, freed, made, e);
      NewPlaced(lruList, inUseList, clients, e);
      NewAccounted(Cached(), clients, freed, made, e);
      HeadsDiffer();
      JoinList(e);
      usage := usage + e.charge;
      made := made + {e};
      StaysValid(table);
      assert Lists();
      assert Books();
      assert Counts();
    }

    method JoinList(e: LRUHandle)
      requires Lists() && Counted(Cached(), clients) && e !in Nodes() && e !in clients && lru != inUse
      modifies `lruList, `inUseList, `clients, Nodes()`next, Nodes()`prev, e`next, e`prev, e`refs, e`inCache
      ensures Lists() && Counted(Cached(), clients) && Cached() == old(Cached()) + {e}
      ensures lruList == old(lruList) && inUseList == old(inUseList) + [e] && clients == old(clients) + multiset{e}
    {
      hide Ring, Disjoint, Lists, Counted;
      ghost var cached := Cached();
      Append(inUse, e);
      assert forall h | h in cached + HeldBy(clients) :: h.refs == old(h.refs) && h.inCache == old(h.inCache);
      assert Counted(cached, clients);
      CountNew(e, cached);
    }

    method CountNew(e: LRUHandle, ghost cached: set<LRUHandle>)
      requires Lists() && Counted(cached, clients) && e !in cached && e !in clients && Cached() == cached + {e}
      modifies `clients, e`refs, e`inCache
      ensures Lists() && Counted(Cached(), clients) && clients == old(clients) + multiset{e}
    {
      hide Ring, Disjoint;
      e.inCache := true;
      e.refs := 2;
      clients := clients + multiset{e};
    }

    lemma {:induction false} HeadsDiffer()
      requires Lists()
      ensures lru != inUse
    {
      hide Ring;
    }

    method PutInTable(e: LRUHandle) returns (r: LRUHandle?)
      requires Lists() && Counts() && Books() && TableHolds(Cached() - {e}) && e in Cached()
      modifies table, table.list, Cached()`nextHash
      ensures Lists() && Counts() && Books() && (table.list == old(table.list) || fresh(table.list))
      ensures r == null ==> TableHolds(Cached()) && forall h | h in Cached() && h != e :: !h.Is(e.key, e.hash)
      ensures r != null ==> r in Cached() && r != e && r.Is(e.key, e.hash) && TableHolds(Cached() - {r})
    {
      hide Ring, Disjoint, HandleTable.Valid, HandleTable.Members, Counted, Placed, Accounted, Charges;
      r := table.Insert(e);
      assert forall h | h in Nodes() :: h.next == old(h.next) && h.prev == old(h.prev);
      assert Ring(lru, lruList) && Ring(inUse, inUseList);
      assert forall h | h in Cached() + HeldBy(clients) :: h.refs == old(h.refs) && h.inCache == old(h.inCache);
      assert Counted(Cached(), clients);
    }

    /** Put a new entry where clients find it, and take out what was there. */
    method Admit(e: LRUHandle) returns (replaced: LRUHandle?)
      requires Valid() && e !in made && e != lru && e != inUse
      modifies `lruList, `inUseList, `clients, `usage, `made, `freed, table, table.list
      modifies Nodes()`next, Nodes()`prev, Cached()`refs, Cached()`inCache, Cached()`nextHash
      modifies e`next, e`prev, e`refs, e`inCache, e`nextHash
      ensures Valid() && clients == old(clients) + multiset{e} && made == old(made) + {e} && e in inUseList
          && e !in old(Cached())
      ensures table.list == old(table.list) || fresh(table.list)
      ensures replaced == null ==> forall h | h in old(Cached()) :: !h.Is(e.key, e.hash)
      ensures replaced != null ==> replaced in old(Cached()) && replaced.Is(e.key, e.hash)
      ensures lruList == WithoutAny(old(lruList), replaced) && inUseList == WithoutAny(old(inUseList), replaced) + [e]
      ensures Cached() <= old(Cached()) + {e}
      ensures freed == old(freed) + Freed(replaced, old(clients))
    {
      hide Lists, Counts, Books, TableHolds, Minus;
      ghost var before := clients;
      Join(e);
      assert Cached() - {e} == old(Cached());
      replaced := PutInTable(e);
      if replaced != null {
        MinusOfMore(old(inUseList), e, replaced);
        FinishErase(replaced);
      }
    }

    /** Insert an entry and return its handle. Then old entries go until the charges fit, or none is left
        that may go. */
    method Insert(key: Bytes, hash: nat, charge: nat)
        returns (e: LRUHandle, ghost replaced: LRUHandle?, ghost evicted: nat)
      requires Valid()
      modifies `lruList, `inUseList, `clients, `usage, `made, `freed, table, table.list
      modifies Nodes()`next, Nodes()`prev, Cached()`refs, Cached()`inCache, Cached()`nextHash
      ensures Valid() && fresh(e) && e.key == key && e.hash == hash && e.charge == charge
      ensures clients == old(clients) + multiset{e} && made == old(made) + {e}
      ensures usage <= capacity || lruList == []
      ensures if capacity > 0 then e in Cached() else e !in Cached() && replaced == null
      ensures forall h | h in Cached() && h.Is(key, hash) && capacity > 0 :: h == e
      ensures capacity > 0 && replaced == null ==> forall h | h in old(Cached()) :: !h.Is(key, hash)
      ensures replaced != null ==> replaced in old(Cached()) && replaced.Is(key, hash)
      ensures var left := WithoutAny(old(lruList), replaced);
        && evicted <= |left| && lruList == left[evicted..]
        && inUseList == WithoutAny(old(inUseList), replaced) + (if capacity > 0 then [e] else [])
        && freed == old(freed) + Freed(replaced, old(clients)) + left[..evicted]
        && (evicted > 0 ==> usage + left[evicted - 1].charge > capacity)
    {
      hide Lists, Counts, Books, TableHolds, Minus, WithoutAny, Freed, HandleTable.Members;
      e := NewHandle(key, hash, charge);
      if capacity > 0 {
        replaced := Admit(e);
      } else {
        replaced := null;
        NothingReplaced(lruList, clients);
        NothingReplaced(inUseList, clients);
        Lend(e);
      }
      label Admitted:
      evicted := EvictToFit();
      assert clients == old@Admitted(clients) && made == old@Admitted(made);
      if capacity > 0 {
        OnlyOne(e);
      }
    }

    lemma {:induction false} OnlyOne(e: LRUHandle)
      requires Valid() && e in Cached()
      ensures forall h | h in Cached() && h.Is(e.key, e.hash) :: h == e
    {
      hide Lists, Counts, Books, TableHolds;
      AllOneOfAKind();
    }

    method NewHandle(key: Bytes, hash: nat, charge: nat) returns (e: LRUHandle)
      requires Valid()
      ensures Valid() && fresh(e) && e.key == key && e.hash == hash && e.charge == charge
      ensures e !in made && e != lru && e != inUse
    {
      hide Ring, Disjoint, HandleTable.Valid, HandleTable.Members, Placed, Charges, Accounted;
      e := new LRUHandle(key, hash, charge);
      assert Lists();
      assert forall h | h in Cached() + HeldBy(clients) :: h.refs == old(h.refs) && h.inCache == old(h.inCache);
      assert Counted(Cached(), clients);
      StaysValid(table);
    }

    /** With no capacity, nothing is cached: the entry is the client's alone. */
    method Lend(e: LRUHandle)
      requires Valid() && e !in made && e != lru && e != inUse
      modifies `clients, `made, e`next, e`refs, e`inCache
      ensures Valid() && clients == old(clients) + multiset{e} && made == old(made) + {e} && e !in Cached()
    {
      hide Ring, Disjoint, HandleTable.Valid, HandleTable.Members, Lists, Counted, Charges, Accounted;
      NewIsNotLive(Cached(), clients, freed, made, e);
      NewAccounted(Cached(), clients, freed, made, e);
      OffTheLists(e);
      CountLent(e);
      made := made + {e};
      StaysValid(table);
      assert Lists();
      assert Books();
      assert Counts();
      assert TableHolds(Cached());
    }

    lemma {:induction false} OffTheLists(e: LRUHandle)
      requires e !in Cached()
      ensures e !in lruList && e !in inUseList
    {
    }

    method CountLent(e: LRUHandle)
      requires Lists() && Counted(Cached(), clients) && e !in Nodes() && e !in clients
      modifies `clients, e`next, e`refs, e`inCache
      ensures Lists() && Counted(Cached(), clients) && clients == old(clients) + multiset{e}
    {
      hide Ring, Disjoint;
      e.inCache := false;
      e.refs := 1;
      e.next := null;
      clients := clients + multiset{e};
    }

    /** The oldest entries go, one by one, until the rest fits. */
    method EvictToFit() returns (ghost evicted: nat)
      requires Valid()
      modifies `lruList, `inUseList, `freed, `usage, Nodes()`next, Nodes()`prev, Cached()`refs, Cached()`inCache
      modifies table`elems, table`chains, table.list, Cached()`nextHash
      ensures Valid() && inUseList == old(inUseList) && (usage <= capacity || lruList == [])
      ensures evicted <= |old(lruList)| && lruList == old(lruList)[evicted..]
          && freed == old(freed) + old(lruList)[..evicted]
      ensures evicted > 0 ==> usage + old(lruList)[evicted - 1].charge > capacity
    {
      hide Lists, Counts, Books, TableHolds, HandleTable.Members;
      evicted := 0;
      OldestIs();
      while usage > capacity && lru.next != lru
        invariant Valid() && evicted <= |old(lruList)| && lruList == old(lruList)[evicted..]
            && inUseList == old(inUseList)
        invariant freed == old(freed) + old(lruList)[..evicted]
            && (evicted > 0 ==> usage + old(lruList)[evicted - 1].charge > capacity)
        invariant table.list == old(table.list) && (lru.next == lru <==> lruList == [])
        decreases |lruList|
      {
        evicted := evicted + 1;
        EvictOldest();
        OldestIs();
      }
    }
  }

  ghost function WithoutAny(s: seq<LRUHandle>, e: LRUHandle?): seq<LRUHandle> {
    if e == null then s else Minus(s, e)
  }

  /** A replaced entry is freed at once, unless a client still holds it. */
  ghost function Freed(replaced: LRUHandle?, clients: multiset<LRUHandle>): seq<LRUHandle> {
    if replaced == null || replaced in clients then [] else [replaced]
  }

  lemma {:induction false} NothingReplaced(s: seq<LRUHandle>, clients: multiset<LRUHandle>)
    ensures WithoutAny(s, null) == s && Freed(null, clients) == []
  {
  }

  lemma {:induction false} MinusOfMore(s: seq<LRUHandle>, e: LRUHandle, h: LRUHandle)
    requires e != h
    ensures Minus(s + [e], h) == Minus(s, h) + [e]
  {
    if s != [] {
      assert (s + [e])[1..] == s[1..] + [e];
      MinusOfMore(s[1..], e, h);
      assert [s[0]] + (Minus(s[1..], h) + [e]) == [s[0]] + Minus(s[1..], h) + [e];
    } else {
      assert (s + [e])[1..] == [];
    }
  }

  lemma {:induction false} NewIsNotLive(cached: set<LRUHandle>, clients: multiset<LRUHandle>, freed: seq<LRUHandle>,
      made: set<LRUHandle>, e: LRUHandle)
    requires Accounted(cached, clients, freed, made) && e !in made
    ensures e !in cached && e !in clients
  {
    assert e in clients ==> e in HeldBy(clients);
  }

  lemma {:induction false} NewPlaced(s: seq<LRUHandle>, t: seq<LRUHandle>, clients: multiset<LRUHandle>, e: LRUHandle)
    requires Placed(s, t, clients) && e !in s
    ensures Placed(s, t + [e], clients + multiset{e}) && Charges(t + [e]) == Charges(t) + e.charge
  {
    ChargesOfMore(t, e);
  }

  lemma {:induction false} NewAccounted(cached: set<LRUHandle>, clients: multiset<LRUHandle>, freed: seq<LRUHandle>,
      made: set<LRUHandle>, e: LRUHandle)
    requires Accounted(cached, clients, freed, made) && e !in made
    ensures Accounted(cached + {e}, clients + multiset{e}, freed, made + {e})
        && Accounted(cached, clients + multiset{e}, freed, made + {e})
  {
    assert HeldBy(clients + multiset{e}) == HeldBy(clients) + {e};
  }

  lemma {:induction false} ChargeCounts(s: seq<LRUHandle>, t: seq<LRUHandle>, e: LRUHandle)
    requires NoDuplicates(s) && NoDuplicates(t) && (e in s || e in t)
    ensures e.charge <= Charges(s) + Charges(t)
  {
    hide Minus, Charges;
    MinusParts(if e in s then s else t, e);
  }

  lemma {:induction false} ChargesAfter(s: seq<LRUHandle>, t: seq<LRUHandle>, e: LRUHandle)
    requires NoDuplicates(s) && NoDuplicates(t) && (e in s ==> e !in t)
    ensures e in s ==> Charges(Minus(s, e)) + Charges(t + [e]) == Charges(s) + Charges(t)
    ensures e !in s ==> Minus(s, e) == s
    ensures forall h | h in Minus(s, e) :: h in s && h != e
  {
    hide Minus, Charges;
    if e in s {
      MinusParts(s, e);
      ChargesOfMore(t, e);
      assert forall h | h in Minus(s, e) :: h in SetOf(Minus(s, e));
    } else {
      MinusNothing(s, e);
    }
  }
}
