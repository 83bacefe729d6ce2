/** The two faces of a key: its rank in the comparator's order, and the bytes that are stored. */
module KeyEncoding {
  import opened Format
  import opened Coding
  import opened Comparators

  /** How user keys look as bytes, and the name of the comparator that orders them. */
  datatype Naming = Naming(user: UserKey -> Bytes, comparator: Bytes)

  function KeyBytes(names: Naming, k: InternalKey): Bytes {
    EncodedKey(names.user(k.user), Tag(k))
  }

  /** Ranks of these user keys are in the order of their bytes. */
  ghost predicate Ranks(names: Naming, users: set<UserKey>) {
    forall u, v | u in users && v in users :: u < v <==> BytesLess(names.user(u), names.user(v))
  }

  lemma {:induction false} SameRankSameBytes(names: Naming, users: set<UserKey>, u: UserKey, v: UserKey)
    requires Ranks(names, users) && u in users && v in users
    ensures names.user(u) == names.user(v) <==> u == v
  {
    hide BytesLess;
    BytesLessTotal(names.user(u), names.user(v));
    if names.user(u) == names.user(v) && u != v {
      BytesLessAsymmetric(names.user(u), names.user(v));
    }
  }

  lemma {:induction false} TagFits(k: InternalKey)
    ensures Tag(k) <= MAX_TAG < TWO_64
  {
  }

  lemma {:induction false} BytesHold(names: Naming, k: InternalKey)
    ensures UserOf(KeyBytes(names, k)) == names.user(k.user) && TagOf(KeyBytes(names, k)) == Tag(k)
  {
    TagFits(k);
    EncodedKeyParts(names.user(k.user), Tag(k));
  }

  /** The order of the bytes of internal keys is the order of the keys. */
  lemma {:induction false} KeysAlike(names: Naming, users: set<UserKey>, a: InternalKey, b: InternalKey)
    requires Ranks(names, users) && a.user in users && b.user in users
    ensures KeyLess(KeyBytes(names, a), KeyBytes(names, b)) <==> Less(a, b)
    ensures KeyBytes(names, a) == KeyBytes(names, b) <==> a == b
  {
    hide KeyBytes, UserOf, TagOf, BytesLess;
    BytesHold(names, a);
    BytesHold(names, b);
    SameRankSameBytes(names, users, a.user, b.user);
  }

  // ---------- Ranks exist ----------

  /** How many of the keys are less than this one. */
  function Smaller(keys: set<Bytes>, k: Bytes): set<Bytes> {
    set x | x in keys && BytesLess(x, k)
  }

  function RankOf(keys: set<Bytes>, k: Bytes): UserKey {
    |Smaller(keys, k)| as real
  }

  lemma {:induction false} RankedInOrder(keys: set<Bytes>, a: Bytes, b: Bytes)
    requires a in keys && b in keys && BytesLess(a, b)
    ensures RankOf(keys, a) < RankOf(keys, b)
  {
    hide BytesLess;
    forall x | x in Smaller(keys, a) ensures x in Smaller(keys, b) {
      BytesLessTransitive(x, a, b);
    }
    if BytesLess(a, a) {
      BytesLessAsymmetric(a, a);
    }
    SubsetIsSmaller(Smaller(keys, a), Smaller(keys, b), a);
  }

  lemma {:induction false} SubsetIsSmaller<T>(a: set<T>, b: set<T>, x: T)
    requires a <= b && x in b && x !in a
    ensures |a| < |b|
  {
    assert |b - a| + |a * b| == |b|;
    assert a * b == a && x in b - a;
  }

  ghost function OfRank(keys: set<Bytes>, u: UserKey): (r: Bytes)
    ensures (exists k :: k in keys && RankOf(keys, k) == u) ==> r in keys && RankOf(keys, r) == u
  {
    if k :| k in keys && RankOf(keys, k) == u then k else []
  }

  lemma {:induction false} OnlyOfRank(keys: set<Bytes>, k: Bytes)
    requires k in keys
    ensures OfRank(keys, RankOf(keys, k)) == k
  {
    hide BytesLess, RankOf;
    var other := OfRank(keys, RankOf(keys, k));
    BytesLessTotal(k, other);
    if BytesLess(k, other) {
      RankedInOrder(keys, k, other);
    } else if BytesLess(other, k) {
      RankedInOrder(keys, other, k);
    }
  }

  /** Whatever byte strings are in use as user keys, there are ranks for them. */
  lemma {:induction false} RanksExist(keys: set<Bytes>, comparator: Bytes) returns (names: Naming)
    ensures forall k | k in keys :: names.user(RankOf(keys, k)) == k
    ensures Ranks(names, set k | k in keys :: RankOf(keys, k)) && names.comparator == comparator
  {
    hide BytesLess, RankOf, OfRank;
    names := Naming(u => OfRank(keys, u), comparator);
    forall k | k in keys ensures names.user(RankOf(keys, k)) == k {
      OnlyOfRank(keys, k);
    }
    forall a, b | a in keys && b in keys ensures RankOf(keys, a) < RankOf(keys, b) <==> BytesLess(a, b) {
      BytesLessTotal(a, b);
      if BytesLess(a, b) {
        RankedInOrder(keys, a, b);
        BytesLessAsymmetric(a, b);
      } else if BytesLess(b, a) {
        RankedInOrder(keys, b, a);
      }
    }
  }
}
