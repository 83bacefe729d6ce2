/** The bytewise order of user keys, the order of encoded internal keys, and the short keys that
    index blocks put between two of them. */
module Comparators {
  import opened Format
  import opened Coding
  import opened Blocks

  // ---------- User keys ----------

  predicate BytesLess(a: Bytes, b: Bytes) {
    b != [] && (a == [] || a[0] < b[0] || (a[0] == b[0] && BytesLess(a[1..], b[1..])))
  }

  lemma {:induction false} BytesLessTransitive(a: Bytes, b: Bytes, c: Bytes)
    requires BytesLess(a, b) && BytesLess(b, c)
    ensures BytesLess(a, c)
  {
    if a != [] && a[0] == b[0] && b[0] == c[0] {
      BytesLessTransitive(a[1..], b[1..], c[1..]);
    }
  }

  lemma {:induction false} BytesLessAsymmetric(a: Bytes, b: Bytes)
    requires BytesLess(a, b)
    ensures !BytesLess(b, a)
  {
    if a != [] && a[0] == b[0] {
      BytesLessAsymmetric(a[1..], b[1..]);
    }
  }

  lemma {:induction false} BytesLessTotal(a: Bytes, b: Bytes)
    ensures a == b || BytesLess(a, b) || BytesLess(b, a)
  {
    if a != [] && b != [] && a[0] == b[0] {
      BytesLessTotal(a[1..], b[1..]);
      assert a == [a[0]] + a[1..] && b == [b[0]] + b[1..];
    }
  }

  /** What comes first in both decides nothing. */
  lemma {:induction false} SamePrefix(p: Bytes, a: Bytes, b: Bytes)
    ensures BytesLess(p + a, p + b) <==> BytesLess(a, b)
    decreases p
  {
    if p == [] {
      assert p + a == a && p + b == b;
    } else {
      SamePrefix(p[1..], a, b);
      assert (p + a)[1..] == p[1..] + a && (p + b)[1..] == p[1..] + b;
    }
  }

  /** Cut after the first byte that differs, and make that byte one greater, if that leaves it
      less than the byte of the limit. */
  function Separator(start: Bytes, limit: Bytes): Bytes {
    var d := SharedLength(start, limit);
    if d < |start| && d < |limit| && start[d] < 255 && start[d] + 1 < limit[d] then start[..d] + [start[d] + 1]
        else start
  }

  /** The separator lies in [start, limit), is no longer than the start, and, where it is not the
      start itself, nothing in that interval is shorter. */
  lemma {:induction false} SeparatorSeparates(start: Bytes, limit: Bytes)
    ensures var r := Separator(start, limit);
            && |r| <= |start| && (r == start || (BytesLess(start, r) && BytesLess(r, limit)))
            && (r == start || forall x: Bytes | !BytesLess(x, start) && BytesLess(x, limit) :: |x| >= |r|)
  {
    hide SharedLength;
    var d, r := SharedLength(start, limit), Separator(start, limit);
    if r != start {
      var p := start[..d];
      assert start == p + start[d..] && limit == p + limit[d..] && r == p + [start[d] + 1];
      SamePrefix(p, start[d..], [start[d] + 1]);
      SamePrefix(p, [start[d] + 1], limit[d..]);
      forall x: Bytes | !BytesLess(x, start) && BytesLess(x, limit) ensures |x| > d {
        if |x| <= d {
          BetweenSharesPrefix(p, start[d..], limit[d..], x);
          assert x == p + [];
          SamePrefix(p, [], start[d..]);
        }
      }
    }
  }

  /** What lies between two keys with a common prefix has that prefix. */
  lemma {:induction false} BetweenSharesPrefix(p: Bytes, a: Bytes, b: Bytes, x: Bytes)
    requires !BytesLess(x, p + a) && BytesLess(x, p + b)
    ensures |x| >= |p| && x[..|p|] == p
    decreases p
  {
    if p != [] {
      assert (p + a)[0] == p[0] && (p + a)[1..] == p[1..] + a && (p + b)[1..] == p[1..] + b;
      BetweenSharesPrefix(p[1..], a, b, x[1..]);
      assert p == [p[0]] + p[1..] && x[..|p|] == [x[0]] + x[1..][..|p| - 1];
    }
  }

  ghost predicate Between(start: Bytes, x: Bytes, limit: Bytes) {
    BytesLess(start, x) && BytesLess(x, limit)
  }

  /** It is not the start exactly when the start is not the beginning of the limit, and some string
      between the two, which is not that either, has one byte more than they share; then it is the
      first of those with so many bytes. */
  lemma {:induction false} SeparatorShortens(start: Bytes, limit: Bytes)
    ensures var n, r := SharedLength(start, limit) + 1, Separator(start, limit);
            && (r != start <==>
                !(start <= limit) && exists x: Bytes :: |x| <= n && Between(start, x, limit) && !(x <= limit))
            && (r != start ==>
                && |r| == n && Between(start, r, limit) && !(r <= limit)
                && forall x: Bytes | |x| <= n && Between(start, x, limit) :: !BytesLess(x, r))
  {
    hide SharedLength;
    var d, r := SharedLength(start, limit), Separator(start, limit);
    var p := start[..d];
    SeparatorSeparates(start, limit);
    if r != start {
      assert r[d] != limit[d];
    }
    forall x: Bytes | |x| <= d + 1 && Between(start, x, limit)
      ensures |x| == d + 1 && x[..d] == p && d < |limit| && x[d] <= limit[d] && (d < |start| ==> start[d] < x[d])
      ensures x[d] == limit[d] <==> x <= limit
      ensures r != start ==> !BytesLess(x, r)
    {
      OneByteBetween(start, limit, x);
      assert x == p + [x[d]];
      if r != start {
        assert r == p + [r[d]];
        SamePrefix(p, [x[d]], [r[d]]);
      }
    }
    assert start <= limit <==> d == |start|;
  }

  lemma {:induction false} OneByteBetween(start: Bytes, limit: Bytes, x: Bytes)
    requires |x| <= SharedLength(start, limit) + 1 && Between(start, x, limit)
    ensures var d := SharedLength(start, limit);
            && |x| == d + 1 && x[..d] == start[..d] && d < |limit| && x[d] <= limit[d]
            && (d < |start| ==> start[d] < x[d]) && (x[d] == limit[d] <==> x <= limit)
  {
    hide SharedLength;
    var d := SharedLength(start, limit);
    var p := start[..d];
    assert start == p + start[d..] && limit == p + limit[d..];
    BytesLessAsymmetric(start, x);
    BetweenSharesPrefix(p, start[d..], limit[d..], x);
    var rest := x[d..];
    assert x == p + rest;
    SamePrefix(p, start[d..], rest);
    SamePrefix(p, rest, limit[d..]);
    assert x[..d] == limit[..d];
    assert x <= limit <==> rest <= limit[d..];
  }

  method FindShortestSeparator(start: Bytes, limit: Bytes) returns (r: Bytes)
    ensures r == Separator(start, limit)
  {
    hide SharedLength;
    var minLength := if |start| < |limit| then |start| else |limit|;
    var d := 0;
    while d < minLength && start[d] == limit[d]
      invariant d <= minLength && start[..d] == limit[..d]
    {
      d := d + 1;
    }
    SharedIs(start, limit, d);
    r := start;
    if d < minLength && start[d] < 255 && start[d] + 1 < limit[d] {
      r := r[d := r[d] + 1];
      r := r[..d + 1];
      assert r == start[..d] + [start[d] + 1];
    }
  }

  /** Cut after the first byte that can be made one greater. */
  function Successor(key: Bytes): Bytes {
    if key == [] then []
    else if key[0] != 255 then [key[0] + 1]
    else [key[0]] + Successor(key[1..])
  }

  /** The successor is at least the key, and no longer. */
  lemma {:induction false} SuccessorFollows(key: Bytes)
    ensures |Successor(key)| <= |key| && (Successor(key) == key || BytesLess(key, Successor(key)))
  {
    if key != [] && key[0] == 255 {
      SuccessorFollows(key[1..]);
      assert key == [key[0]] + key[1..];
      assert Successor(key)[1..] == Successor(key[1..]);
    }
  }

  /** It is greater exactly when a string no longer than the key is; then it is shortest among the
      strings that are greater, and the first of those as short. */
  lemma {:induction false} SuccessorShortens(key: Bytes)
    ensures var r := Successor(key);
            && (r != key <==> exists x: Bytes :: |x| <= |key| && BytesLess(key, x))
            && (r != key ==> forall x: Bytes | BytesLess(key, x) && |x| <= |r| :: |x| == |r| && !BytesLess(x, r))
  {
    SuccessorFollows(key);
    NoneShorter(key);
    if Successor(key) != key {
      assert BytesLess(key, Successor(key));
    }
  }

  lemma {:induction false} NoneShorter(key: Bytes)
    ensures forall x: Bytes | BytesLess(key, x) && |x| <= |Successor(key)| ::
        Successor(key) != key && |x| == |Successor(key)| && !BytesLess(x, Successor(key))
  {
    var r := Successor(key);
    forall x: Bytes | BytesLess(key, x) && |x| <= |r| ensures r != key && |x| == |r| && !BytesLess(x, r) {
      if key != [] && key[0] == 255 {
        NoneShorter(key[1..]);
        assert x[0] == 255 && BytesLess(key[1..], x[1..]) && r[1..] == Successor(key[1..]) && r[0] == 255;
        assert key == [key[0]] + key[1..] && r == [r[0]] + r[1..];
      } else if key != [] {
        assert r == [key[0] + 1] && r[1..] == [] && x[1..] == [];
        assert !BytesLess(key[1..], []) && x[0] > key[0];
      }
    }
  }

  method FindShortSuccessor(key: Bytes) returns (r: Bytes)
    ensures r == Successor(key)
  {
    assert key[..0] + Successor(key[0..]) == Successor(key) by {
      assert key[0..] == key;
    }
    for i := 0 to |key|
      invariant key[..i] + Successor(key[i..]) == Successor(key)
    {
      assert key[i..][1..] == key[i + 1..];
      if key[i] != 255 {
        r := key[i := key[i] + 1];
        r := r[..i + 1];
        assert r == key[..i] + [key[i] + 1];
        return;
      }
      assert key[..i + 1] == key[..i] + [key[i]];
    }
    assert key[..|key|] == key;
    r := key;
  }

  // ---------- Internal keys as bytes ----------

  const TAG_SIZE := 8

  const MAX_TAG: nat := MAX_SEQUENCE * 256 + 1

  /** The user key, and the sequence number and type packed into eight bytes. */
  function EncodedKey(user: Bytes, tag: nat): Bytes {
    user + LittleEndian(tag, TAG_SIZE)
  }

  /** Shorter strings are no internal keys; the order puts them somewhere. */
  function UserOf(k: Bytes): Bytes {
    if |k| < TAG_SIZE then k else k[..|k| - TAG_SIZE]
  }

  function TagOf(k: Bytes): nat {
    if |k| < TAG_SIZE then 0 else FromLittleEndian(k[|k| - TAG_SIZE..])
  }

  lemma {:induction false} EncodedKeyParts(user: Bytes, tag: nat)
    requires tag < TWO_64
    ensures |EncodedKey(user, tag)| == |user| + TAG_SIZE && UserOf(EncodedKey(user, tag)) == user
        && TagOf(EncodedKey(user, tag)) == tag
  {
    hide LittleEndian, FromLittleEndian;
    FixedCapacities();
    LittleEndianRoundTrip(tag, TAG_SIZE);
    var k := EncodedKey(user, tag);
    assert k[..|user|] == user && k[|user|..] == LittleEndian(tag, TAG_SIZE);
  }

  /** Increasing user key, then decreasing packed tag. */
  predicate KeyLess(a: Bytes, b: Bytes) {
    BytesLess(UserOf(a), UserOf(b)) || (UserOf(a) == UserOf(b) && TagOf(a) > TagOf(b))
  }

  method CompareKeys(a: Bytes, b: Bytes) returns (r: int)
    ensures r < 0 <==> KeyLess(a, b)
    ensures r > 0 <==> KeyLess(b, a)
  {
    hide TagOf, UserOf;
    BytesLessTotal(UserOf(a), UserOf(b));
    if BytesLess(UserOf(a), UserOf(b)) {
      BytesLessAsymmetric(UserOf(a), UserOf(b));
      r := -1;
    } else if BytesLess(UserOf(b), UserOf(a)) {
      BytesLessAsymmetric(UserOf(b), UserOf(a));
      r := 1;
    } else {
      r := if TagOf(a) > TagOf(b) then -1 else if TagOf(a) < TagOf(b) then 1 else 0;
    }
  }

  lemma {:induction false} KeyLessTransitive(a: Bytes, b: Bytes, c: Bytes)
    requires KeyLess(a, b) && KeyLess(b, c)
    ensures KeyLess(a, c)
  {
    hide BytesLess, UserOf, TagOf;
    if BytesLess(UserOf(a), UserOf(b)) && BytesLess(UserOf(b), UserOf(c)) {
      BytesLessTransitive(UserOf(a), UserOf(b), UserOf(c));
    }
  }

  lemma {:induction false} KeyLessAsymmetric(a: Bytes, b: Bytes)
    requires KeyLess(a, b)
    ensures !KeyLess(b, a)
  {
    hide UserOf, TagOf;
    if BytesLess(UserOf(a), UserOf(b)) {
      BytesLessAsymmetric(UserOf(a), UserOf(b));
    } else {
      if BytesLess(UserOf(a), UserOf(a)) {
        BytesLessAsymmetric(UserOf(a), UserOf(a));
      }
    }
  }

  /** Every key is on one side of the other two. */
  lemma {:induction false} KeyLessSplits(a: Bytes, b: Bytes, c: Bytes)
    requires KeyLess(a, c)
    ensures KeyLess(a, b) || KeyLess(b, c)
  {
    hide BytesLess, UserOf, TagOf;
    BytesLessTotal(UserOf(a), UserOf(b));
    if BytesLess(UserOf(b), UserOf(a)) && BytesLess(UserOf(a), UserOf(c)) {
      BytesLessTransitive(UserOf(b), UserOf(a), UserOf(c));
    }
  }

  // ---------- Short internal keys ----------

  /** Shorten the user key, if it gets greater, and give it the tag that comes first. */
  function Retagged(key: Bytes, user: Bytes): Bytes {
    if |user| < |UserOf(key)| && BytesLess(UserOf(key), user) then EncodedKey(user, MAX_TAG) else key
  }

  function KeySeparator(start: Bytes, limit: Bytes): Bytes {
    Retagged(start, Separator(UserOf(start), UserOf(limit)))
  }

  function KeySuccessor(key: Bytes): Bytes {
    Retagged(key, Successor(UserOf(key)))
  }

  method FindShortestKeySeparator(start: Bytes, limit: Bytes) returns (r: Bytes)
    ensures r == KeySeparator(start, limit)
  {
    hide BytesLess, Separator;
    var short := FindShortestSeparator(UserOf(start), UserOf(limit));
    r := start;
    if |short| < |UserOf(start)| && BytesLess(UserOf(start), short) {
      r := short + LittleEndian(MAX_TAG, TAG_SIZE);
    }
  }

  method FindShortKeySuccessor(key: Bytes) returns (r: Bytes)
    ensures r == KeySuccessor(key)
  {
    hide BytesLess, Successor;
    var short := FindShortSuccessor(UserOf(key));
    r := key;
    if |short| < |UserOf(key)| && BytesLess(UserOf(key), short) {
      r := short + LittleEndian(MAX_TAG, TAG_SIZE);
    }
  }

  /** The separator lies in [start, limit). It is the start, or else its user key is strictly
      between the two: then no version of the limit's user key comes before it. */
  lemma {:induction false} KeySeparatorSeparates(start: Bytes, limit: Bytes)
    requires KeyLess(start, limit)
    ensures var r := KeySeparator(start, limit);
            && (r == start || (BytesLess(UserOf(start), UserOf(r)) && BytesLess(UserOf(r), UserOf(limit))))
            && !KeyLess(r, start) && KeyLess(r, limit) && (|start| >= TAG_SIZE ==> |r| <= |start|)
  {
    hide BytesLess, Separator, UserOf, TagOf, EncodedKey;
    var short := Separator(UserOf(start), UserOf(limit));
    SeparatorSeparates(UserOf(start), UserOf(limit));
    var r := KeySeparator(start, limit);
    if r == start {
      if KeyLess(r, start) {
        KeyLessAsymmetric(r, start);
      }
    } else {
      EncodedKeyParts(short, MAX_TAG);
      UserShorter(start);
      KeyLessAsymmetric(start, r);
    }
  }

  /** The user key is shortened when a shorter one lies between, and gets the tag that comes first. */
  lemma {:induction false} KeySeparatorShortens(start: Bytes, limit: Bytes)
    ensures var u, v, r := UserOf(start), UserOf(limit), KeySeparator(start, limit);
            var n := SharedLength(u, v) + 1;
            && (r != start <==>
                n < |u| && !(u <= v) && exists x: Bytes :: |x| <= n && Between(u, x, v) && !(x <= v))
            && (r != start ==> |UserOf(r)| == n && TagOf(r) == MAX_TAG && Between(u, UserOf(r), v))
  {
    hide BytesLess, Separator, UserOf, TagOf, EncodedKey, SharedLength;
    var u, v := UserOf(start), UserOf(limit);
    SeparatorShortens(u, v);
    SeparatorSeparates(u, v);
    EncodedKeyParts(Separator(u, v), MAX_TAG);
  }

  lemma {:induction false} UserShorter(key: Bytes)
    ensures |key| >= TAG_SIZE ==> |UserOf(key)| + TAG_SIZE == |key|
  {
  }

  lemma {:induction false} KeySuccessorFollows(key: Bytes)
    ensures !KeyLess(KeySuccessor(key), key)
  {
    hide BytesLess, Successor, UserOf, TagOf, EncodedKey;
    var short := Successor(UserOf(key));
    var r := KeySuccessor(key);
    if r == key {
      if KeyLess(r, key) {
        KeyLessAsymmetric(r, key);
      }
    } else {
      EncodedKeyParts(short, MAX_TAG);
      KeyLessAsymmetric(key, r);
    }
  }
}
