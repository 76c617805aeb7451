/**
 Physical keys of the versioned key space: a four-byte header, the key type, the user key, a zero
 separator and the bit-inverted big-endian sequence number of the write.
 */
module MvccKeys {
  import opened Wire

  const V2: byte := 2
  const SEQ_LEN := 8
  const SEP_LEN := 1
  const HEADER: bytes := [V2, 0, 0, 0]
  const TYPE_USER: byte := 1

  // ----- Byte order -----

  /** The sign of x - y. */
  function Sign(x: int, y: int): int {
    if x < y then -1 else if x > y then 1 else 0
  }

  /** bytes.Compare: lexicographic. */
  function CompareBytes(a: bytes, b: bytes): int {
    if |a| == 0 then (if |b| == 0 then 0 else -1)
    else if |b| == 0 then 1
    else if a[0] != b[0] then Sign(a[0], b[0])
    else CompareBytes(a[1..], b[1..])
  }

  lemma {:induction false} CompareEqual(a: bytes, b: bytes)
    ensures CompareBytes(a, b) == 0 <==> a == b
    decreases |a|
  {
    if |a| > 0 && |b| > 0 {
      CompareEqual(a[1..], b[1..]);
      assert a == [a[0]] + a[1..] && b == [b[0]] + b[1..];
    }
  }

  lemma {:induction false} CompareFlips(a: bytes, b: bytes)
    ensures CompareBytes(b, a) == -CompareBytes(a, b)
    decreases |a|
  {
    if |a| > 0 && |b| > 0 {
      CompareFlips(a[1..], b[1..]);
    }
  }

  lemma {:induction false} CompareTransitive(a: bytes, b: bytes, c: bytes)
    requires CompareBytes(a, b) <= 0 && CompareBytes(b, c) <= 0
    ensures CompareBytes(a, c) <= 0 && (CompareBytes(a, c) == 0 ==> CompareBytes(a, b) == 0 && CompareBytes(b, c) == 0)
    decreases |a|
  {
    if |a| > 0 && |b| > 0 && |c| > 0 {
      if a[0] == b[0] == c[0] {
        CompareTransitive(a[1..], b[1..], c[1..]);
      }
    }
  }

  /** A common front does not matter. */
  lemma {:induction false} CompareAfter(front: bytes, a: bytes, b: bytes)
    ensures CompareBytes(front + a, front + b) == CompareBytes(a, b)
    decreases |front|
  {
    if |front| == 0 {
      assert front + a == a && front + b == b;
    } else {
      assert (front + a)[1..] == front[1..] + a && (front + b)[1..] == front[1..] + b;
      CompareAfter(front[1..], a, b);
    }
  }

  /** For strings of one length, the ends only matter when the fronts agree. */
  lemma {:induction false} CompareFronts(a: bytes, b: bytes, x: bytes, y: bytes)
    requires |a| == |b|
    ensures CompareBytes(a + x, b + y) == if a == b then CompareBytes(x, y) else CompareBytes(a, b)
    decreases |a|
  {
    if a == b {
      CompareAfter(a, x, y);
    } else {
      assert (a + x)[1..] == a[1..] + x && (b + y)[1..] == b[1..] + y;
      assert a == [a[0]] + a[1..] && b == [b[0]] + b[1..];
      CompareFronts(a[1..], b[1..], x, y);
    }
  }

  // ----- Sequence numbers -----

  function Pow256(n: nat): nat {
    if n == 0 then 1 else 256 * Pow256(n - 1)
  }

  /** binary.BigEndian, `n` bytes wide. */
  function BigEndian(v: nat, n: nat): (b: bytes)
    ensures |b| == n
  {
    if n == 0 then [] else BigEndian(v / 256, n - 1) + [v % 256]
  }

  function FromBigEndian(b: bytes): (v: nat)
    ensures v < Pow256(|b|)
  {
    if |b| == 0 then 0 else FromBigEndian(b[..|b| - 1]) * 256 + b[|b| - 1]
  }

  lemma {:induction false} FromBigEndianOfBigEndian(v: nat, n: nat)
    requires v < Pow256(n)
    ensures FromBigEndian(BigEndian(v, n)) == v
  {
    if n > 0 {
      FromBigEndianOfBigEndian(v / 256, n - 1);
      var b := BigEndian(v, n);
      assert b[..n - 1] == BigEndian(v / 256, n - 1);
    }
  }

  lemma {:induction false} BigEndianOrder(x: nat, y: nat, n: nat)
    requires x < Pow256(n) && y < Pow256(n)
    ensures CompareBytes(BigEndian(x, n), BigEndian(y, n)) == Sign(x, y)
  {
    if n > 0 {
      BigEndianOrder(x / 256, y / 256, n - 1);
      var a, b := BigEndian(x / 256, n - 1), BigEndian(y / 256, n - 1);
      CompareEqual(a, b);
      CompareFronts(a, b, [x % 256], [y % 256]);
      assert CompareBytes([x % 256], [y % 256]) == Sign(x % 256, y % 256);
    }
  }

  function Inverted(b: bytes): (r: bytes)
    ensures |r| == |b| && forall i :: 0 <= i < |b| ==> r[i] == 255 - b[i]
  {
    seq(|b|, i requires 0 <= i < |b| => 255 - b[i])
  }

  lemma {:induction false} InvertedComplements(v: nat, n: nat)
    requires v < Pow256(n)
    ensures Inverted(BigEndian(v, n)) == BigEndian(Pow256(n) - 1 - v, n)
  {
    if n > 0 {
      InvertedComplements(v / 256, n - 1);
      var w := Pow256(n) - 1 - v;
      assert w / 256 == Pow256(n - 1) - 1 - v / 256 && w % 256 == 255 - v % 256;
      assert Inverted(BigEndian(v, n)) == Inverted(BigEndian(v / 256, n - 1)) + [255 - v % 256];
    }
  }

  lemma SeqnoRange()
    ensures Pow256(8) == TWO_64
  {
    assert Pow256(4) == 0x1_0000_0000;
    assert Pow256(8) == 256 * (256 * (256 * (256 * Pow256(4))));
  }

  /** The stored form of a sequence number. */
  function StoredSeqno(s: uint64): (b: bytes)
    ensures |b| == SEQ_LEN
  {
    Inverted(BigEndian(s, SEQ_LEN))
  }

  lemma StoredSeqnoIs(s: uint64)
    ensures StoredSeqno(s) == BigEndian(TWO_64 - 1 - s, SEQ_LEN)
  {
    SeqnoRange();
    InvertedComplements(s, SEQ_LEN);
  }

  /** Higher sequence numbers sort first. */
  lemma StoredSeqnoOrder(s: uint64, t: uint64)
    ensures CompareBytes(StoredSeqno(s), StoredSeqno(t)) == Sign(t, s)
  {
    SeqnoRange();
    StoredSeqnoIs(s);
    StoredSeqnoIs(t);
    BigEndianOrder(TWO_64 - 1 - s, TWO_64 - 1 - t, SEQ_LEN);
  }

  /** The sequence number in the last eight bytes of a key. */
  function SeqnoOf(key: bytes): uint64
    requires |key| >= SEQ_LEN
  {
    SeqnoRange();
    FromBigEndian(Inverted(key[|key| - SEQ_LEN..]))
  }

  method DecodeV2Seqno(key: bytes) returns (s: uint64)
    requires |key| >= SEQ_LEN
    ensures s == SeqnoOf(key)
  {
    var buf := new byte[SEQ_LEN](i requires 0 <= i < SEQ_LEN => key[|key| - SEQ_LEN + i]);
    var i := 0;
    while i < buf.Length
      invariant 0 <= i <= buf.Length
      invariant forall k :: 0 <= k < i ==> buf[k] == 255 - key[|key| - SEQ_LEN + k]
      invariant forall k :: i <= k < buf.Length ==> buf[k] == key[|key| - SEQ_LEN + k]
    {
      buf[i] := 255 - buf[i];
      i := i + 1;
    }
    SeqnoRange();
    assert buf[..] == Inverted(key[|key| - SEQ_LEN..]);
    s := FromBigEndian(buf[..]);
  }

  lemma InvertedTwice(b: bytes)
    ensures Inverted(Inverted(b)) == b
  {
  }

  /** Decoding gives back every 64-bit sequence number, whatever stands in front of it. */
  lemma SeqnoRoundTrip(front: bytes, s: uint64)
    ensures SeqnoOf(front + StoredSeqno(s)) == s
  {
    var key := front + StoredSeqno(s);
    assert key[|key| - SEQ_LEN..] == StoredSeqno(s);
    InvertedTwice(BigEndian(s, SEQ_LEN));
    SeqnoRange();
    FromBigEndianOfBigEndian(s, SEQ_LEN);
  }

  // ----- Physical keys -----

  /** keyContainsNullByte. */
  predicate NullFree(k: bytes) {
    0 !in k
  }

  /** Everything but the sequence number. */
  function Prefix(t: byte, u: bytes): bytes {
    HEADER + [t] + u + [0]
  }

  function Physical(t: byte, u: bytes, s: uint64): bytes {
    Prefix(t, u) + StoredSeqno(s)
  }

  /** A user key in front of the separator: the separator is below every byte of a null-free key. */
  lemma {:induction false} CompareTerminated(u: bytes, v: bytes, x: bytes, y: bytes)
    requires NullFree(u) && NullFree(v)
    ensures CompareBytes(u + [0] + x, v + [0] + y) == if u == v then CompareBytes(x, y) else CompareBytes(u, v)
    decreases |u|
  {
    if u == v {
      CompareAfter(u + [0], x, y);
    } else if |u| == 0 {
      assert (u + [0] + x)[0] == 0 && (v + [0] + y)[0] == v[0] && v[0] in v;
    } else if |v| == 0 {
      assert (v + [0] + y)[0] == 0 && (u + [0] + x)[0] == u[0] && u[0] in u;
    } else {
      assert u == [u[0]] + u[1..] && v == [v[0]] + v[1..];
      assert (u + [0] + x)[1..] == u[1..] + [0] + x && (v + [0] + y)[1..] == v[1..] + [0] + y;
      if u[0] == v[0] {
        CompareTerminated(u[1..], v[1..], x, y);
      }
    }
  }

  lemma PhysicalParts(t: byte, u: bytes, s: uint64)
    ensures |Physical(t, u, s)| == |u| + 14 && Physical(t, u, s)[0] == V2
  {
  }

  /** Strings behind prefixes: key type first, then user key, then the rest. */
  lemma PrefixOrder(t: byte, u: bytes, x: bytes, t': byte, u': bytes, y: bytes)
    requires NullFree(u) && NullFree(u')
    ensures CompareBytes(Prefix(t, u) + x, Prefix(t', u') + y) ==
      if t != t' then Sign(t, t') else if u != u' then CompareBytes(u, u') else CompareBytes(x, y)
  {
    var a, b := u + [0] + x, u' + [0] + y;
    assert Prefix(t, u) + x == HEADER + ([t] + a) && Prefix(t', u') + y == HEADER + ([t'] + b);
    CompareAfter(HEADER, [t] + a, [t'] + b);
    CompareFronts([t], [t'], a, b);
    CompareTerminated(u, u', x, y);
  }

  /** Byte order of physical keys: key type, then user key, then sequence number from high to low. */
  lemma PhysicalOrder(t: byte, u: bytes, s: uint64, t': byte, u': bytes, s': uint64)
    requires NullFree(u) && NullFree(u')
    ensures CompareBytes(Physical(t, u, s), Physical(t', u', s')) ==
      if t != t' then Sign(t, t') else if u != u' then CompareBytes(u, u') else Sign(s', s)
  {
    PrefixOrder(t, u, StoredSeqno(s), t', u', StoredSeqno(s'));
    StoredSeqnoOrder(s, s');
  }

  /** Different versions have different keys. */
  lemma PhysicalInjective(t: byte, u: bytes, s: uint64, t': byte, u': bytes, s': uint64)
    requires Physical(t, u, s) == Physical(t', u', s')
    ensures t == t' && u == u' && s == s'
  {
    var k := Physical(t, u, s);
    PhysicalParts(t, u, s);
    PhysicalParts(t', u', s');
    assert k[4] == t && k[4] == t';
    assert k[5..|k| - 9] == u && k[5..|k| - 9] == u';
    SeqnoRoundTrip(Prefix(t, u), s);
    SeqnoRoundTrip(Prefix(t', u'), s');
  }

  lemma {:induction false} ZerosSortFirst(a: bytes, b: bytes)
    requires |a| < |b| && forall i :: 0 <= i < |a| ==> a[i] == 0
    ensures CompareBytes(a, b) < 0
    decreases |a|
  {
    if |a| > 0 {
      ZerosSortFirst(a[1..], b[1..]);
    }
  }

  lemma {:induction false} ZeroBytes(n: nat)
    ensures forall i :: 0 <= i < n ==> BigEndian(0, n)[i] == 0
  {
    if n > 0 {
      ZeroBytes(n - 1);
    }
  }

  lemma NewestIsStoredAsZeros(newest: bytes)
    requires newest == StoredSeqno(TWO_64 - 1)
    ensures forall i :: 0 <= i < |newest| ==> newest[i] == 0
  {
    StoredSeqnoIs(TWO_64 - 1);
    ZeroBytes(SEQ_LEN);
  }

  lemma NullByteSortsBetween(x: bytes)
    requires |x| == SEQ_LEN + 1 && x[0] == 0
    ensures CompareBytes(StoredSeqno(TWO_64 - 1), x) < 0 && CompareBytes(x, StoredSeqno(0)) < 0
  {
    NewestIsStoredAsZeros(StoredSeqno(TWO_64 - 1));
    ZerosSortFirst(StoredSeqno(TWO_64 - 1), x);
    assert StoredSeqno(0)[0] == 255;
  }

  /**
   With a null byte allowed, the order breaks at every user key: its extension by a null byte is above it, and yet
   all versions of the extension sort between its newest version and its oldest.
   */
  lemma NullBytesBreakOrder(t: byte, u: bytes, s: uint64)
    ensures CompareBytes(u, u + [0]) < 0
    ensures CompareBytes(Physical(t, u, TWO_64 - 1), Physical(t, u + [0], s)) < 0
    ensures CompareBytes(Physical(t, u + [0], s), Physical(t, u, 0)) < 0
  {
    assert u + [] == u;
    CompareAfter(u, [], [0]);
    var x := [0] + StoredSeqno(s);
    assert Physical(t, u + [0], s) == Prefix(t, u) + x;
    NullByteSortsBetween(x);
    CompareAfter(Prefix(t, u), StoredSeqno(TWO_64 - 1), x);
    CompareAfter(Prefix(t, u), x, StoredSeqno(0));
  }

  // ----- Splitting -----

  /** The length of the part of a key that all versions share. */
  function Split(b: bytes): (n: nat)
    ensures n <= |b|
  {
    if |b| > SEQ_LEN + SEP_LEN + 5 && b[0] == V2 then |b| - SEQ_LEN else |b|
  }

  /** The comparer on split keys: prefixes first, then suffixes. */
  function CompareSplit(a: bytes, b: bytes): int {
    var c := CompareBytes(a[..Split(a)], b[..Split(b)]);
    if c != 0 then c else CompareBytes(a[Split(a)..], b[Split(b)..])
  }

  /** What split leaves in the prefix beyond the shared part: nothing, but everything for the empty user key. */
  function Kept(u: bytes, s: uint64): bytes {
    if |u| == 0 then StoredSeqno(s) else []
  }

  lemma SplitOfPhysical(t: byte, u: bytes, s: uint64)
    ensures var k := Physical(t, u, s); k[..Split(k)] == Prefix(t, u) + Kept(u, s)
    ensures var k := Physical(t, u, s); k[Split(k)..] == if |u| == 0 then [] else StoredSeqno(s)
  {
    PhysicalParts(t, u, s);
  }

  /** Comparing split keys agrees with comparing whole keys. */
  lemma SplitAgrees(t: byte, u: bytes, s: uint64, t': byte, u': bytes, s': uint64)
    requires NullFree(u) && NullFree(u')
    ensures CompareSplit(Physical(t, u, s), Physical(t', u', s')) ==
      CompareBytes(Physical(t, u, s), Physical(t', u', s'))
  {
    SplitOfPhysical(t, u, s);
    SplitOfPhysical(t', u', s');
    PrefixOrder(t, u, StoredSeqno(s), t', u', StoredSeqno(s'));
    PrefixOrder(t, u, Kept(u, s), t', u', Kept(u', s'));
    CompareEqual(u, u');
  }

  /** Keys that share a split prefix are exactly the versions of one user key. */
  lemma SamePrefixIsSameKey(t: byte, u: bytes, s: uint64, t': byte, u': bytes, s': uint64)
    requires |u| > 0 && |u'| > 0
    ensures var a, b := Physical(t, u, s), Physical(t', u', s'); a[..Split(a)] == b[..Split(b)] <==> t == t' && u == u'
  {
    SplitOfPhysical(t, u, s);
    SplitOfPhysical(t', u', s');
    if Prefix(t, u) + [] == Prefix(t', u') + [] {
      var p := Prefix(t, u);
      assert p[4] == t && p[4] == t';
      assert p[5..|p| - 1] == u && p[5..|p| - 1] == u';
    }
  }

  /** Two versions of one user key share a split prefix if and only if the user key is not empty. */
  lemma VersionsShareAPrefix(t: byte, u: bytes, s: uint64, s': uint64)
    requires s != s'
    ensures var a, b := Physical(t, u, s), Physical(t, u, s'); a[..Split(a)] == b[..Split(b)] <==> |u| > 0
  {
    SplitOfPhysical(t, u, s);
    SplitOfPhysical(t, u, s');
    if |u| == 0 && Physical(t, u, s) == Physical(t, u, s') {
      PhysicalInjective(t, u, s, t, u, s');
      assert false;
    }
  }
}
