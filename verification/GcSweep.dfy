/**
 The garbage collection sweep: one pass over the physical keys that a filtered scan returns, at most one
 range deletion per user key, and a jump over the rest of that user key's versions.
 */
module GcSweep {
  import opened Wire
  import opened MvccKeys
  import opened BlockFilter

  datatype Cell = Live(value: bytes) | Tombstone

  /** A range deletion [lo, hi). */
  datatype Range = Range(lo: bytes, hi: bytes)

  predicate Covers(r: Range, k: bytes) {
    CompareBytes(r.lo, k) <= 0 && CompareBytes(k, r.hi) < 0
  }

  // ----- Decoding keys -----

  function TypeOf(k: bytes): byte
    requires |k| >= 14
  {
    k[4]
  }

  function UserOf(k: bytes): bytes
    requires |k| >= 14
  {
    k[5..|k| - 9]
  }

  function PrefixOf(k: bytes): bytes
    requires |k| >= 14
  {
    k[..|k| - SEQ_LEN]
  }

  /** A key the table's writers produce. */
  predicate WellFormed(k: bytes) {
    |k| >= 14 && NullFree(UserOf(k)) && k == Physical(TypeOf(k), UserOf(k), SeqnoOf(k))
  }

  lemma PhysicalDecodes(t: byte, u: bytes, s: uint64)
    requires NullFree(u)
    ensures var k := Physical(t, u, s);
      WellFormed(k) && TypeOf(k) == t && UserOf(k) == u && SeqnoOf(k) == s && PrefixOf(k) == Prefix(t, u)
  {
    PhysicalParts(t, u, s);
    SeqnoRoundTrip(Prefix(t, u), s);
  }

  type Key = k: bytes | WellFormed(k) witness (PhysicalDecodes(TYPE_USER, [], 0); Physical(TYPE_USER, [], 0))

  /** The physical keys of a table with what they hold. */
  type Table = map<Key, Cell>

  lemma WellFormedParts(k: Key)
    ensures PrefixOf(k) == Prefix(TypeOf(k), UserOf(k)) && k == PrefixOf(k) + StoredSeqno(SeqnoOf(k))
  {
    PhysicalDecodes(TypeOf(k), UserOf(k), SeqnoOf(k));
  }

  lemma SamePrefix(a: Key, b: Key)
    ensures PrefixOf(a) == PrefixOf(b) <==> TypeOf(a) == TypeOf(b) && UserOf(a) == UserOf(b)
  {
    WellFormedParts(a);
    WellFormedParts(b);
    if PrefixOf(a) == PrefixOf(b) {
      var p := PrefixOf(a);
      assert p[4] == TypeOf(a) && p[4] == TypeOf(b);
      assert p[5..|p| - 1] == UserOf(a) && p[5..|p| - 1] == UserOf(b);
    }
  }

  /** Versions of one user key lie next to each other. */
  lemma Between(a: Key, b: Key, c: Key)
    requires CompareBytes(a, b) < 0 && CompareBytes(b, c) < 0 && PrefixOf(a) == PrefixOf(c)
    ensures PrefixOf(b) == PrefixOf(a)
  {
    SamePrefix(a, c);
    SamePrefix(a, b);
    PhysicalOrder(TypeOf(a), UserOf(a), SeqnoOf(a), TypeOf(b), UserOf(b), SeqnoOf(b));
    PhysicalOrder(TypeOf(b), UserOf(b), SeqnoOf(b), TypeOf(c), UserOf(c), SeqnoOf(c));
    CompareFlips(UserOf(a), UserOf(b));
    CompareEqual(UserOf(a), UserOf(b));
  }

  // ----- Ranges -----

  /** gcPrefixUpper: the separator becomes 0x01. */
  function Upper(prefix: bytes): bytes
    requires |prefix| > 0
  {
    prefix[|prefix| - 1 := 1]
  }

  /** incrementStoredSeqno: the stored number plus one, modulo 2^64. */
  function IncrementStored(k: bytes): bytes
    requires |k| >= SEQ_LEN
  {
    SeqnoRange();
    k[..|k| - SEQ_LEN] + BigEndian((FromBigEndian(k[|k| - SEQ_LEN..]) + 1) % TWO_64, SEQ_LEN)
  }

  /** The next lower sequence number; below zero it wraps around to the highest. */
  function Below(s: uint64): uint64 {
    if s == 0 then TWO_64 - 1 else s - 1
  }

  lemma IncrementStoredIsNext(t: byte, u: bytes, s: uint64)
    ensures IncrementStored(Physical(t, u, s)) == Physical(t, u, Below(s))
  {
    var k := Physical(t, u, s);
    assert k[|k| - SEQ_LEN..] == StoredSeqno(s) && k[..|k| - SEQ_LEN] == Prefix(t, u);
    NextStored(s);
  }

  lemma NextStored(s: uint64)
    ensures FromBigEndian(StoredSeqno(s)) == TWO_64 - 1 - s
    ensures BigEndian((TWO_64 - 1 - s + 1) % TWO_64, SEQ_LEN) == StoredSeqno(Below(s))
  {
    SeqnoRange();
    StoredSeqnoIs(s);
    FromBigEndianOfBigEndian(TWO_64 - 1 - s, SEQ_LEN);
    StoredSeqnoIs(Below(s));
    WrapAround(s);
  }

  lemma WrapAround(s: uint64)
    ensures (TWO_64 - 1 - s + 1) % TWO_64 == TWO_64 - 1 - Below(s)
  {
  }

  /** A terminated key against another key followed by 0x01. */
  lemma {:induction false} CompareToUpper(v: bytes, y: bytes, u: bytes)
    requires NullFree(u) && NullFree(v)
    ensures CompareBytes(v + [0] + y, u + [1]) == if u == v then -1 else CompareBytes(v, u)
    decreases |u|
  {
    var a, b := v + [0] + y, u + [1];
    if |v| == 0 {
      assert a[0] == 0 && b[0] > 0 by {
        assert |u| > 0 ==> b[0] == u[0] && u[0] in u;
      }
    } else if |u| == 0 {
      assert v[0] in v && a[0] == v[0] && b[0] == 1;
      assert |a[1..]| > 0 && |b[1..]| == 0;
    } else {
      assert a[0] == v[0] && b[0] == u[0] && a[1..] == v[1..] + [0] + y && b[1..] == u[1..] + [1];
      assert u == [u[0]] + u[1..] && v == [v[0]] + v[1..];
      if u[0] == v[0] {
        CompareToUpper(v[1..], y, u[1..]);
      }
    }
  }

  lemma UpperOrder(t: byte, u: bytes, t': byte, u': bytes, s': uint64)
    requires NullFree(u) && NullFree(u')
    ensures CompareBytes(Physical(t', u', s'), Upper(Prefix(t, u))) ==
      if t != t' then Sign(t', t) else if u != u' then CompareBytes(u', u) else -1
  {
    var y := StoredSeqno(s');
    var a, b := u' + [0] + y, u + [1];
    assert Physical(t', u', s') == HEADER + ([t'] + a);
    assert Upper(Prefix(t, u)) == HEADER + ([t] + b);
    CompareAfter(HEADER, [t'] + a, [t] + b);
    CompareFronts([t'], [t], a, b);
    CompareToUpper(u', y, u);
  }

  /**
   The keys from a version up to the upper bound of its prefix are that version and the older ones, of that user key
   alone.
   */
  lemma RangeIsVersions(t: byte, u: bytes, c: uint64, k: Key)
    requires NullFree(u)
    ensures Covers(Range(Physical(t, u, c), Upper(Prefix(t, u))), k) <==>
      TypeOf(k) == t && UserOf(k) == u && SeqnoOf(k) <= c
  {
    PhysicalOrder(t, u, c, TypeOf(k), UserOf(k), SeqnoOf(k));
    UpperOrder(t, u, TypeOf(k), UserOf(k), SeqnoOf(k));
    CompareFlips(u, UserOf(k));
    CompareEqual(u, UserOf(k));
  }

  // ----- What the sweep deletes -----

  ghost predicate Scan(table: Table, visited: seq<Key>) {
    Sorted(visited) && (forall k :: k in visited ==> k in table)
  }

  /** An earlier key of the scan with the same prefix, at or above the horizon. */
  ghost predicate LiveAbove(visited: seq<Key>, gcIndex: uint64, i: nat)
    requires i < |visited|
  {
    exists j :: 0 <= j < i && PrefixOf(visited[j]) == PrefixOf(visited[i]) && SeqnoOf(visited[j]) >= gcIndex
  }

  /** The newest version below the horizon of its user key. */
  ghost predicate FirstOld(visited: seq<Key>, gcIndex: uint64, i: int)
  {
    && 0 <= i < |visited| && TypeOf(visited[i]) == TYPE_USER && SeqnoOf(visited[i]) < gcIndex
    && forall j :: 0 <= j < i && PrefixOf(visited[j]) == PrefixOf(visited[i]) ==> SeqnoOf(visited[j]) >= gcIndex
  }

  /**
   The newest sequence number that goes: the newest old version itself if something newer was seen or it is a
   tombstone, else the next one.
   */
  ghost function Cut(table: Table, visited: seq<Key>, gcIndex: uint64, i: nat): uint64
    requires i < |visited| && Scan(table, visited)
  {
    var k := visited[i];
    if LiveAbove(visited, gcIndex, i) || table[k].Tombstone? then SeqnoOf(k) else Below(SeqnoOf(k))
  }

  ghost function RangeAt(table: Table, visited: seq<Key>, gcIndex: uint64, i: nat): Range
    requires i < |visited| && Scan(table, visited)
  {
    var k := visited[i];
    Range(Physical(TypeOf(k), UserOf(k), Cut(table, visited, gcIndex, i)), Upper(PrefixOf(k)))
  }

  lemma RangeAtCovers(table: Table, visited: seq<Key>, gcIndex: uint64, i: nat, k: Key)
    requires i < |visited| && Scan(table, visited)
    ensures Covers(RangeAt(table, visited, gcIndex, i), k) <==>
      TypeOf(k) == TypeOf(visited[i]) && UserOf(k) == UserOf(visited[i])
        && SeqnoOf(k) <= Cut(table, visited, gcIndex, i)
  {
    WellFormedParts(visited[i]);
    RangeIsVersions(TypeOf(visited[i]), UserOf(visited[i]), Cut(table, visited, gcIndex, i), k);
  }

  ghost predicate Emitted(table: Table, visited: seq<Key>, gcIndex: uint64, n: nat, r: Range)
    requires Scan(table, visited)
  {
    exists i :: 0 <= i < n && FirstOld(visited, gcIndex, i) && r == RangeAt(table, visited, gcIndex, i)
  }

  /** What the loop has deleted after `n` keys. */
  ghost predicate EmittedAll(table: Table, visited: seq<Key>, gcIndex: uint64, n: nat, ranges: seq<Range>)
    requires Scan(table, visited)
  {
    && (forall r :: r in ranges ==> Emitted(table, visited, gcIndex, n, r))
    && (forall i :: 0 <= i < n && FirstOld(visited, gcIndex, i) ==> RangeAt(table, visited, gcIndex, i) in ranges)
  }

  /** User keys seen before `n` are not met again, but for the last prefix. */
  ghost predicate Left(visited: seq<Key>, n: nat, last: bytes)
  {
    forall i, j ::
      0 <= i < n <= j < |visited| && TypeOf(visited[i]) == TYPE_USER && PrefixOf(visited[i]) == PrefixOf(visited[j]) ==>
      PrefixOf(visited[i]) == last
  }

  lemma LeftStep(table: Table, visited: seq<Key>, n: nat, last: bytes)
    requires Scan(table, visited) && n < |visited| && Left(visited, n, last)
    ensures Left(visited, n + 1, if TypeOf(visited[n]) == TYPE_USER then PrefixOf(visited[n]) else last)
  {
    forall i, j | 0 <= i < n + 1 <= j < |visited| && TypeOf(visited[i]) == TYPE_USER
      && PrefixOf(visited[i]) == PrefixOf(visited[j])
      ensures PrefixOf(visited[i]) == if TypeOf(visited[n]) == TYPE_USER then PrefixOf(visited[n]) else last
    {
      if i < n {
        Between(visited[i], visited[n], visited[j]);
        SamePrefix(visited[i], visited[n]);
      }
    }
  }

  ghost predicate SeenAbove(visited: seq<Key>, gcIndex: uint64, n: nat, prefix: bytes) {
    exists j :: 0 <= j < n && j < |visited| && PrefixOf(visited[j]) == prefix && SeqnoOf(visited[j]) >= gcIndex
  }

  /** User keys with an old version before `n` are not met again. */
  ghost predicate OldGone(visited: seq<Key>, gcIndex: uint64, n: nat) {
    forall i, j :: 0 <= i < n <= j < |visited| && TypeOf(visited[i]) == TYPE_USER && SeqnoOf(visited[i]) < gcIndex ==>
      PrefixOf(visited[i]) != PrefixOf(visited[j])
  }

  /** What holds whenever the loop is at key `n`. */
  ghost predicate AtKey(table: Table, visited: seq<Key>, gcIndex: uint64, n: nat, last: bytes, above: bool,
                        ranges: seq<Range>)
    requires Scan(table, visited)
  {
    && n <= |visited| && EmittedAll(table, visited, gcIndex, n, ranges)
    && Left(visited, n, last) && OldGone(visited, gcIndex, n) && (above <==> SeenAbove(visited, gcIndex, n, last))
  }

  /** Nothing is deleted for a key that is not the newest old version. */
  lemma NotEmitted(table: Table, visited: seq<Key>, gcIndex: uint64, n: nat, m: nat, ranges: seq<Range>)
    requires Scan(table, visited) && EmittedAll(table, visited, gcIndex, n, ranges) && n <= m
    requires forall i :: n <= i < m ==> !FirstOld(visited, gcIndex, i)
    ensures EmittedAll(table, visited, gcIndex, m, ranges)
  {
    forall r | r in ranges
      ensures Emitted(table, visited, gcIndex, m, r)
    {
      var i :| 0 <= i < n && FirstOld(visited, gcIndex, i) && r == RangeAt(table, visited, gcIndex, i);
    }
  }

  lemma EmittedStays(table: Table, visited: seq<Key>, gcIndex: uint64, n: nat, m: nat, r: Range)
    requires Scan(table, visited) && Emitted(table, visited, gcIndex, n, r) && n <= m
    ensures Emitted(table, visited, gcIndex, m, r)
  {
    var i :| 0 <= i < n && FirstOld(visited, gcIndex, i) && r == RangeAt(table, visited, gcIndex, i);
    assert i < m;
  }

  lemma EmitOne(table: Table, visited: seq<Key>, gcIndex: uint64, n: nat, ranges: seq<Range>)
    requires Scan(table, visited) && EmittedAll(table, visited, gcIndex, n, ranges) && FirstOld(visited, gcIndex, n)
    ensures EmittedAll(table, visited, gcIndex, n + 1, ranges + [RangeAt(table, visited, gcIndex, n)])
  {
    var last := RangeAt(table, visited, gcIndex, n);
    assert Emitted(table, visited, gcIndex, n + 1, last);
    forall r | r in ranges + [last]
      ensures Emitted(table, visited, gcIndex, n + 1, r)
    {
      if r in ranges {
        EmittedStays(table, visited, gcIndex, n, n + 1, r);
      }
    }
  }

  lemma OtherTypeStep(table: Table, visited: seq<Key>, gcIndex: uint64, n: nat, last: bytes, above: bool,
                      ranges: seq<Range>)
    requires Scan(table, visited) && AtKey(table, visited, gcIndex, n, last, above, ranges)
    requires n < |visited| && TypeOf(visited[n]) != TYPE_USER && LastIsUser(last)
    ensures AtKey(table, visited, gcIndex, n + 1, last, above, ranges)
  {
    LeftStep(table, visited, n, last);
    NotEmitted(table, visited, gcIndex, n, n + 1, ranges);
    WellFormedParts(visited[n]);
    assert PrefixOf(visited[n])[4] == TypeOf(visited[n]);
  }

  /** The remembered prefix is empty or that of a user key. */
  ghost predicate LastIsUser(last: bytes) {
    |last| > 4 ==> last[4] == TYPE_USER
  }

  /** On meeting a new prefix, nothing of it has been seen. */
  lemma NewPrefix(table: Table, visited: seq<Key>, gcIndex: uint64, n: nat, last: bytes, above: bool,
                  ranges: seq<Range>)
    requires Scan(table, visited) && AtKey(table, visited, gcIndex, n, last, above, ranges)
    requires n < |visited| && TypeOf(visited[n]) == TYPE_USER
    ensures var prefix := PrefixOf(visited[n]);
      AtKey(table, visited, gcIndex, n, prefix, if last == prefix then above else false, ranges) && LastIsUser(prefix)
  {
    var prefix := PrefixOf(visited[n]);
    WellFormedParts(visited[n]);
    assert prefix[4] == TYPE_USER;
    if last != prefix {
      forall i, j | 0 <= i < n <= j < |visited| && TypeOf(visited[i]) == TYPE_USER
        ensures PrefixOf(visited[i]) != PrefixOf(visited[j])
      {
        if PrefixOf(visited[i]) == PrefixOf(visited[j]) {
          if n < j {
            Between(visited[i], visited[n], visited[j]);
          }
          assert false;
        }
      }
      if j :| 0 <= j < n && PrefixOf(visited[j]) == prefix && SeqnoOf(visited[j]) >= gcIndex {
        SamePrefix(visited[j], visited[n]);
        assert false;
      }
    }
  }

  lemma NewerStep(table: Table, visited: seq<Key>, gcIndex: uint64, n: nat, last: bytes, above: bool,
                  ranges: seq<Range>)
    requires Scan(table, visited) && AtKey(table, visited, gcIndex, n, last, above, ranges)
    requires n < |visited| && TypeOf(visited[n]) == TYPE_USER && last == PrefixOf(visited[n])
    requires SeqnoOf(visited[n]) >= gcIndex
    ensures AtKey(table, visited, gcIndex, n + 1, last, true, ranges)
  {
    LeftStep(table, visited, n, last);
    NotEmitted(table, visited, gcIndex, n, n + 1, ranges);
  }

  /** From the newest old version on, the keys below the upper bound are older versions of the same user key. */
  ghost predicate Skipped(visited: seq<Key>, n: nat, m: nat) {
    n < m <= |visited| && forall j :: n <= j < m ==>
      PrefixOf(visited[j]) == PrefixOf(visited[n]) && SeqnoOf(visited[j]) <= SeqnoOf(visited[n])
  }

  lemma SkipOne(table: Table, visited: seq<Key>, n: nat, m: nat)
    requires Scan(table, visited) && Skipped(visited, n, m) && m < |visited|
    requires CompareBytes(visited[m], Upper(PrefixOf(visited[n]))) < 0
    ensures Skipped(visited, n, m + 1)
  {
    var k := visited[n];
    WellFormedParts(k);
    RangeIsVersions(TypeOf(k), UserOf(k), SeqnoOf(k), visited[m]);
    SamePrefix(visited[m], k);
  }

  /** Beyond the jump the user key is not met again. */
  lemma SkippedAll(table: Table, visited: seq<Key>, n: nat, m: nat)
    requires Scan(table, visited) && Skipped(visited, n, m)
    requires m < |visited| ==> CompareBytes(visited[m], Upper(PrefixOf(visited[n]))) >= 0
    ensures forall j :: m <= j < |visited| ==> PrefixOf(visited[j]) != PrefixOf(visited[n])
  {
    forall j | m <= j < |visited|
      ensures PrefixOf(visited[j]) != PrefixOf(visited[n])
    {
      if PrefixOf(visited[j]) == PrefixOf(visited[n]) {
        if m < j {
          Between(visited[n], visited[m], visited[j]);
        }
        var a, b := visited[n], visited[m];
        SamePrefix(a, b);
        WellFormedParts(a);
        UpperOrder(TypeOf(a), UserOf(a), TypeOf(b), UserOf(b), SeqnoOf(b));
        assert false;
      }
    }
  }

  /** At an old key whose user key has no old version before it. */
  lemma IsFirstOld(table: Table, visited: seq<Key>, gcIndex: uint64, n: nat)
    requires Scan(table, visited) && n < |visited| && OldGone(visited, gcIndex, n)
    requires TypeOf(visited[n]) == TYPE_USER && SeqnoOf(visited[n]) < gcIndex
    ensures FirstOld(visited, gcIndex, n)
  {
    forall i | 0 <= i < n && PrefixOf(visited[i]) == PrefixOf(visited[n])
      ensures SeqnoOf(visited[i]) >= gcIndex
    {
      SamePrefix(visited[i], visited[n]);
    }
  }

  /** No user key is deleted from twice. */
  ghost predicate OnePerKey(ranges: seq<Range>) {
    forall i, j :: 0 <= i < j < |ranges| ==> ranges[i].hi != ranges[j].hi
  }

  lemma UpperTellsPrefixes(a: Key, b: Key)
    requires Upper(PrefixOf(a)) == Upper(PrefixOf(b))
    ensures PrefixOf(a) == PrefixOf(b)
  {
    WellFormedParts(a);
    WellFormedParts(b);
    var p, q := PrefixOf(a), PrefixOf(b);
    assert p == Upper(p)[|p| - 1 := 0] && q == Upper(q)[|q| - 1 := 0];
  }

  lemma NewUpper(table: Table, visited: seq<Key>, gcIndex: uint64, n: nat, ranges: seq<Range>, r: Range)
    requires Scan(table, visited) && EmittedAll(table, visited, gcIndex, n, ranges) && FirstOld(visited, gcIndex, n)
    requires r in ranges
    ensures r.hi != Upper(PrefixOf(visited[n]))
  {
    assert Emitted(table, visited, gcIndex, n, r);
    var i :| 0 <= i < n && FirstOld(visited, gcIndex, i) && r == RangeAt(table, visited, gcIndex, i);
    if r.hi == Upper(PrefixOf(visited[n])) {
      UpperTellsPrefixes(visited[i], visited[n]);
      assert false;
    }
  }

  lemma StillOnePerKey(table: Table, visited: seq<Key>, gcIndex: uint64, n: nat, ranges: seq<Range>, r: Range)
    requires Scan(table, visited) && EmittedAll(table, visited, gcIndex, n, ranges) && FirstOld(visited, gcIndex, n)
    requires OnePerKey(ranges) && r.hi == Upper(PrefixOf(visited[n]))
    ensures OnePerKey(ranges + [r])
  {
    forall i | 0 <= i < |ranges|
      ensures ranges[i].hi != r.hi
    {
      NewUpper(table, visited, gcIndex, n, ranges, ranges[i]);
    }
  }

  lemma OldStep(table: Table, visited: seq<Key>, gcIndex: uint64, n: nat, m: nat, last: bytes, above: bool,
                ranges: seq<Range>)
    requires Scan(table, visited) && AtKey(table, visited, gcIndex, n, last, above, ranges) && Skipped(visited, n, m)
    requires TypeOf(visited[n]) == TYPE_USER && last == PrefixOf(visited[n]) && SeqnoOf(visited[n]) < gcIndex
    requires forall j :: m <= j < |visited| ==> PrefixOf(visited[j]) != PrefixOf(visited[n])
    ensures AtKey(table, visited, gcIndex, m, last, above, ranges + [RangeAt(table, visited, gcIndex, n)])
  {
    IsFirstOld(table, visited, gcIndex, n);
    EmitOne(table, visited, gcIndex, n, ranges);
    NotEmitted(table, visited, gcIndex, n + 1, m, ranges + [RangeAt(table, visited, gcIndex, n)]);
  }

  lemma EmittedRange(table: Table, visited: seq<Key>, gcIndex: uint64, n: nat, above: bool)
    requires Scan(table, visited) && n < |visited| && (above <==> SeenAbove(visited, gcIndex, n, PrefixOf(visited[n])))
    ensures RangeAt(table, visited, gcIndex, n) ==
      Range(if above || table[visited[n]].Tombstone? then visited[n] else IncrementStored(visited[n]),
            Upper(PrefixOf(visited[n])))
  {
    var k := visited[n];
    IncrementStoredIsNext(TypeOf(k), UserOf(k), SeqnoOf(k));
  }

  lemma AtStart(table: Table, visited: seq<Key>, gcIndex: uint64)
    requires Scan(table, visited)
    ensures AtKey(table, visited, gcIndex, 0, [], false, [])
    ensures gcIndex == 0 ==> EmittedAll(table, visited, gcIndex, |visited|, [])
  {
  }

  /** The old version at `n`: its range deletion and the jump behind it. */
  method DeleteOld(table: Table, visited: seq<Key>, gcIndex: uint64, n: nat, hasLiveAbove: bool,
                   ghost ranges: seq<Range>) returns (r: Range, m: nat)
    requires Scan(table, visited) && n < |visited| && TypeOf(visited[n]) == TYPE_USER && SeqnoOf(visited[n]) < gcIndex
    requires AtKey(table, visited, gcIndex, n, PrefixOf(visited[n]), hasLiveAbove, ranges) && OnePerKey(ranges)
    ensures n < m && AtKey(table, visited, gcIndex, m, PrefixOf(visited[n]), hasLiveAbove, ranges + [r])
    ensures OnePerKey(ranges + [r])
  {
    var k := visited[n];
    var upper := Upper(PrefixOf(k));
    var lo := if hasLiveAbove || table[k].Tombstone? then k else IncrementStored(k);
    r := Range(lo, upper);
    m := SeekGE(table, visited, n, upper);
    IsFirstOld(table, visited, gcIndex, n);
    StillOnePerKey(table, visited, gcIndex, n, ranges, r);
    EmittedRange(table, visited, gcIndex, n, hasLiveAbove);
    OldStep(table, visited, gcIndex, n, m, PrefixOf(k), hasLiveAbove, ranges);
  }

  /** runGC over the keys of the scan: exactly one range deletion for each newest old version. */
  method RunGC(table: Table, visited: seq<Key>, gcIndex: uint64) returns (ranges: seq<Range>)
    requires Scan(table, visited)
    ensures EmittedAll(table, visited, gcIndex, |visited|, ranges) && OnePerKey(ranges)
  {
    ranges := [];
    AtStart(table, visited, gcIndex);
    if gcIndex == 0 {
      return;
    }
    var lastPrefix: bytes, hasLiveAbove := [], false;
    var n := 0;
    while n < |visited|
      invariant AtKey(table, visited, gcIndex, n, lastPrefix, hasLiveAbove, ranges)
      invariant LastIsUser(lastPrefix) && OnePerKey(ranges)
    {
      var k := visited[n];
      if TypeOf(k) != TYPE_USER {
        OtherTypeStep(table, visited, gcIndex, n, lastPrefix, hasLiveAbove, ranges);
        n := n + 1;
        continue;
      }
      var prefix := PrefixOf(k);
      NewPrefix(table, visited, gcIndex, n, lastPrefix, hasLiveAbove, ranges);
      if lastPrefix != prefix {
        lastPrefix := prefix;
        hasLiveAbove := false;
      }
      if SeqnoOf(k) >= gcIndex {
        NewerStep(table, visited, gcIndex, n, lastPrefix, hasLiveAbove, ranges);
        hasLiveAbove := true;
        n := n + 1;
        continue;
      }
      var r, m := DeleteOld(table, visited, gcIndex, n, hasLiveAbove, ranges);
      ranges := ranges + [r];
      n := m;
    }
  }

  /** iter.SeekGE(upper), from the newest old version of a prefix. */
  method SeekGE(table: Table, visited: seq<Key>, n: nat, upper: bytes) returns (m: nat)
    requires Scan(table, visited) && n < |visited| && upper == Upper(PrefixOf(visited[n]))
    ensures Skipped(visited, n, m)
    ensures forall j :: m <= j < |visited| ==> PrefixOf(visited[j]) != PrefixOf(visited[n])
  {
    m := n + 1;
    while m < |visited| && CompareBytes(visited[m], upper) < 0
      invariant Skipped(visited, n, m)
    {
      SkipOne(table, visited, n, m);
      m := m + 1;
    }
    SkippedAll(table, visited, n, m);
  }
}
