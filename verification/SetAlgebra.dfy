/** The operations on uncompressed sets, and what they mean for the members. */
module SetAlgebra {
  import opened Bits
  import opened NodeSets
  import opened SetRoundTrip
  import opened Decoder
  import opened Encoder
  import opened PackedLayout

  /** A canonical set: no trailing zero byte, and only zeros in the buffer behind it. */
  ghost predicate Canonical(s: NodeSet)
    reads s, s.data
  {
    s.Plain() && CanonicalBytes(s.data[..], s.len)
  }

  ghost predicate CanonicalBytes(d: seq<Byte>, len: nat) {
    && len <= |d|
    && (len > 0 ==> d[len - 1] != 0)
    && forall i | len <= i < |d| :: d[i] == 0
  }

  ghost function MemberSet(d: seq<Byte>): set<nat> {
    set loc: nat | loc < 8 * |d| && Member(d, loc)
  }

  /** The members of an uncompressed set. */
  ghost function Members(s: NodeSet): set<nat>
    reads s, s.data
    requires s.len <= s.data.Length
  {
    MemberSet(s.Bytes())
  }

  lemma InMemberSet(d: seq<Byte>, loc: nat)
    ensures loc in MemberSet(d) <==> Member(d, loc)
  {
  }

  lemma MemberIn(d: seq<Byte>, len: nat, loc: nat)
    requires len <= |d| && forall i | len <= i < |d| :: d[i] == 0
    ensures Member(d[..len], loc) == Member(d, loc)
  {
    if loc / 8 >= len && loc / 8 < |d| { BitOfZero(loc % 8); }
  }

  /** A byte that is not zero holds a member. */
  lemma NonZeroMember(d: seq<Byte>, i: nat) returns (loc: nat)
    requires i < |d| && d[i] != 0
    ensures loc / 8 == i && Member(d, loc)
  {
    Pow2Of8();
    var k := SomeBit(d[i], 8);
    loc := 8 * i + k;
  }

  /** A blank set in a buffer. */
  method InitSet(buf: array<Byte>) returns (s: NodeSet)
    modifies buf
    ensures fresh(s) && s.data == buf && Canonical(s) && Members(s) == {}
  {
    s := new NodeSet(buf);
    for i := 0 to buf.Length
      invariant s.Plain() && s.len == 0 && s.data == buf
      invariant forall j | 0 <= j < i :: buf[j] == 0
    {
      buf[i] := 0;
    }
  }

  // ---- insertion, union, difference ---------------------------------------------------------

  method SetBit(s: NodeSet, loc: nat)
    requires Canonical(s) && loc < 0x10000 && loc / 8 < s.data.Length
    modifies s`len, s.data
    ensures Canonical(s)
    ensures Members(s) == old(Members(s)) + {loc}
  {
    ghost var d, n := s.data[..], s.len;
    var b := loc / 8;
    s.data[b] := WithBitByte(s.data[b], loc - 8 * b, true);
    if s.len < loc / 8 + 1 {
      s.len := loc / 8 + 1;
    }
    ghost var d' := s.data[..];
    assert d' == d[b := WithBitByte(d[b], loc % 8, true)];
    BitOfWithBit(d[b], loc % 8, true, loc % 8);
    BitOfZero(loc % 8);
    forall l: nat ensures Member(d'[..s.len], l) <==> Member(d[..n], l) || l == loc {
      MemberIn(d, n, l);
      MemberIn(d', s.len, l);
      BitOfWithBit(d[b], loc % 8, true, l % 8);
    }
  }

  lemma {:induction false} OrNonZero(a: nat, b: nat)
    ensures Or(a, b) == 0 <==> a == 0 && b == 0
    decreases a + b
  {
    if a + b > 0 { OrNonZero(a / 2, b / 2); }
  }

  /** Stores the union in s1.  Bytes of s2 are read up to the longer length. */
  method UnionSets(s1: NodeSet, s2: NodeSet)
    requires Canonical(s1) && Canonical(s2) && s1 != s2 && s1.data != s2.data
    requires s2.len <= s1.data.Length && s1.len <= s2.data.Length
    modifies s1`len, s1.data
    ensures Canonical(s1) && s1.len == if old(s1.len) > s2.len then old(s1.len) else s2.len
    ensures Members(s1) == old(Members(s1)) + Members(s2)
  {
    hide Or, Bit;
    ghost var d, n, e := s1.data[..], s1.len, s2.data[..];
    var maxLen := if s1.len > s2.len then s1.len else s2.len;
    for i := 0 to maxLen
      invariant forall j | 0 <= j < s1.data.Length :: s1.data[j] == if j < i then OrByte(d[j], e[j]) else d[j]
    {
      s1.data[i] := OrByte(s1.data[i], s2.data[i]);
    }
    s1.len := maxLen;
    ghost var d' := s1.data[..];
    if maxLen > 0 { OrNonZero(d[maxLen - 1], e[maxLen - 1]); }
    forall l: nat ensures Member(d'[..maxLen], l) <==> Member(d[..n], l) || Member(e[..s2.len], l) {
      MemberOfUnion(d, n, e, s2.len, d', maxLen, l);
    }
  }

  lemma MemberOfUnion(d: seq<Byte>, n: nat, e: seq<Byte>, m: nat, d': seq<Byte>, len: nat, l: nat)
    requires n <= len <= |d| == |d'| && m <= len <= |e|
    requires (forall i | n <= i < |d| :: d[i] == 0) && (forall i | m <= i < |e| :: e[i] == 0)
    requires forall j | 0 <= j < len :: d'[j] == OrByte(d[j], e[j])
    ensures Member(d'[..len], l) <==> Member(d[..n], l) || Member(e[..m], l)
  {
    hide OrByte;
    MemberIn(d, n, l);
    MemberIn(e, m, l);
    if l / 8 < len { BitOfOr(d[l / 8], e[l / 8], l % 8); } else { BitOfZero(l % 8); }
  }

  /** Stores s1 - s2 in s1. */
  method SubtractSets(s1: NodeSet, s2: NodeSet)
    requires Canonical(s1) && Canonical(s2) && s1 != s2 && s1.data != s2.data
    modifies s1`len, s1.data
    ensures Canonical(s1) && s1.len <= old(s1.len)
    ensures Members(s1) == old(Members(s1)) - Members(s2)
  {
    hide AndNot, Bit;
    ghost var d, n, e, m := s1.data[..], s1.len, s2.data[..], s2.len;
    if s1.len > s2.len {
      for i := 0 to s2.len
        invariant s1.len == n
        invariant forall j | 0 <= j < s1.data.Length :: s1.data[j] == if j < i then AndNotByte(d[j], e[j]) else d[j]
      {
        s1.data[i] := AndNotByte(s1.data[i], s2.data[i]);
      }
    } else {
      var minLen := s1.len;
      s1.len := 0;
      for i := 0 to minLen
        invariant s1.len <= i && (s1.len > 0 ==> s1.data[s1.len - 1] != 0)
        invariant forall j | s1.len <= j < i :: s1.data[j] == 0
        invariant forall j | 0 <= j < s1.data.Length :: s1.data[j] == if j < i then AndNotByte(d[j], e[j]) else d[j]
      {
        s1.data[i] := AndNotByte(s1.data[i], s2.data[i]);
        if s1.data[i] != 0 {
          s1.len := i + 1;
        }
      }
    }
    ghost var d' := s1.data[..];
    forall l: nat ensures Member(d'[..s1.len], l) <==> Member(d[..n], l) && !Member(e[..m], l) {
      MemberOfDifference(d, n, e, m, d', s1.len, l);
    }
  }

  lemma MemberOfDifference(d: seq<Byte>, n: nat, e: seq<Byte>, m: nat, d': seq<Byte>, len: nat, l: nat)
    requires len <= n <= |d| == |d'| && m <= |e|
    requires (forall i | n <= i < |d| :: d[i] == 0) && (forall i | len <= i < |d'| :: d'[i] == 0)
    requires forall j | 0 <= j < |d| :: d'[j] == if j < n && j < m then AndNotByte(d[j], e[j]) else d[j]
    ensures Member(d'[..len], l) <==> Member(d[..n], l) && !Member(e[..m], l)
  {
    hide AndNotByte;
    MemberIn(d', len, l);
    MemberIn(d, n, l);
    if l / 8 < n && l / 8 < m { BitOfAndNot(d[l / 8], e[l / 8], l % 8); }
    if l / 8 >= n { BitOfZero(l % 8); }
  }

  // ---- comparison ------------------------------------------------------------------------------

  /** Is every member of s2 one of s1? */
  method ContainsSet(s1: NodeSet, s2: NodeSet) returns (r: bool)
    requires Canonical(s1) && Canonical(s2)
    ensures r <==> Members(s2) <= Members(s1)
  {
    if s1.len < s2.len {
      var loc := NonZeroMember(s2.Bytes(), s2.len - 1);
      InMemberSet(s2.Bytes(), loc);
      assert loc in Members(s2) && loc !in Members(s1);
      return false;
    }
    for i := 0 to s2.len
      invariant forall j | 0 <= j < i :: OrByte(s1.data[j], s2.data[j]) == s1.data[j]
    {
      if OrByte(s1.data[i], s2.data[i]) != s1.data[i] {
        ghost var loc := MissingMember(s1.Bytes(), s2.Bytes(), i);
        InMemberSet(s2.Bytes(), loc);
        return false;
      }
    }
    forall loc | loc in Members(s2) ensures loc in Members(s1) {
      BitOfOr(s1.data[loc / 8], s2.data[loc / 8], loc % 8);
    }
    return true;
  }

  lemma MissingMember(d: seq<Byte>, e: seq<Byte>, i: nat) returns (loc: nat)
    requires i < |d| && i < |e| && OrByte(d[i], e[i]) != d[i]
    ensures Member(e, loc) && !Member(d, loc)
  {
    Pow2Of8();
    if forall k: nat | k < 8 :: Bit(e[i], k) ==> Bit(d[i], k) {
      forall k: nat | k < 8 ensures Bit(OrByte(d[i], e[i]), k) == Bit(d[i], k) { BitOfOr(d[i], e[i], k); }
      Bits.SameBits(OrByte(d[i], e[i]), d[i], 8);
    }
    var k: nat :| k < 8 && Bit(e[i], k) && !Bit(d[i], k);
    loc := 8 * i + k;
    assert loc / 8 == i && loc % 8 == k;
  }

  /** Canonical sets are equal byte for byte, as SetsEqual compares them, exactly when they
      have the same members. */
  lemma CanonicalEqual(s1: NodeSet, s2: NodeSet)
    requires Canonical(s1) && Canonical(s2)
    ensures s1.Bytes() == s2.Bytes() <==> Members(s1) == Members(s2)
  {
    if Members(s1) == Members(s2) {
      var d, e := s1.Bytes(), s2.Bytes();
      forall loc: nat ensures Member(d, loc) == Member(e, loc) { InMemberSet(d, loc); InMemberSet(e, loc); }
      SameMembersIsSameBytes(d, e);
      assert |d| > 0 ==> ByteAt(d, |d| - 1) == ByteAt(e, |d| - 1);
      assert |e| > 0 ==> ByteAt(d, |e| - 1) == ByteAt(e, |e| - 1);
      forall i | 0 <= i < |d| ensures d[i] == e[i] { assert ByteAt(d, i) == ByteAt(e, i); }
    }
  }

  // ---- counting ----------------------------------------------------------------------------------

  /** Counts the bits of a byte, testing each place in turn. */
  method CountBits(n: Byte) returns (cnt: nat)
    ensures cnt == |BitSet(n, 8)|
  {
    cnt := 0;
    for i := 0 to 8
      invariant cnt == |BitSet(n, i)|
    {
      BitSetStep(n, i);
      if Bit(n, i) {
        cnt := cnt + 1;
      }
    }
  }

  ghost function BitSet(n: Byte, upTo: nat): set<nat> {
    set k: nat | k < upTo && Bit(n, k)
  }

  lemma BitSetStep(n: Byte, k: nat)
    ensures BitSet(n, k + 1) == if Bit(n, k) then BitSet(n, k) + {k} else BitSet(n, k)
    ensures |BitSet(n, k + 1)| == |BitSet(n, k)| + if Bit(n, k) then 1 else 0
  {
    hide Bit;
  }

  /** The members in the first bytes, and up to k bits of the next. */
  ghost function MembersUpTo(d: seq<Byte>, n: nat): set<nat> {
    set loc: nat | loc < n && Member(d, loc)
  }

  lemma UpToStep(d: seq<Byte>, i: nat, k: nat)
    requires i < |d| && k < 8
    ensures MembersUpTo(d, 8 * i + k + 1) ==
              if Bit(d[i], k) then MembersUpTo(d, 8 * i + k) + {8 * i + k} else MembersUpTo(d, 8 * i + k)
    ensures |MembersUpTo(d, 8 * i + k + 1)| == |MembersUpTo(d, 8 * i + k)| + if Bit(d[i], k) then 1 else 0
  {
    hide Bit;
    var loc := 8 * i + k;
    assert loc / 8 == i && loc % 8 == k;
    assert Member(d, loc) == Bit(d[i], k);
  }

  lemma {:induction false} CountByte(d: seq<Byte>, i: nat, k: nat)
    requires i < |d| && k <= 8
    ensures |MembersUpTo(d, 8 * i + k)| == |MembersUpTo(d, 8 * i)| + |BitSet(d[i], k)|
  {
    hide Bit, Member, MembersUpTo;
    if k > 0 {
      hide BitSet;
      CountByte(d, i, k - 1);
      BitSetStep(d[i], k - 1);
      UpToStep(d, i, k - 1);
    } else {
      assert BitSet(d[i], 0) == {};
    }
  }

  /** The number of members, in 16 bits. */
  method SetLength(s: NodeSet) returns (res: nat)
    requires s.Plain()
    ensures res == |Members(s)| % 0x10000
    ensures s.len < 8192 ==> res == |Members(s)|
  {
    res := 0;
    ghost var d := s.Bytes();
    assert MembersUpTo(d, 0) == {};
    for i := 0 to s.len
      invariant res == |MembersUpTo(d, 8 * i)| % 0x10000
      invariant |MembersUpTo(d, 8 * i)| <= 8 * i
    {
      CountByte(d, i, 8);
      BitSetBound(s.data[i], 8);
      var c := CountBits(s.data[i]);
      res := (res + c) % 0x10000;
    }
    assert MembersUpTo(d, 8 * |d|) == MemberSet(d);
  }

  lemma {:induction false} BitSetBound(n: Byte, k: nat)
    ensures |BitSet(n, k)| <= k
  {
    if k > 0 { BitSetBound(n, k - 1); BitSetStep(n, k - 1); } else { assert BitSet(n, 0) == {}; }
  }

  lemma LengthOfUnion(a: set<nat>, b: set<nat>)
    ensures |a + b| == |a - b| + |b|
  {
    assert a + b == (a - b) + b;
  }

  /** Runs union, difference and count together: the counts of `a - b` and of `b` add up to
      that of the union, which is left in `a`. */
  method CountsAddUp(a: NodeSet, b: NodeSet) returns (whole: nat, part: nat, other: nat)
    requires Canonical(a) && Canonical(b) && a != b && a.data != b.data
    requires b.len <= a.data.Length && a.len <= b.data.Length && a.len < 8192 && b.len < 8192
    modifies a`len, a.data
    ensures Canonical(a) && Members(a) == old(Members(a)) + Members(b)
    ensures whole == |Members(a)| && part == |old(Members(a)) - Members(b)| && other == |Members(b)|
    ensures whole == part + other
  {
    hide Members, CanonicalBytes;
    ghost var (m, n) := (Members(a), Members(b));
    LengthOfUnion(m, n);
    part := CountRest(a, b);
    other := SetLength(b);
    UnionSets(a, b);
    whole := SetLength(a);
  }

  method CountRest(a: NodeSet, b: NodeSet) returns (part: nat)
    requires Canonical(a) && Canonical(b) && a.len < 8192
    ensures part == |Members(a) - Members(b)|
  {
    hide Members, CanonicalBytes;
    var rest := CopyOf(a);
    SubtractSets(rest, b);
    part := SetLength(rest);
  }

  method CopyOf(a: NodeSet) returns (s: NodeSet)
    requires Canonical(a) && a.len < 8192
    ensures fresh(s) && fresh(s.data) && Canonical(s) && Members(s) == Members(a) && s.len == a.len
  {
    var buf := new Byte[a.len];
    s := InitSet(buf);
    CopySet(s, a);
    assert s.Bytes() == a.Bytes();
    assert s.len > 0 ==> s.data[s.len - 1] == s.Bytes()[s.len - 1];
  }

  // ---- operations that fall short, and exactly when ------------------------------------------------

  function AndByte(x: Byte, y: Byte): Byte { AndNotByte(x, AndNotByte(x, y)) }

  lemma BitOfAnd(x: Byte, y: Byte, k: nat)
    ensures Bit(AndByte(x, y), k) <==> Bit(x, k) && Bit(y, k)
  {
    BitOfAndNot(x, y, k);
    BitOfAndNot(x, AndNotByte(x, y), k);
  }

  /** Stores an intersection in s1.  When s1 is longer and nothing is shared, its length is
      never set and its upper bytes stay. */
  method IntersectSets(s1: NodeSet, s2: NodeSet)
    requires Canonical(s1) && Canonical(s2) && s1 != s2 && s1.data != s2.data
    modifies s1`len, s1.data
    ensures s1.Plain()
    ensures Members(s1) == if old(s1.len) <= s2.len || old(Members(s1)) * Members(s2) != {}
                           then old(Members(s1)) * Members(s2)
                           else (set l | l in old(Members(s1)) && l / 8 >= s2.len)
    ensures (Members(s1) == old(Members(s1)) * Members(s2)) <==>
              old(s1.len) <= s2.len || old(Members(s1)) * Members(s2) != {}
  {
    ghost var d, n, e, m := s1.data[..], s1.len, s2.data[..], s2.len;
    var minLen := if s1.len > s2.len then s2.len else s1.len;
    ghost var last := 0;
    for i := 0 to minLen
      invariant last <= i && s1.len == if last > 0 then last else n
      invariant last > 0 ==> AndByte(d[last - 1], e[last - 1]) != 0
      invariant forall j | last <= j < i :: AndByte(d[j], e[j]) == 0
      invariant forall j | 0 <= j < s1.data.Length :: s1.data[j] == if j < i then AndByte(d[j], e[j]) else d[j]
    {
      s1.data[i] := AndByte(s1.data[i], s2.data[i]);
      if s1.data[i] != 0 {
        s1.len := i + 1;
        last := i + 1;
      }
    }
    Intersected(d, n, e, m, s1.data[..], s1.len, last);
  }

  lemma Intersected(d: seq<Byte>, n: nat, e: seq<Byte>, m: nat, d': seq<Byte>, len: nat, last: nat)
    requires CanonicalBytes(d, n) && CanonicalBytes(e, m) && |d'| == |d|
    requires last <= n && last <= m && len == (if last > 0 then last else n)
    requires last > 0 ==> AndByte(d[last - 1], e[last - 1]) != 0
    requires forall j | last <= j < n && j < m :: AndByte(d[j], e[j]) == 0
    requires forall j | 0 <= j < |d| :: d'[j] == if j < n && j < m then AndByte(d[j], e[j]) else d[j]
    ensures var (a, b, c) := (MemberSet(d[..n]), MemberSet(e[..m]), MemberSet(d'[..len]));
            && c == (if n <= m || a * b != {} then a * b else set l | l in a && l / 8 >= m)
            && (c == a * b <==> n <= m || a * b != {})
  {
    hide AndByte;
    var (a, b, c) := (MemberSet(d[..n]), MemberSet(e[..m]), MemberSet(d'[..len]));
    forall l: nat | l / 8 < n && l / 8 < m ensures l in a * b <==> Bit(d'[l / 8], l % 8) {
      BitOfAnd(d[l / 8], e[l / 8], l % 8);
    }
    if last > 0 {
      var l := NonZeroMember(d', last - 1);
      assert l in a * b;
      forall l | l in a * b ensures l in c {
        BitOfZero(l % 8);
      }
      assert c == a * b;
    } else {
      forall l: nat ensures l !in a * b { BitOfZero(l % 8); }
      assert a * b == {};
      if n <= m {
        forall l: nat ensures l !in c { BitOfZero(l % 8); }
      } else {
        var l := NonZeroMember(d', n - 1);
        assert l in c;
      }
    }
  }

  /** The membership test misses every bit of the last byte but the lowest. */
  method TestBit(s: NodeSet, loc: nat) returns (r: bool)
    requires s.Plain()
    ensures r <==> loc in Members(s) && (loc % 8 == 0 || loc / 8 + 1 < s.len)
    ensures (r <==> loc in Members(s)) <==> !(loc in Members(s) && loc / 8 + 1 == s.len && loc % 8 != 0)
  {
    InMemberSet(s.Bytes(), loc);
    if (loc + 7) / 8 >= s.len {
      return false;
    }
    r := Bit(s.data[loc / 8], loc % 8);
  }

  /** The empty set comes out as {8}: {8} and {0} share nothing, and the first is longer. */
  lemma NoIntersection()
    ensures CanonicalBytes([0, 1], 2) && CanonicalBytes([1], 1)
    ensures MemberSet([0, 1]) == {8} && MemberSet([1]) == {0}
    ensures var s1 := MemberSet([0, 1]); s1 * {0} == {} && (set l | l in s1 && l / 8 >= 1) == {8}
  {
    forall l: nat ensures Member([0, 1], l) <==> l == 8 {
      BitOfZero(l % 8);
      if l % 8 > 0 { BitOfZero(l % 8 - 1); }
    }
    forall l: nat ensures Member([1], l) <==> l == 0 {
      if l % 8 > 0 { BitOfZero(l % 8 - 1); }
    }
    assert MemberSet([0, 1]) == {8} && MemberSet([1]) == {0};
  }

  /** The test does not find 1 in {1}. */
  lemma MissedBit()
    ensures CanonicalBytes([2], 1) && 1 in MemberSet([2])
    ensures !(1 % 8 == 0 || 1 / 8 + 1 < |[2 as Byte]|)
  {
    assert Bit(2, 1) by { assert Bit(1, 0); }
  }

  /** The next lower place whose bit is set in the buffer, or 0. */
  function NextLower(d: seq<Byte>, loc: nat): (l: nat)
    requires loc / 8 < |d|
    ensures l <= loc && (l != 0 ==> l < loc && Bit(d[l / 8], l % 8))
    ensures forall k: nat | l < k < loc :: !Bit(d[k / 8], k % 8)
  {
    if loc == 0 then 0
    else if Bit(d[(loc - 1) / 8], (loc - 1) % 8) then loc - 1
    else NextLower(d, loc - 1)
  }

  /** The members left when loc is cleared: those up to the byte of the next lower one. */
  ghost function Remaining(d: seq<Byte>, members: set<nat>, loc: nat): set<nat>
    requires loc / 8 < |d|
  {
    set l | l in members && l != loc && l / 8 <= NextLower(d, loc) / 8
  }

  /** Clears a bit, then shortens the set to the byte of the next lower one, or of 0: right
      exactly when no higher member lies behind that byte. */
  method ClearBit(s: NodeSet, loc: nat)
    requires s.Plain() && loc < 0x10000 && loc / 8 < s.data.Length
    modifies s`len, s.data
    ensures s.Plain()
    ensures Members(s) == Remaining(old(s.data[..]), old(Members(s)), loc)
    ensures (Members(s) == old(Members(s)) - {loc}) <==>
              forall l | l in old(Members(s)) && l > loc :: l / 8 <= NextLower(old(s.data[..]), loc) / 8
  {
    hide Bit, WithBitByte, NextLower, MemberSet, Remaining;
    ghost var d, n := s.data[..], s.len;
    MarkBitArray(s.data, 0, loc, false);
    ghost var d' := s.data[..];
    BitsButOne(d, d', loc);
    var at := ScanLeft(s.data, loc);
    LowerIs(d, loc, at);
    if s.len > at / 8 + 1 {
      s.len := at / 8 + 1;
    }
    Cleared(d, d', n, s.len, loc);
    assert s.Bytes() == d'[..s.len] && old(s.Bytes()) == d[..n];
  }

  /** Goes left until it hits a set bit, or 0. */
  method ScanLeft(a: array<Byte>, loc: nat) returns (at: nat)
    requires loc < 0x10000 && loc / 8 < a.Length
    ensures at <= loc && (at > 0 ==> Bit(a[at / 8], at % 8))
    ensures forall l: nat | at < l <= loc :: !Bit(a[l / 8], l % 8)
  {
    hide Bit, ClearAbove;
    at := loc;
    ClearedStep(a[..], loc, loc);
    while at > 0
      invariant at <= loc && ClearAbove(a[..], at, loc)
    {
      var found := TestBitArray(a, 0, at);
      if found { break; }
      ClearedStep(a[..], at, loc);
      at := at - 1;
    }
    ClearedAll(a[..], at, loc);
  }

  /** No place above `at`, up to loc, is set. */
  ghost predicate ClearAbove(d: seq<Byte>, at: nat, loc: nat)
    requires loc / 8 < |d|
  {
    forall l: nat | at < l <= loc :: !Bit(d[l / 8], l % 8)
  }

  lemma ClearedStep(d: seq<Byte>, at: nat, loc: nat)
    requires loc / 8 < |d| && at <= loc
    ensures ClearAbove(d, loc, loc)
    ensures at > 0 && ClearAbove(d, at, loc) && !Bit(d[at / 8], at % 8) ==> ClearAbove(d, at - 1, loc)
  {
    hide Bit;
  }

  lemma ClearedAll(d: seq<Byte>, at: nat, loc: nat)
    requires loc / 8 < |d| && ClearAbove(d, at, loc)
    ensures forall l: nat | at < l <= loc :: !Bit(d[l / 8], l % 8)
  {
  }

  lemma BitsButOne(d: seq<Byte>, d': seq<Byte>, loc: nat)
    requires loc < 0x10000 && loc / 8 < |d|
    requires d' == d[0 + loc % LOC_LIMIT / 8 := WithBitByte(d[0 + loc % LOC_LIMIT / 8], loc % LOC_LIMIT % 8, false)]
    ensures forall l: nat | l / 8 < |d| :: Bit(d'[l / 8], l % 8) <==> Bit(d[l / 8], l % 8) && l != loc
  {
    forall l: nat | l / 8 < |d| ensures Bit(d'[l / 8], l % 8) <==> Bit(d[l / 8], l % 8) && l != loc {
      BitOfWithBit(d[loc / 8], loc % 8, false, l % 8);
    }
  }

  lemma LowerIs(d: seq<Byte>, loc: nat, at: nat)
    requires loc / 8 < |d| && at <= loc && (at != 0 ==> at < loc && Bit(d[at / 8], at % 8))
    requires forall l: nat | at < l < loc :: !Bit(d[l / 8], l % 8)
    ensures at == NextLower(d, loc)
  {
    var l := NextLower(d, loc);
    if l != at { assert false; }
  }

  lemma Cleared(d: seq<Byte>, d': seq<Byte>, n: nat, len: nat, loc: nat)
    requires loc / 8 < |d| == |d'| && n <= |d|
    requires forall l: nat | l / 8 < |d| :: Bit(d'[l / 8], l % 8) <==> Bit(d[l / 8], l % 8) && l != loc
    requires var low := NextLower(d, loc); len == if n > low / 8 + 1 then low / 8 + 1 else n
    ensures var (a, c) := (MemberSet(d[..n]), MemberSet(d'[..len]));
            && c == Remaining(d, a, loc)
            && (c == a - {loc} <==> forall l | l in a && l > loc :: l / 8 <= NextLower(d, loc) / 8)
  {
    var (a, c, low) := (MemberSet(d[..n]), MemberSet(d'[..len]), NextLower(d, loc));
    forall l: nat ensures l in c <==> l in a && l != loc && l / 8 <= low / 8 {
    }
    forall l | l in a && l != loc && l / 8 > low / 8 ensures l > loc && l !in c {
      assert l <= loc ==> low < l;
    }
    if c == a - {loc} {
      forall l | l in a && l > loc ensures l / 8 <= low / 8 {
        assert l in c;
      }
    }
  }

  /** Clearing 5 in {3, 20}, which it is not a member of, leaves {3}. */
  lemma ClearedTooMuch()
    ensures var d: seq<Byte> := [8, 0, 16];
            && CanonicalBytes(d, 3) && MemberSet(d) == {3, 20} && NextLower(d, 5) == 3
            && Remaining(d, MemberSet(d), 5) == {3}
  {
    var d: seq<Byte> := [8, 0, 16];
    forall l: nat ensures Member(d, l) <==> l == 3 || l == 20 {
      if l / 8 < 3 { BitsOfThree(d[l / 8], l % 8); }
    }
    assert MemberSet(d) == {3, 20};
    LowerIs(d, 5, 3);
  }

  lemma BitsOfThree(x: Byte, k: nat)
    requires x == 8 || x == 0 || x == 16
    ensures Bit(x, k) <==> (x == 8 && k == 3) || (x == 16 && k == 4)
  {
    BitOfZero(k);
    assert Pow2(2) == 4;
    BitOfPow2(3, k);
    BitOfPow2(4, k);
  }
}
