/** The decoder, the size oracle for its output buffer, and the trimming of trailing zeros. */
module Decoder {
  import opened Bits
  import opened RunLength
  import opened PackedLayout
  import opened NodeSets

  // ---- trimming ------------------------------------------------------------------------

  /** Bytes up to and including the last one that is not zero. */
  function Significant(d: seq<Byte>): (n: nat)
    ensures n <= |d|
    ensures n > 0 ==> d[n - 1] != 0
    ensures forall i | n <= i < |d| :: d[i] == 0
  {
    if d == [] then 0 else if d[|d| - 1] != 0 then |d| else Significant(d[..|d| - 1])
  }

  /** An all-zero set keeps its length. */
  function Trimmed(d: seq<Byte>): (n: nat)
    ensures n <= |d|
  {
    if Significant(d) == 0 then |d| else Significant(d)
  }

  lemma SignificantIs(d: seq<Byte>, n: nat)
    requires n <= |d| && forall i | n <= i < |d| :: d[i] == 0
    requires n == 0 || d[n - 1] != 0
    ensures Significant(d) == n
  {
  }

  /** Trimming says nothing of zeros alone, and leaves off nothing else. */
  ghost predicate IsTrimmed(d: seq<Byte>, n: nat) {
    && n <= |d| && (forall i | n <= i < |d| :: d[i] == 0)
    && if forall i | 0 <= i < |d| :: d[i] == 0 then n == |d| else n > 0 && d[n - 1] != 0
  }

  lemma TrimmedIs(d: seq<Byte>)
    ensures IsTrimmed(d, Trimmed(d))
  {
  }

  /** An all-zero set keeps its length; of any other the zero bytes at the end are cut off. */
  method TrimSet(s: NodeSet)
    requires s.len < LEN_LIMIT && s.len <= s.data.Length
    modifies s`len
    ensures s.compressed ==> s.len == old(s.len)
    ensures !s.compressed && (forall i | 0 <= i < old(s.len) :: s.data[i] == 0) ==> s.len == old(s.len)
    ensures !s.compressed && !(forall i | 0 <= i < old(s.len) :: s.data[i] == 0) ==>
              && 0 < s.len <= old(s.len) && s.data[s.len - 1] != 0
              && forall i | s.len <= i < old(s.len) :: s.data[i] == 0
    ensures s.len == if s.compressed then old(s.len) else Trimmed(old(s.Bytes()))
  {
    if s.compressed { return; }
    ghost var d := s.Bytes();
    TrimmedIs(d);
    var i: nat := (s.len + 0xFFFF) % 0x10000;
    while i != 0xFFFF
      invariant i == 0xFFFF || i < s.len
      invariant s.len == |d| && s.len <= s.data.Length && s.data[..s.len] == d
      invariant forall j | (if i == 0xFFFF then 0 else i + 1) <= j < |d| :: d[j] == 0
      decreases if i == 0xFFFF then 0 else i + 1
    {
      if s.data[i] != 0 {
        s.len := i + 1;
        SignificantIs(d, i + 1);
        return;
      }
      i := (i + 0xFFFF) % 0x10000;
    }
    SignificantIs(d, 0);
  }

  // ---- writing nibbles -------------------------------------------------------------------

  /** The output cursor counts bytes in 16 bits: behind the last it starts again at the first. */
  const CURSOR_LIMIT := 0x1_0000

  /** The nibbles of d begin with u. */
  ghost predicate Written(d: seq<Byte>, u: seq<Nibble>) {
    && |u| <= 2 * |d|
    && forall i | 0 <= i < |u| :: Half(d[i / 2], i % 2) == u[i]
  }

  /** There is a byte wherever the cursor comes in `count` nibbles. */
  predicate InReach(count: nat, room: nat) { (count + 1) / 2 <= room || CURSOR_LIMIT <= room }

  /** Writing u over and over the bytes that the cursor reaches leaves the last nibble that came
      to each place, but for the half that the last byte begun was cleared of. */
  ghost predicate Overwritten(d: seq<Byte>, u: seq<Nibble>) {
    && InReach(|u|, |d|)
    && forall i | 0 <= i < |u| && |u| + |u| % 2 <= i + 2 * CURSOR_LIMIT ::
         Half(d[i / 2 % CURSOR_LIMIT], i % 2) == u[i]
  }

  /** While the cursor does not start again, nothing is overwritten. */
  lemma WrittenOnce(d: seq<Byte>, u: seq<Nibble>)
    requires Overwritten(d, u) && |u| <= 2 * CURSOR_LIMIT
    ensures Written(d, u)
  {
    hide Half;
    assert |u| + |u| % 2 <= 2 * CURSOR_LIMIT;
    forall i | 0 <= i < |u| ensures Half(d[i / 2], i % 2) == u[i] {
      assert i / 2 % CURSOR_LIMIT == i / 2;
    }
  }

  /** After an odd number of nibbles the other half of the last byte is zero. */
  predicate CleanTail(d: seq<Byte>, count: nat)
    requires InReach(count, |d|)
  {
    count % 2 == 1 ==> Half(d[count / 2 % CURSOR_LIMIT], 1) == 0
  }

  /** Two bytes of the output that fall on the same place are a whole round apart. */
  lemma RoundApart(i: nat, j: nat)
    requires i < j && i % CURSOR_LIMIT == j % CURSOR_LIMIT
    ensures i + CURSOR_LIMIT <= j
  {
  }

  lemma OneMoreNibble(d: seq<Byte>, u: seq<Nibble>, b: nat, h: nat, x: Byte, n: Nibble)
    requires Overwritten(d, u) && InReach(|u| + 1, |d|)
    requires h == |u| % 2 && b == |u| / 2 % CURSOR_LIMIT && b < |d|
    requires h == 1 ==> x == d[b]
    ensures Overwritten(d[b := WithHalf(x, h, n)], u + [n])
    ensures (h == 0 ==> x == 0) ==> CleanTail(d[b := WithHalf(x, h, n)], |u| + 1)
  {
    hide WithHalf, Half;
    var d' := d[b := WithHalf(x, h, n)];
    forall i | 0 <= i < |u| + 1 && |u| + 1 + (|u| + 1) % 2 <= i + 2 * CURSOR_LIMIT
      ensures Half(d'[i / 2 % CURSOR_LIMIT], i % 2) == (u + [n])[i]
    {
      if i < |u| {
        KeptNibble(d, u, b, h, x, n, i);
      }
    }
    HalfOfZero();
  }

  lemma KeptNibble(d: seq<Byte>, u: seq<Nibble>, b: nat, h: nat, x: Byte, n: Nibble, i: nat)
    requires Overwritten(d, u) && InReach(|u| + 1, |d|)
    requires h == |u| % 2 && b == |u| / 2 % CURSOR_LIMIT && b < |d|
    requires h == 1 ==> x == d[b]
    requires i < |u| && |u| + 1 + (|u| + 1) % 2 <= i + 2 * CURSOR_LIMIT
    ensures i / 2 % CURSOR_LIMIT < |d| && Half(d[b := WithHalf(x, h, n)][i / 2 % CURSOR_LIMIT], i % 2) == u[i]
  {
    hide WithHalf, Half;
    assert Half(d[i / 2 % CURSOR_LIMIT], i % 2) == u[i];
    if i / 2 % CURSOR_LIMIT == b {
      if i / 2 < |u| / 2 { RoundApart(i / 2, |u| / 2); }
      assert h == 1 && i % 2 == 0;
    }
  }

  lemma HalfOfZero() ensures Half(0, 0) == 0 && Half(0, 1) == 0 { }

  /** Put one nibble at the output cursor and move it.  Writing a low half clears the byte
      first, except while the superskip is unravelled. */
  method Emit(a: array<Byte>, uncByte: nat, uncHalf: nat, n: Nibble, clear: bool, ghost u: seq<Nibble>)
    returns (nextByte: nat, nextHalf: nat)
    requires Overwritten(a[..], u) && InReach(|u| + 1, a.Length)
    requires uncByte == |u| / 2 % CURSOR_LIMIT && uncHalf == |u| % 2
    modifies a
    ensures Overwritten(a[..], u + [n])
    ensures nextByte == (|u| + 1) / 2 % CURSOR_LIMIT && nextHalf == (|u| + 1) % 2
    ensures clear ==> CleanTail(a[..], |u| + 1)
    ensures forall i | uncByte < i < a.Length :: a[i] == old(a[i])
    ensures uncByte < a.Length && (!clear && uncHalf == 0 ==> Half(a[uncByte], 1) == old(Half(a[uncByte], 1)))
  {
    hide Overwritten, CleanTail, Half;
    ghost var d := a[..];
    if uncHalf == 0 {
      if clear { a[uncByte] := 0; }
      OneMoreNibble(d, u, uncByte, 0, a[uncByte], n);
      a[uncByte] := WithHalf(a[uncByte], 0, n);
      assert a[..] == d[uncByte := a[uncByte]];
      nextByte, nextHalf := uncByte, 1;
    } else {
      OneMoreNibble(d, u, uncByte, 1, a[uncByte], n);
      a[uncByte] := WithHalf(a[uncByte], 1, n);
      assert a[..] == d[uncByte := a[uncByte]];
      nextByte, nextHalf := (uncByte + 1) % CURSOR_LIMIT, 0;
    }
  }

  // ---- decoding ------------------------------------------------------------------------------

  lemma FlattenStep(es: seq<Entry>, q: nat)
    requires q < |es|
    ensures Flatten(es[..q + 1]) == Flatten(es[..q]) + Expand(es[q])
    ensures |Flatten(es[..q + 1])| <= |Flatten(es)|
  {
    assert es[..q + 1][..q] == es[..q];
    assert es == es[..q + 1] + es[q + 1..];
    FlattenConcat(es[..q + 1], es[q + 1..]);
  }

  lemma FlattenAll(es: seq<Entry>)
    ensures Flatten(es[..0]) == [] && es[..|es|] == es
  {
    assert es[..0] == [];
  }

  ghost function SkipNibbles(p: Packed): seq<Nibble> {
    match p.skip case NoSkip => [] case Skip(bit, count) => Repeat(SpanOf(bit), count)
  }

  /** Number of bytes the nibbles of p fill. */
  ghost function UnpackedBytes(p: Packed): nat { (|Unpack(p)| + 1) / 2 }

  /** The other half of a last odd byte: zero once an entry was written, else what was there. */
  ghost predicate Tail(d: seq<Byte>, was: seq<Byte>, head: seq<Nibble>, body: seq<Nibble>) {
    && |d| == |was| && InReach(|head + body|, |d|)
    && var at := |head + body| / 2 % CURSOR_LIMIT;
       (|head + body| % 2 == 1 ==> Half(d[at], 1) == if body == [] then Half(was[at], 1) else 0)
  }

  /** The nibbles a superskip header stands for; the bytes are not cleared first. */
  method Unravel(a: array<Byte>, bit: bool, count: nat) returns (uncByte: nat, uncHalf: nat)
    requires (count + 1) / 2 <= a.Length && count <= MAX_SUPERSKIP
    modifies a
    ensures uncByte == count / 2 && uncHalf == count % 2
    ensures Overwritten(a[..], Repeat(SpanOf(bit), count))
    ensures Tail(a[..], old(a[..]), Repeat(SpanOf(bit), count), [])
  {
    hide Half, Overwritten;
    ghost var was := a[..];
    uncByte, uncHalf := 0, 0;
    var fill := if bit then 15 else 0;
    NothingWritten(a[..]);
    assert Repeat(fill, 0) == [];
    for j := 0 to count
      invariant uncByte == j / 2 && uncHalf == j % 2
      invariant Overwritten(a[..], Repeat(fill, j))
      invariant forall i | (j + 1) / 2 <= i < a.Length :: a[i] == was[i]
      invariant j % 2 == 1 ==> Half(a[j / 2], 1) == Half(was[j / 2], 1)
    {
      assert Repeat(fill, j) + [fill] == Repeat(fill, j + 1);
      uncByte, uncHalf := Emit(a, uncByte, uncHalf, fill, false, Repeat(fill, j));
    }
    assert Repeat(fill, count) + [] == Repeat(fill, count);
  }

  lemma NothingWritten(d: seq<Byte>)
    ensures Overwritten(d, [])
  {
  }

  /** The nibbles of one slot. */
  method EmitEntry(a: array<Byte>, uncByte: nat, uncHalf: nat, mark: bool, cur: Nibble,
                   ghost head: seq<Nibble>, ghost body: seq<Nibble>, ghost was: seq<Byte>)
    returns (nextByte: nat, nextHalf: nat)
    requires uncByte == |head + body| / 2 % CURSOR_LIMIT && uncHalf == |head + body| % 2
    requires Overwritten(a[..], head + body) && Tail(a[..], was, head, body)
    requires InReach(|head + (body + Expand(SlotEntry(mark, cur)))|, a.Length)
    modifies a
    ensures var body' := body + Expand(SlotEntry(mark, cur));
            && nextByte == |head + body'| / 2 % CURSOR_LIMIT && nextHalf == |head + body'| % 2
            && Overwritten(a[..], head + body') && Tail(a[..], was, head, body')
  {
    hide Half, Overwritten;
    nextByte, nextHalf := uncByte, uncHalf;
    if mark {
      var aBit, aCnt := cur % 2 == 1, cur / 2;
      var n: Nibble := if aBit then 15 else 0;
      assert body + Repeat(n, 0) == body;
      for i := 0 to aCnt
        invariant nextByte == |head + (body + Repeat(n, i))| / 2 % CURSOR_LIMIT
        invariant nextHalf == |head + (body + Repeat(n, i))| % 2
        invariant Overwritten(a[..], head + (body + Repeat(n, i))) && Tail(a[..], was, head, body + Repeat(n, i))
      {
        assert (head + (body + Repeat(n, i))) + [n] == head + (body + Repeat(n, i + 1));
        nextByte, nextHalf := Emit(a, nextByte, nextHalf, n, true, head + (body + Repeat(n, i)));
      }
    } else {
      assert (head + body) + [cur] == head + (body + [cur]);
      nextByte, nextHalf := Emit(a, nextByte, nextHalf, cur, true, head + body);
    }
  }

  /** Decoding p stays inside that many bytes. */
  ghost predicate Fits(p: Packed, room: nat) { InReach(|Unpack(p)|, room) }

  /** The outcome of decoding p over the bytes `was`: the nibbles of p, in order, and the
      length cut to 14 bits and then trimmed. */
  ghost predicate Decoded(d: seq<Byte>, was: seq<Byte>, p: Packed, len: nat) {
    && |d| == |was| && Fits(p, |d|)
    && Overwritten(d, Unpack(p)) && Tail(d, was, SkipNibbles(p), Flatten(p.entries))
    && len == Trimmed(d[..UnpackedBytes(p) % LEN_LIMIT])
  }

  /** A packed form of at most 65536 bytes is decoded nibble for nibble. */
  lemma DecodedOnce(d: seq<Byte>, was: seq<Byte>, p: Packed, len: nat)
    requires Decoded(d, was, p, len) && UnpackedBytes(p) <= CURSOR_LIMIT
    ensures UnpackedBytes(p) <= |d| == |was| && Written(d, Unpack(p))
    ensures var at := |Unpack(p)| / 2;
            |Unpack(p)| % 2 == 1 ==> Half(d[at], 1) == if Flatten(p.entries) == [] then Half(was[at], 1) else 0
    ensures len == Trimmed(d[..UnpackedBytes(p) % LEN_LIMIT])
  {
    hide Half, Overwritten, Trimmed;
    WrittenOnce(d, Unpack(p));
  }

  /** The last byte of the output that falls on place j, if it is not the last of all. */
  lemma LastOnPlace(t: nat, j: nat) returns (k: nat)
    requires j + 1 < t % LEN_LIMIT
    ensures k < t - 1 && t <= k + CURSOR_LIMIT && k % CURSOR_LIMIT == j
  {
    var x, round := t / LEN_LIMIT, t / LEN_LIMIT / 4;
    assert t == x * LEN_LIMIT + t % LEN_LIMIT && 4 * round <= x <= 4 * round + 3;
    k := round * CURSOR_LIMIT + j;
  }

  /** A packed form of nothing but zeros keeps all of its length, as far as 14 bits hold it. */
  lemma BlankDecoded(d: seq<Byte>, was: seq<Byte>, p: Packed, len: nat)
    requires Decoded(d, was, p, len)
    requires forall i | 0 <= i < |Unpack(p)| :: Unpack(p)[i] == 0
    ensures len == UnpackedBytes(p) % LEN_LIMIT
  {
    hide Unpack, Half, Trimmed, Flatten;
    var (v, t) := (Unpack(p), UnpackedBytes(p));
    var w := t % LEN_LIMIT;
    TrimmedIs(d[..w]);
    forall j: nat | j < w - 1 ensures d[..w][j] == 0 {
      var k := LastOnPlace(t, j);
      BlankPlace(d, v, k);
    }
  }

  lemma BlankPlace(d: seq<Byte>, u: seq<Nibble>, k: nat)
    requires Overwritten(d, u) && 2 * k + 1 < |u| && (|u| + 1) / 2 <= k + CURSOR_LIMIT
    requires u[2 * k] == u[2 * k + 1] == 0
    ensures k % CURSOR_LIMIT < |d| && d[k % CURSOR_LIMIT] == 0
  {
    hide Half;
    assert 2 * k / 2 == k && 2 * k % 2 == 0 && (2 * k + 1) / 2 == k && (2 * k + 1) % 2 == 1;
    ZeroByte(d[k % CURSOR_LIMIT]);
  }

  lemma ZeroByte(b: Byte)
    ensures Half(b, 0) == 0 && Half(b, 1) == 0 <==> b == 0
  {
  }

  method DecompressSet(cs: NodeSet, s: NodeSet)
    requires cs != s && cs.data != s.data
    requires cs.Plain() || cs.Packed()
    requires cs.Packed() ==> Fits(cs.Reading(), s.data.Length)
    requires cs.Plain() ==> cs.len <= s.data.Length
    modifies s, s.data
    ensures s.Plain()
    ensures cs.Plain() ==> s.Bytes() == cs.Bytes()
    ensures cs.Packed() ==> Decoded(s.data[..], old(s.data[..]), cs.Reading(), s.len)
  {
    hide Decoded, Fits, ReadSlots, HeaderBit, HeaderCount;
    if !cs.compressed {
      CopySet(s, cs);
    } else {
      Decode(cs, s);
    }
  }

  method Decode(cs: NodeSet, s: NodeSet)
    requires cs != s && cs.data != s.data && cs.Packed()
    requires Fits(cs.Reading(), s.data.Length)
    modifies s, s.data
    ensures s.Plain() && !s.superSkip
    ensures Decoded(s.data[..], old(s.data[..]), cs.Reading(), s.len)
  {
    hide Decoding, Decoded, UnpackedBytes, Fits, ReadSlots, HeaderBit, HeaderCount, Trimmed, Overwritten, Tail, Unpack;
    ghost var p, was := cs.Reading(), s.data[..];
    s.compressed := false;
    s.superSkip := false;
    var uncByte: nat, uncHalf: nat := 0, 0;
    var compIndex := 0;
    SkipFits(p, s.data.Length);
    NothingWritten(s.data[..]);
    NoTail(s.data[..]);
    if cs.superSkip {
      compIndex := 2;
      uncByte, uncHalf := Unravel(s.data, HeaderBit(cs.data[..]), HeaderCount(cs.data[..]));
    }
    DecodingStart(s.data[..], was, p, uncByte, uncHalf);
    for compByte := 0 to 4 * cs.len
      modifies s.data
      invariant Decoding(s.data[..], was, p, 2 * compByte, uncByte, uncHalf)
    {
      for compHalf := 0 to 2
        modifies s.data
        invariant Decoding(s.data[..], was, p, 2 * compByte + compHalf, uncByte, uncHalf)
      {
        uncByte, uncHalf := DecodeSlot(cs, compIndex, compByte, compHalf, s.data, uncByte, uncHalf, was);
      }
    }
    DecodingEnd(s.data[..], was, p, uncByte, uncHalf);
    s.len := (uncByte + uncHalf) % LEN_LIMIT;
    TrimSet(s);
    DecodedIs(s.data[..], was, p, s.len);
  }

  lemma NoTail(was: seq<Byte>)
    ensures Tail(was, was, [], [])
  {
  }

  /** Tests a bit of an array; its number is cut to 16 bits. */
  method TestBitArray(a: array<Byte>, from: nat, loc: nat) returns (r: bool)
    requires from + loc % LOC_LIMIT / 8 < a.Length
    ensures r == Bit(a[from + loc % LOC_LIMIT / 8], loc % LOC_LIMIT % 8)
  {
    var loc16 := loc % LOC_LIMIT;
    var whichByte := loc16 / 8;
    var whichBit := loc16 - whichByte * 8;
    r := Bit(a[from + whichByte], whichBit);
  }

  /** One turn of the decoder's inner loop. */
  method DecodeSlot(cs: NodeSet, compIndex: nat, compByte: nat, compHalf: nat, a: array<Byte>, uncByte: nat,
                    uncHalf: nat, ghost was: seq<Byte>)
    returns (nextByte: nat, nextHalf: nat)
    requires cs.Packed() && cs.data != a && compIndex == Base(cs.superSkip) && compByte < 4 * cs.len && compHalf < 2
    requires Decoding(a[..], was, cs.Reading(), 2 * compByte + compHalf, uncByte, uncHalf)
    modifies a
    ensures Decoding(a[..], was, cs.Reading(), 2 * compByte + compHalf + 1, nextByte, nextHalf)
  {
    hide Decoding, Fits, ReadSlots, HeaderBit, HeaderCount, Overwritten, Tail;
    ghost var p := cs.Reading();
    var q := 2 * compByte + compHalf;
    SlotAt(cs.data[..], compIndex, cs.len, compByte, compHalf);
    var cur := Half(cs.data[compIndex + cs.len + compByte], compHalf);
    var mark := TestBitArray(cs.data, compIndex, q);
    DecodingStep(a[..], was, p, q, uncByte, uncHalf);
    nextByte, nextHalf := EmitEntry(a, uncByte, uncHalf, mark, cur, SkipNibbles(p), Flatten(p.entries[..q]), was);
    DecodingStepped(a[..], was, p, q, nextByte, nextHalf);
  }

  lemma DecodedIs(d: seq<Byte>, was: seq<Byte>, p: Packed, len: nat)
    requires |d| == |was| && Fits(p, |d|)
    requires Overwritten(d, Unpack(p)) && Tail(d, was, SkipNibbles(p), Flatten(p.entries))
    requires UnpackedBytes(p) % LEN_LIMIT <= |d| && len == Trimmed(d[..UnpackedBytes(p) % LEN_LIMIT])
    ensures Decoded(d, was, p, len)
  {
  }

  /** What the decoder has written when it has read the superskip and q slots. */
  ghost predicate Decoding(d: seq<Byte>, was: seq<Byte>, p: Packed, q: nat, uncByte: nat, uncHalf: nat) {
    && q <= |p.entries| && |d| == |was| && Fits(p, |d|)
    && var (head, body) := (SkipNibbles(p), Flatten(p.entries[..q]));
    && uncByte == |head + body| / 2 % CURSOR_LIMIT && uncHalf == |head + body| % 2
    && Overwritten(d, head + body) && Tail(d, was, head, body)
  }

  lemma SkipFits(p: Packed, room: nat)
    requires Fits(p, room)
    ensures p.skip.Skip? && p.skip.count <= MAX_SUPERSKIP ==> (p.skip.count + 1) / 2 <= room
  {
  }

  lemma DecodingStart(d: seq<Byte>, was: seq<Byte>, p: Packed, uncByte: nat, uncHalf: nat)
    requires |d| == |was| && Fits(p, |d|)
    requires |SkipNibbles(p)| <= MAX_SUPERSKIP
    requires uncByte == |SkipNibbles(p)| / 2 && uncHalf == |SkipNibbles(p)| % 2
    requires Overwritten(d, SkipNibbles(p)) && Tail(d, was, SkipNibbles(p), [])
    ensures Decoding(d, was, p, 0, uncByte, uncHalf)
  {
    hide Overwritten, Half;
    FlattenAll(p.entries);
    assert SkipNibbles(p) + [] == SkipNibbles(p);
  }

  lemma DecodingStep(d: seq<Byte>, was: seq<Byte>, p: Packed, q: nat, uncByte: nat, uncHalf: nat)
    requires Decoding(d, was, p, q, uncByte, uncHalf) && q < |p.entries|
    ensures var (head, body) := (SkipNibbles(p), Flatten(p.entries[..q]));
            && uncByte == |head + body| / 2 % CURSOR_LIMIT && uncHalf == |head + body| % 2
            && Overwritten(d, head + body) && Tail(d, was, head, body)
            && InReach(|head + (body + Expand(p.entries[q]))|, |d|)
    ensures |d| == |was| && Fits(p, |d|)
  {
    hide Overwritten, Tail, Flatten, Expand;
    FlattenStep(p.entries, q);
  }

  lemma DecodingStepped(d: seq<Byte>, was: seq<Byte>, p: Packed, q: nat, uncByte: nat, uncHalf: nat)
    requires q < |p.entries| && |d| == |was| && Fits(p, |d|)
    requires var (head, body) := (SkipNibbles(p), Flatten(p.entries[..q]) + Expand(p.entries[q]));
             && uncByte == |head + body| / 2 % CURSOR_LIMIT && uncHalf == |head + body| % 2
             && Overwritten(d, head + body) && Tail(d, was, head, body)
    ensures Decoding(d, was, p, q + 1, uncByte, uncHalf)
  {
    hide Overwritten, Tail, Flatten, Expand;
    FlattenStep(p.entries, q);
  }

  lemma CursorAndLength(count: nat)
    ensures (count / 2 % CURSOR_LIMIT + count % 2) % LEN_LIMIT == (count + 1) / 2 % LEN_LIMIT
  {
    assert (count + 1) / 2 == count / 2 + count % 2;
  }

  /** A 16-bit cursor, and the length field cut from it, agree with the number of bytes. */
  lemma DecodingEnd(d: seq<Byte>, was: seq<Byte>, p: Packed, uncByte: nat, uncHalf: nat)
    requires Decoding(d, was, p, |p.entries|, uncByte, uncHalf)
    ensures (uncByte + uncHalf) % LEN_LIMIT == UnpackedBytes(p) % LEN_LIMIT <= |d|
    ensures |d| == |was| && Fits(p, |d|)
    ensures Overwritten(d, Unpack(p)) && Tail(d, was, SkipNibbles(p), Flatten(p.entries))
  {
    hide Overwritten, Tail, Flatten;
    FlattenAll(p.entries);
    CursorAndLength(|Unpack(p)|);
    assert Unpack(p) == SkipNibbles(p) + Flatten(p.entries);
  }

  lemma SlotAt(d: seq<Byte>, base: nat, n: nat, compByte: nat, compHalf: nat)
    requires base + 5 * n <= |d| && compByte < 4 * n && compHalf < 2
    ensures var q := 2 * compByte + compHalf;
            && base + q % LOC_LIMIT / 8 < |d|
            && ReadSlots(d, base, n)[q] ==
                 SlotEntry(Bit(d[base + q % LOC_LIMIT / 8], q % LOC_LIMIT % 8), Half(d[base + n + compByte], compHalf))
  {
    hide Half, Bit, SlotEntry;
    var q := 2 * compByte + compHalf;
    assert q / 2 == compByte && q % 2 == compHalf;
    assert q % LOC_LIMIT <= q;
  }

  // ---- the size oracle -------------------------------------------------------------------

  function SlotCount(e: Entry): nat { match e case Lit(_) => 1 case Fill(_, count) => count }

  /** Nibbles of the superskip and the first q slots. */
  ghost function NibblesUpTo(p: Packed, q: nat): nat
    requires q <= |p.entries|
  {
    |SkipNibbles(p)| + |Flatten(p.entries[..q])|
  }

  /** Counting them in 16 bits. */
  lemma CountStep(p: Packed, q: nat, halfBytes: nat)
    requires q < |p.entries| && halfBytes == NibblesUpTo(p, q) % 0x10000
    ensures (halfBytes + SlotCount(p.entries[q])) % 0x10000 == NibblesUpTo(p, q + 1) % 0x10000
  {
    hide Flatten, SkipNibbles;
    FlattenStep(p.entries, q);
    AddWrapped(halfBytes, NibblesUpTo(p, q), SlotCount(p.entries[q]));
  }

  lemma AddWrapped(a: nat, b: nat, c: nat)
    requires a == b % 0x10000
    ensures (a + c) % 0x10000 == (b + c) % 0x10000
  {
  }

  /** The buffer a set needs when decompressed.  The count of half bytes is 16 bits wide, so
      the answer is exact when the packed form stands for fewer than 65536 nibbles, and too
      small otherwise. */
  method MaxDecompressedLen(cs: NodeSet) returns (r: nat)
    requires cs.Plain() || cs.Packed()
    ensures cs.Plain() ==> r == HEADER_SIZE + cs.len
    ensures cs.Packed() && |Unpack(cs.Reading())| < 0x10000 ==> r == HEADER_SIZE + UnpackedBytes(cs.Reading())
    ensures cs.Packed() && |Unpack(cs.Reading())| >= 0x10000 ==> r < HEADER_SIZE + UnpackedBytes(cs.Reading())
  {
    hide Unpack, UnpackedBytes, ReadSlots, NibblesUpTo;
    if !cs.compressed {
      return HEADER_SIZE + cs.len;
    }
    var halfBytes := CountHalfBytes(cs);
    OracleIs(cs.Reading(), halfBytes);
    r := HEADER_SIZE + (halfBytes + 1) / 2;
  }

  method CountHalfBytes(cs: NodeSet) returns (halfBytes: nat)
    requires cs.Packed()
    ensures halfBytes == NibblesUpTo(cs.Reading(), |cs.Reading().entries|) % 0x10000
  {
    hide ReadSlots, HeaderBit, HeaderCount, NibblesUpTo;
    halfBytes := 0;
    var compIndex := 0;
    CountStart(cs.Reading());
    if cs.superSkip {
      compIndex := 2;
      halfBytes := HeaderCount(cs.data[..]) % 0x10000;
    }
    for compByte := 0 to 4 * cs.len
      invariant halfBytes == NibblesUpTo(cs.Reading(), 2 * compByte) % 0x10000
    {
      for compHalf := 0 to 2
        invariant halfBytes == NibblesUpTo(cs.Reading(), 2 * compByte + compHalf) % 0x10000
      {
        halfBytes := CountSlot(cs, compIndex, compByte, compHalf, halfBytes);
      }
    }
  }

  /** One turn of the oracle's inner loop. */
  method CountSlot(cs: NodeSet, compIndex: nat, compByte: nat, compHalf: nat, halfBytes: nat) returns (r: nat)
    requires cs.Packed() && compIndex == Base(cs.superSkip) && compByte < 4 * cs.len && compHalf < 2
    requires halfBytes == NibblesUpTo(cs.Reading(), 2 * compByte + compHalf) % 0x10000
    ensures r == NibblesUpTo(cs.Reading(), 2 * compByte + compHalf + 1) % 0x10000
  {
    hide NibblesUpTo, ReadSlots, HeaderBit, HeaderCount;
    var q := 2 * compByte + compHalf;
    SlotAt(cs.data[..], compIndex, cs.len, compByte, compHalf);
    CountStep(cs.Reading(), q, halfBytes);
    var mark := TestBitArray(cs.data, compIndex, q);
    if mark {
      var cur := Half(cs.data[compIndex + cs.len + compByte], compHalf);
      r := (halfBytes + cur / 2) % 0x10000;
    } else {
      r := (halfBytes + 1) % 0x10000;
    }
  }

  lemma CountStart(p: Packed)
    ensures NibblesUpTo(p, 0) == if p.skip.Skip? then p.skip.count else 0
  {
    FlattenAll(p.entries);
  }

  lemma OracleIs(p: Packed, halfBytes: nat)
    requires halfBytes == NibblesUpTo(p, |p.entries|) % 0x10000
    ensures |Unpack(p)| < 0x10000 ==> (halfBytes + 1) / 2 == UnpackedBytes(p)
    ensures |Unpack(p)| >= 0x10000 ==> (halfBytes + 1) / 2 < UnpackedBytes(p)
  {
    FlattenAll(p.entries);
    assert Unpack(p) == SkipNibbles(p) + Flatten(p.entries);
  }
}
