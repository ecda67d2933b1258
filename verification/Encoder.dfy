/** The encoder: packs a set into the buffer of another. */
module Encoder {
  import opened Bits
  import opened RunLength
  import opened PackedLayout
  import opened NodeSets

  /** The clear slots after the entries read as literal zeros. */
  function Padded(p: Packed, n: nat): Packed {
    RunLength.Packed(p.skip, p.entries + Zeros(if |p.entries| <= 8 * n then 8 * n - |p.entries| else 0))
  }

  method Memset(a: array<Byte>, from: nat, count: nat)
    requires from + count <= a.Length
    modifies a
    ensures forall i | 0 <= i < a.Length :: a[i] == if from <= i < from + count then 0 else old(a[i])
  {
    for i := from to from + count
      invariant forall j | 0 <= j < a.Length :: a[j] == if from <= j < i then 0 else old(a[j])
    {
      a[i] := 0;
    }
  }

  /** Sets or clears a bit of an array; its number is cut to 16 bits. */
  method MarkBitArray(a: array<Byte>, from: nat, loc: nat, val: bool)
    requires from + loc % LOC_LIMIT / 8 < a.Length
    modifies a
    ensures a[..] == old(a[..])[from + loc % LOC_LIMIT / 8 :=
                                  WithBitByte(old(a[from + loc % LOC_LIMIT / 8]), loc % LOC_LIMIT % 8, val)]
  {
    var loc16 := loc % LOC_LIMIT;
    var whichByte := loc16 / 8;
    var whichBit := loc16 - whichByte * 8;
    a[from + whichByte] := WithBitByte(a[from + whichByte], whichBit, val);
  }

  /** The 16-bit header word: its low bit is ssBit, the other fifteen are ssLen. */
  method PutHeader(a: array<Byte>, bit: bool, count: nat)
    requires a.Length >= 2 && count <= MAX_SUPERSKIP
    modifies a
    ensures a[2..] == old(a[2..]) && HeaderSkip(true, a[..]) == Skip(bit, count)
  {
    a[0] := Digit(bit) + 2 * (count % 128);
    a[1] := count / 128;
  }

  /** Add one to the 3-bit counter of a fill run. */
  method CountRecord(a: array<Byte>, compIndex: nat, n: nat, compByte: nat, compHalf: nat)
    requires compIndex + 5 * n <= a.Length && compByte < 4 * n && compHalf < 2
    modifies a
    ensures a[..] == CountBytes(old(a[..]), compIndex, n, compByte, compHalf)
  {
    var at := compIndex + n + compByte;
    var nib := Half(a[at], compHalf);
    a[at] := WithHalf(a[at], compHalf, nib % 2 + 2 * ((nib / 2 + 1) % 8));
  }

  /** The first superskip step: a header for one nibble, index and data moved behind it and cleared. */
  method OpenSuperSkip(cs: NodeSet, bit: bool)
    requires cs.data.Length >= 2 + 5 * cs.len
    modifies cs`superSkip, cs.data
    ensures cs.superSkip
    ensures HeaderSkip(true, cs.data[..]) == Skip(bit, 1) && Holds(cs.data[..], 2, cs.len, [])
  {
    cs.superSkip := true;
    PutHeader(cs.data, bit, 1);
    ghost var d := cs.data[..];
    Memset(cs.data, 2, cs.len);
    Memset(cs.data, 2 + cs.len, 4 * cs.len);
    HeaderFrame(d, true, cs.data[..]);
    ClearedHolds(cs.data[..], 2, cs.len);
  }

  method GrowSuperSkip(cs: NodeSet)
    requires cs.data.Length >= 2 && HeaderCount(cs.data[..]) < MAX_SUPERSKIP
    modifies cs.data
    ensures cs.data[2..] == old(cs.data[2..])
    ensures HeaderSkip(true, cs.data[..]) == Skip(HeaderBit(old(cs.data[..])), HeaderCount(old(cs.data[..])) + 1)
  {
    PutHeader(cs.data, HeaderBit(cs.data[..]), (HeaderCount(cs.data[..]) + 1) % 0x8000);
  }

  /** Write the four bits of a record and its mark in the index. */
  method PutRecord(a: array<Byte>, compIndex: nat, n: nat, compByte: nat, compHalf: nat, nib: Nibble, mark: bool)
    requires compIndex + 5 * n <= a.Length && compByte < 4 * n && compHalf < 2 && 2 * compByte + compHalf < LOC_LIMIT
    modifies a
    ensures a[..] == PutMark(PutNibble(old(a[..]), compIndex, n, compByte, compHalf, nib), compIndex, n,
                             2 * compByte + compHalf, mark)
  {
    hide WithHalf, WithBitByte, Half;
    ghost var d := a[..];
    var compData := compIndex + n;
    a[compData + compByte] := WithHalf(a[compData + compByte], compHalf, nib);
    assert a[..] == PutNibble(d, compIndex, n, compByte, compHalf, nib);
    var loc := compByte * 2 + compHalf;
    assert loc % LOC_LIMIT == loc && loc / 8 < n;
    MarkBitArray(a, compIndex, loc, mark);
  }

  /** One nibble more in the superskip, which the second nibble of a leading run opens. */
  method CountSkipped(cs: NodeSet, cur: Nibble, ghost u: seq<Nibble>, ghost k: nat, ghost compByte: nat,
                      ghost compHalf: nat, ghost prev: Nibble, ghost prevCount: nat)
    requires 0 < k < |u| && u[k] == prev == cur && IsSpan(cur)
    requires Encoding(u, k, cs.data[..], cs.len, cs.superSkip, compByte, compHalf, prev, prevCount, true)
    modifies cs`superSkip, cs.data
    ensures cs.superSkip && prevCount == 1
    ensures Encoding(u, k + 1, cs.data[..], cs.len, true, 0xFFFF, 1, cur, 1, true)
  {
    hide Encoding, HeaderBit, HeaderCount, Holds;
    ghost var (d, n) := (cs.data[..], cs.len);
    EncodingHeader(u, k, d, n, cs.superSkip, compByte, compHalf, prev, prevCount, true);
    if !cs.superSkip {
      OpenSuperSkip(cs, cur == 15);
    }
    ghost var d1 := cs.data[..];
    GrowSuperSkip(cs);
    EncodingSkip(u, k, d, n, k >= 2, compByte, compHalf, prev, prevCount, true, d1, cs.data[..]);
  }

  /** One turn of the encoder's inner loop. */
  method EncodeNibble(cs: NodeSet, cur: Nibble, notFirst: bool, compByte: nat, compHalf: nat, prev: Nibble,
                      prevCount: nat, ssAvail: bool, ghost u: seq<Nibble>, ghost k: nat)
    returns (nextByte: nat, nextHalf: nat, count: nat, avail: bool)
    requires k < |u| && cur == u[k] && notFirst == (k > 0)
    requires Encoding(u, k, cs.data[..], cs.len, cs.superSkip, compByte, compHalf, prev, prevCount, ssAvail)
    modifies cs`superSkip, cs.data
    ensures Encoding(u, k + 1, cs.data[..], cs.len, cs.superSkip, nextByte, nextHalf, cur, count, avail)
  {
    hide Encoding, HeaderBit, HeaderCount, PutMark, PutNibble, Slot, Holds, NextByte, NextHalf;
    ghost var (d, n) := (cs.data[..], cs.len);
    var compIndex := if cs.superSkip then 2 else 0;
    var span := cur == 0 || cur == 15;
    var repeat := cur == prev && notFirst;
    nextByte, nextHalf, count, avail := compByte, compHalf, prevCount, ssAvail;
    if ssAvail && span && repeat && prevCount < MAX_SUPERSKIP {
      CountSkipped(cs, cur, u, k, compByte, compHalf, prev, prevCount);
      nextByte, nextHalf := 0xFFFF, 1;
    } else if span && repeat && prevCount < 7 {
      EncodingJoin(u, k, d, n, cs.superSkip, compByte, compHalf, prev, prevCount, ssAvail);
      CountRecord(cs.data, compIndex, cs.len, compByte, compHalf);
      count := prevCount + 1;
    } else {
      EncodingNew(u, k, d, n, cs.superSkip, compByte, compHalf, prev, prevCount, ssAvail);
      nextByte, nextHalf := NextByte(compByte, compHalf), NextHalf(compHalf);
      if span {
        PutRecord(cs.data, compIndex, cs.len, nextByte, nextHalf, cur % 2 + 2, true);
        count := 1;
        if notFirst { avail := false; }
      } else {
        PutRecord(cs.data, compIndex, cs.len, nextByte, nextHalf, cur, false);
        count := 8;
        avail := false;
      }
    }
  }

  method CompressSet(s: NodeSet, cs: NodeSet, indexLen: nat)
    requires s.Plain() && s != cs && s.data != cs.data
    requires Counted(Nibbles(s.Bytes())) <= 8 * indexLen && indexLen < LEN_LIMIT
    requires cs.data.Length >= 2 + 5 * indexLen
    modifies cs, cs.data
    ensures cs.Packed() && cs.len == indexLen
    ensures var p := Pack(Nibbles(s.Bytes()));
            cs.Contents() == Padded(p, indexLen)
  {
    hide Encoding, Pack, Counted, Half, HeaderSkip, Slots, Slot, Padded;
    ghost var u := Nibbles(s.Bytes());
    var n := indexLen;
    var compByte: nat, compHalf: nat := 0xFFFF, 1;
    var prev: Nibble, prevCount: nat := 0, 0;
    var ssAvail := true;
    cs.len := n;
    cs.superSkip := false;
    Memset(cs.data, 0, cs.len);
    Memset(cs.data, cs.len, 4 * cs.len);
    cs.compressed := true;
    EncodingStart(u, cs.data[..], n);
    for uncByte := 0 to s.len
      invariant cs.compressed && cs.len == n
      invariant Encoding(u, 2 * uncByte, cs.data[..], n, cs.superSkip, compByte, compHalf, prev, prevCount, ssAvail)
    {
      for uncHalf := 0 to 2
        invariant cs.compressed && cs.len == n
        invariant Encoding(u, 2 * uncByte + uncHalf, cs.data[..], n, cs.superSkip, compByte, compHalf, prev, prevCount,
                           ssAvail)
      {
        ghost var k := 2 * uncByte + uncHalf;
        var cur := Half(s.data[uncByte], uncHalf);
        assert cur == u[k];
        compByte, compHalf, prevCount, ssAvail :=
          EncodeNibble(cs, cur, uncByte > 0 || uncHalf > 0, compByte, compHalf, prev, prevCount, ssAvail, u, k);
        prev := cur;
      }
    }
    EncodingEnd(u, cs.data[..], n, cs.superSkip, compByte, compHalf, prev, prevCount, ssAvail);
  }

  /** What the encoder has built after k nibbles. */
  ghost predicate Encoding(u: seq<Nibble>, k: nat, d: seq<Byte>, n: nat, superSkip: bool, compByte: nat,
                           compHalf: nat, prev: Nibble, prevCount: nat, ssAvail: bool)
  {
    && k <= |u| < 2 * LEN_LIMIT && Counted(u) <= 8 * n
    && Layout(d, n, superSkip, Pack(u[..k]), compByte, compHalf)
    && prev == Previous(u[..k])
    && ssAvail == Leading(u[..k])
    && prevCount == if k == 0 then 0 else if ssAvail then 1 else RunCount(Pack(u[..k]).entries)
  }

  lemma EncodingStart(u: seq<Nibble>, d: seq<Byte>, n: nat)
    requires |u| < 2 * LEN_LIMIT && Counted(u) <= 8 * n && |d| >= 2 + 5 * n
    requires forall i | 0 <= i < 5 * n :: d[i] == 0
    ensures Encoding(u, 0, d, n, false, 0xFFFF, 1, 0, 0, true)
  {
    assert u[..0] == [];
    LayoutStart(d, n);
  }

  lemma EncodingEnd(u: seq<Nibble>, d: seq<Byte>, n: nat, superSkip: bool, compByte: nat,
                    compHalf: nat, prev: Nibble, prevCount: nat, ssAvail: bool)
    requires Encoding(u, |u|, d, n, superSkip, compByte, compHalf, prev, prevCount, ssAvail)
    ensures |d| >= 2 + 5 * n && HeaderSkip(superSkip, d) == Pack(u).skip
    ensures Packed(HeaderSkip(superSkip, d), Slots(d, Base(superSkip), n)) == Padded(Pack(u), n)
  {
    assert u[..|u|] == u;
    HoldsIsSlots(d, Base(superSkip), n, Pack(u).entries);
  }

  /** What a superskip step finds: no superskip yet after one nibble, else one of k nibbles. */
  lemma EncodingHeader(u: seq<Nibble>, k: nat, d: seq<Byte>, n: nat, superSkip: bool, compByte: nat,
                       compHalf: nat, prev: Nibble, prevCount: nat, ssAvail: bool)
    requires k < |u| && Encoding(u, k, d, n, superSkip, compByte, compHalf, prev, prevCount, ssAvail)
    requires ssAvail && k > 0 && u[k] == prev && IsSpan(u[k])
    ensures prevCount == 1 && superSkip == (k >= 2) && |d| >= 2 + 5 * n && |u| < 2 * LEN_LIMIT
    ensures superSkip ==> HeaderSkip(true, d) == Skip(u[k] == 15, k) && Holds(d, 2, n, [])
  {
    PackLead(u[..k], u[k]);
  }

  lemma EncodingSkip(u: seq<Nibble>, k: nat, d: seq<Byte>, n: nat, superSkip: bool, compByte: nat,
                     compHalf: nat, prev: Nibble, prevCount: nat, ssAvail: bool, d1: seq<Byte>, d2: seq<Byte>)
    requires k < |u| && Encoding(u, k, d, n, superSkip, compByte, compHalf, prev, prevCount, ssAvail)
    requires ssAvail && k > 0 && u[k] == prev && IsSpan(u[k])
    requires |d1| == |d2| >= 2 + 5 * n && Holds(d1, 2, n, []) && d2[2..] == d1[2..]
    requires HeaderSkip(true, d2) == Skip(u[k] == 15, k + 1)
    ensures Encoding(u, k + 1, d2, n, true, 0xFFFF, 1, u[k], 1, true)
  {
    hide Layout, Pack, Leading, Counted;
    var v, c := u[..k], u[k];
    assert u[..k + 1] == v + [c];
    PackLead(v, c);
    LayoutSkip(d1, d2, n, c == 15, k + 1);
  }

  lemma EncodingJoin(u: seq<Nibble>, k: nat, d: seq<Byte>, n: nat, superSkip: bool, compByte: nat,
                     compHalf: nat, prev: Nibble, prevCount: nat, ssAvail: bool)
    requires k < |u| && Encoding(u, k, d, n, superSkip, compByte, compHalf, prev, prevCount, ssAvail)
    requires k > 0 && u[k] == prev && IsSpan(u[k]) && !ssAvail && prevCount < MAX_FILL
    ensures |d| >= 2 + 5 * n && compByte < 4 * n && compHalf < 2
    ensures Encoding(u, k + 1, CountBytes(d, Base(superSkip), n, compByte, compHalf), n, superSkip, compByte, compHalf,
                     u[k], prevCount + 1, ssAvail)
  {
    hide CountBytes, Layout, Pack, Leading, Counted;
    var v, c := u[..k], u[k];
    assert u[..k + 1] == v + [c];
    PackJoin(v, c);
    LayoutCount(d, n, superSkip, Pack(v), compByte, compHalf);
  }

  lemma CursorBound(d: seq<Byte>, n: nat, superSkip: bool, p: Packed, b: nat, h: nat)
    requires Layout(d, n, superSkip, p, b, h) && 0 < |p.entries| <= LOC_LIMIT
    ensures 2 * b + h < LOC_LIMIT
  {
  }

  lemma EncodingNew(u: seq<Nibble>, k: nat, d: seq<Byte>, n: nat, superSkip: bool, compByte: nat,
                    compHalf: nat, prev: Nibble, prevCount: nat, ssAvail: bool)
    requires k < |u| && Encoding(u, k, d, n, superSkip, compByte, compHalf, prev, prevCount, ssAvail)
    requires var repeat := k != 0 && u[k] == prev && IsSpan(u[k]);
             !(repeat && ((ssAvail && prevCount < MAX_SUPERSKIP) || prevCount < MAX_FILL))
    ensures var (b, h) := (NextByte(compByte, compHalf), NextHalf(compHalf));
            && h < 2 && b < 4 * n && |d| >= 2 + 5 * n && 2 * b + h < LOC_LIMIT
            && Encoding(u, k + 1, NewBytes(d, Base(superSkip), n, b, h, u[k]), n, superSkip, b, h, u[k],
                        if IsSpan(u[k]) then 1 else MAX_FILL + 1, ssAvail && k == 0 && IsSpan(u[k]))
  {
    hide NewBytes, Leading, NextByte, NextHalf, Counted, Layout, Pack;
    var v, c := u[..k], u[k];
    assert u[..k + 1] == v + [c];
    PackNew(v, c);
    CountedBound(u, k + 1);
    CountedBound(u, k);
    LayoutNew(d, n, superSkip, Pack(v), compByte, compHalf, c);
    CursorBound(NewBytes(d, Base(superSkip), n, NextByte(compByte, compHalf), NextHalf(compHalf), c), n, superSkip,
                Pack(v + [c]), NextByte(compByte, compHalf), NextHalf(compHalf));
  }
}
