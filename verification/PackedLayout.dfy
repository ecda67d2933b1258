/** How a packed form lies in the bytes of a compressed set.

    `d` is the data of the set: a 2-byte superskip header when `base` is 2 and nothing
    when it is 0, then `n` index bytes holding one mark per entry, then 4n bytes holding
    two 4-bit entries each. */
module PackedLayout {
  import opened Bits
  import opened RunLength

  // ---- the superskip header: one bit, then a 15-bit count, little-endian ---------------

  const MAX_SUPERSKIP := 32767

  function HeaderBit(d: seq<Byte>): bool
    requires |d| >= 2
  {
    d[0] % 2 == 1
  }

  function HeaderCount(d: seq<Byte>): (count: nat)
    requires |d| >= 2
    ensures count <= MAX_SUPERSKIP
  {
    var (lo: int, hi: int) := (d[0], d[1]);
    lo / 2 + 128 * hi
  }

  function HeaderSkip(superSkip: bool, d: seq<Byte>): Skip
    requires |d| >= 2
  {
    if superSkip then Skip(HeaderBit(d), HeaderCount(d)) else NoSkip
  }

  /** Where the index starts. */
  function Base(superSkip: bool): nat { if superSkip then 2 else 0 }

  // ---- slots ---------------------------------------------------------------------------

  function SlotMark(d: seq<Byte>, base: nat, n: nat, i: nat): bool
    requires base + 5 * n <= |d| && i < 8 * n
  {
    Bit(d[base + i / 8], i % 8)
  }

  function SlotNibble(d: seq<Byte>, base: nat, n: nat, i: nat): Nibble
    requires base + 5 * n <= |d| && i < 8 * n
  {
    Half(d[base + n + i / 2], i % 2)
  }

  /** A marked slot is a fill run: its low bit repeated, its three high bits counting. */
  function SlotEntry(mark: bool, nib: Nibble): Entry {
    if mark then Fill(nib % 2 == 1, nib / 2) else Lit(nib)
  }

  function Slot(d: seq<Byte>, base: nat, n: nat, i: nat): Entry
    requires base + 5 * n <= |d| && i < 8 * n
  {
    SlotEntry(SlotMark(d, base, n, i), SlotNibble(d, base, n, i))
  }

  function Slots(d: seq<Byte>, base: nat, n: nat): (es: seq<Entry>)
    requires base + 5 * n <= |d|
    ensures |es| == 8 * n
  {
    seq(8 * n, i requires 0 <= i < 8 * n => Slot(d, base, n, i))
  }

  /** A slot number is an argument of 16 bits where its mark is read or set. */
  const LOC_LIMIT := 0x1_0000

  /** The slots as the decoder reads them: the nibble of slot i with the mark of slot i modulo 65536. */
  function ReadSlots(d: seq<Byte>, base: nat, n: nat): (es: seq<Entry>)
    requires base + 5 * n <= |d|
    ensures |es| == 8 * n
  {
    seq(8 * n, i requires 0 <= i < 8 * n =>
      SlotEntry(SlotMark(d, base, n, i % LOC_LIMIT), SlotNibble(d, base, n, i)))
  }

  /** No slot from 65536 on is marked otherwise than the one whose mark is read for it. */
  predicate MarksRepeat(d: seq<Byte>, base: nat, n: nat)
    requires base + 5 * n <= |d|
  {
    forall i: nat | LOC_LIMIT <= i < 8 * n :: SlotMark(d, base, n, i) == SlotMark(d, base, n, i % LOC_LIMIT)
  }

  /** The decoder reads the slots that are there exactly if the marks repeat, as they do for
      every index of at most 8192 bytes. */
  lemma ReadSlotsIff(d: seq<Byte>, base: nat, n: nat)
    requires base + 5 * n <= |d|
    ensures ReadSlots(d, base, n) == Slots(d, base, n) <==> MarksRepeat(d, base, n)
    ensures 8 * n <= LOC_LIMIT ==> MarksRepeat(d, base, n)
  {
    hide SlotMark, SlotNibble;
    var a, b := ReadSlots(d, base, n), Slots(d, base, n);
    forall i: nat | i < 8 * n
      ensures a[i] == b[i] <==> SlotMark(d, base, n, i) == SlotMark(d, base, n, i % LOC_LIMIT)
    {
      assert b[i] == Slot(d, base, n, i);
    }
    if a == b {
      forall i: nat | LOC_LIMIT <= i < 8 * n
        ensures SlotMark(d, base, n, i) == SlotMark(d, base, n, i % LOC_LIMIT)
      {
        assert a[i] == b[i];
      }
    }
  }

  /** An index of 8193 bytes with only its first two bytes set: slot 65536 is clear and read as marked. */
  lemma SlotWraps(d: seq<Byte>)
    requires |d| == 5 * 8193 && d[0] == d[1] == 255 && forall i | 2 <= i < |d| :: d[i] == 0
    ensures !MarksRepeat(d, 0, 8193)
    ensures Slots(d, 0, 8193)[LOC_LIMIT] == Lit(0) && ReadSlots(d, 0, 8193)[LOC_LIMIT] == Fill(false, 0)
  {
    BitOfZero(0);
    assert Slots(d, 0, 8193)[LOC_LIMIT] == Slot(d, 0, 8193, LOC_LIMIT);
    assert SlotMark(d, 0, 8193, LOC_LIMIT % LOC_LIMIT) && !SlotMark(d, 0, 8193, LOC_LIMIT);
  }

  /** The first |es| slots hold es and the others are clear. */
  ghost predicate Holds(d: seq<Byte>, base: nat, n: nat, es: seq<Entry>) {
    && base + 5 * n <= |d| && |es| <= 8 * n
    && forall i: nat | i < 8 * n :: Slot(d, base, n, i) == if i < |es| then es[i] else Lit(0)
  }

  function Zeros(count: nat): seq<Entry> { seq(count, _ => Lit(0)) }

  lemma HoldsIsSlots(d: seq<Byte>, base: nat, n: nat, es: seq<Entry>)
    requires Holds(d, base, n, es)
    ensures Slots(d, base, n) == es + Zeros(8 * n - |es|)
  {
    forall i: nat | i < 8 * n ensures Slots(d, base, n)[i] == (es + Zeros(8 * n - |es|))[i] {
      assert Slots(d, base, n)[i] == Slot(d, base, n, i);
    }
  }

  lemma ClearedHolds(d: seq<Byte>, base: nat, n: nat)
    requires base + 5 * n <= |d|
    requires forall i | base <= i < base + 5 * n :: d[i] == 0
    ensures Holds(d, base, n, [])
  {
    forall i: nat | i < 8 * n ensures Slot(d, base, n, i) == Lit(0) {
      assert d[base + i / 8] == 0 && d[base + n + i / 2] == 0;
      BitOfZero(i % 8);
    }
  }

  // ---- updates of the record at byte b, half h: slot 2b + h ---------------------------------

  function PutNibble(d: seq<Byte>, base: nat, n: nat, b: nat, h: nat, nib: Nibble): (r: seq<Byte>)
    requires base + 5 * n <= |d| && b < 4 * n && h < 2
    ensures |r| == |d|
  {
    d[base + n + b := WithHalf(d[base + n + b], h, nib)]
  }

  function PutMark(d: seq<Byte>, base: nat, n: nat, j: nat, mark: bool): (r: seq<Byte>)
    requires base + 5 * n <= |d| && j < 8 * n
    ensures |r| == |d|
  {
    d[base + j / 8 := WithBitByte(d[base + j / 8], j % 8, mark)]
  }

  lemma SlotOfPutNibble(d: seq<Byte>, base: nat, n: nat, b: nat, h: nat, nib: Nibble, i: nat)
    requires base + 5 * n <= |d| && b < 4 * n && h < 2 && i < 8 * n
    ensures SlotMark(PutNibble(d, base, n, b, h, nib), base, n, i) == SlotMark(d, base, n, i)
    ensures SlotNibble(PutNibble(d, base, n, b, h, nib), base, n, i)
              == if i == 2 * b + h then nib else SlotNibble(d, base, n, i)
  {
    assert i / 2 == b && i != 2 * b + h ==> i % 2 == 1 - h;
  }

  lemma SlotOfPutMark(d: seq<Byte>, base: nat, n: nat, j: nat, mark: bool, i: nat)
    requires base + 5 * n <= |d| && j < 8 * n && i < 8 * n
    ensures SlotMark(PutMark(d, base, n, j, mark), base, n, i) == if i == j then mark else SlotMark(d, base, n, i)
    ensures SlotNibble(PutMark(d, base, n, j, mark), base, n, i) == SlotNibble(d, base, n, i)
  {
    BitOfWithBit(d[base + j / 8], j % 8, mark, i % 8);
    assert i / 8 == j / 8 && i != j ==> i % 8 != j % 8;
  }

  /** Writing a nibble and its mark into the first clear slot appends an entry. */
  lemma AppendHolds(d: seq<Byte>, base: nat, n: nat, es: seq<Entry>, b: nat, h: nat, mark: bool, nib: Nibble)
    requires Holds(d, base, n, es) && |es| < 8 * n && h < 2 && |es| == 2 * b + h
    ensures Holds(PutMark(PutNibble(d, base, n, b, h, nib), base, n, 2 * b + h, mark), base, n,
                  es + [SlotEntry(mark, nib)])
  {
    var d1 := PutNibble(d, base, n, b, h, nib);
    var d2 := PutMark(d1, base, n, |es|, mark);
    forall i: nat | i < 8 * n
      ensures Slot(d2, base, n, i) == if i < |es| + 1 then (es + [SlotEntry(mark, nib)])[i] else Lit(0)
    {
      SlotOfPutNibble(d, base, n, b, h, nib, i);
      SlotOfPutMark(d1, base, n, |es|, mark, i);
      assert Slot(d, base, n, i) == if i < |es| then es[i] else Lit(0);
    }
  }

  lemma CountUp(nib: Nibble)
    requires nib / 2 < MAX_FILL
    ensures nib + 2 < 16 && (nib + 2) % 2 == nib % 2 && (nib + 2) / 2 == nib / 2 + 1
    ensures nib + 2 == nib % 2 + 2 * ((nib / 2 + 1) % 8)
  {
  }

  /** Counting one more nibble in the last slot, a fill run, replaces that entry. */
  lemma CountHolds(d: seq<Byte>, base: nat, n: nat, es: seq<Entry>, b: nat, h: nat)
    requires Holds(d, base, n, es) && h < 2 && |es| == 2 * b + h + 1
    requires es[|es| - 1].Fill? && es[|es| - 1].count < MAX_FILL
    ensures var last := es[|es| - 1]; var nib := Half(d[base + n + b], h);
            nib / 2 < MAX_FILL && nib + 2 == nib % 2 + 2 * ((nib / 2 + 1) % 8) &&
            Holds(PutNibble(d, base, n, b, h, nib + 2), base, n, es[..|es| - 1] + [Fill(last.bit, last.count + 1)])
  {
    hide Half, Bit, PutNibble;
    var j, last := |es| - 1, es[|es| - 1];
    assert Slot(d, base, n, j) == last;
    assert j / 2 == b && j % 2 == h;
    var nib := SlotNibble(d, base, n, j);
    CountUp(nib);
    var d1 := PutNibble(d, base, n, b, h, nib + 2);
    forall i: nat | i < 8 * n
      ensures Slot(d1, base, n, i) == if i < |es| then (es[..j] + [Fill(last.bit, last.count + 1)])[i] else Lit(0)
    {
      SlotOfPutNibble(d, base, n, b, h, nib + 2, i);
      assert Slot(d, base, n, i) == if i < |es| then es[i] else Lit(0);
    }
  }

  /** The slots depend only on the bytes they occupy. */
  lemma HoldsFrame(d: seq<Byte>, d': seq<Byte>, base: nat, n: nat, es: seq<Entry>)
    requires Holds(d, base, n, es) && |d'| == |d| && d'[base..] == d[base..]
    ensures Holds(d', base, n, es)
  {
    forall i | base <= i < |d| ensures d'[i] == d[i] {
      assert d'[i] == d'[base..][i - base] && d[i] == d[base..][i - base];
    }
    forall i: nat | i < 8 * n ensures Slot(d', base, n, i) == Slot(d, base, n, i) {
      assert base + n + i / 2 < base + 5 * n;
    }
  }

  // ---- cursors into the compressed records --------------------------------------------

  /** The record after (compByte, compHalf); the byte cursor is 16 bits and starts at 0xFFFF. */
  function NextByte(compByte: nat, compHalf: nat): nat {
    if compHalf + 1 == 2 then (compByte + 1) % 0x10000 else compByte
  }

  function NextHalf(compHalf: nat): nat { if compHalf + 1 == 2 then 0 else compHalf + 1 }

  /** The cursor stands on the last of `count` records. */
  predicate OnRecord(compByte: nat, compHalf: nat, count: nat) {
    compHalf < 2 &&
    if count == 0 then compByte == 0xFFFF && compHalf == 1
    else compByte < 0xFFFF && 2 * compByte + compHalf + 1 == count
  }

  lemma NextOnRecord(compByte: nat, compHalf: nat, count: nat)
    requires OnRecord(compByte, compHalf, count) && count < 0x1FFFE
    ensures OnRecord(NextByte(compByte, compHalf), NextHalf(compHalf), count + 1)
  {
  }

  // ---- the compressed set under construction ---------------------------------------------

  /** The bytes hold p, and the cursor stands on its last record. */
  ghost predicate Layout(d: seq<Byte>, n: nat, superSkip: bool, p: Packed, compByte: nat, compHalf: nat) {
    && |d| >= 2 + 5 * n
    && HeaderSkip(superSkip, d) == p.skip
    && Holds(d, Base(superSkip), n, p.entries)
    && OnRecord(compByte, compHalf, |p.entries|) && |p.entries| <= 8 * n
  }

  /** Only the first two bytes hold the superskip header. */
  lemma HeaderFrame(d: seq<Byte>, superSkip: bool, d': seq<Byte>)
    requires |d| == |d'| >= 2
    requires superSkip ==> d'[0] == d[0] && d'[1] == d[1]
    ensures HeaderSkip(superSkip, d') == HeaderSkip(superSkip, d)
  {
  }

  lemma LayoutStart(d: seq<Byte>, n: nat)
    requires |d| >= 2 + 5 * n && forall i | 0 <= i < 5 * n :: d[i] == 0
    ensures Layout(d, n, false, Packed(NoSkip, []), 0xFFFF, 1)
  {
    ClearedHolds(d, 0, n);
  }

  /** The superskip counts one more nibble; everything below it is clear. */
  lemma LayoutSkip(d: seq<Byte>, d': seq<Byte>, n: nat, bit: bool, count: nat)
    requires |d| == |d'| >= 2 + 5 * n && d'[2..] == d[2..]
    requires Holds(d, 2, n, [])
    requires HeaderSkip(true, d') == Skip(bit, count)
    ensures Layout(d', n, true, Packed(Skip(bit, count), []), 0xFFFF, 1)
  {
    HoldsFrame(d, d', 2, n, []);
  }

  /** The four bits a nibble starts its record with: a fill of one, or itself. */
  function NewNibble(n: Nibble): (r: Nibble)
    ensures SlotEntry(IsSpan(n), r) == NewEntry(n)
  {
    if IsSpan(n) then n % 2 + 2 else n
  }

  function NewBytes(d: seq<Byte>, base: nat, n: nat, b: nat, h: nat, c: Nibble): (d': seq<Byte>)
    requires |d| >= base + 5 * n && b < 4 * n && h < 2
  {
    PutMark(PutNibble(d, base, n, b, h, NewNibble(c)), base, n, 2 * b + h, IsSpan(c))
  }

  lemma LayoutNew(d: seq<Byte>, n: nat, superSkip: bool, p: Packed, compByte: nat, compHalf: nat, c: Nibble)
    requires Layout(d, n, superSkip, p, compByte, compHalf) && |p.entries| < 8 * n && |p.entries| < 0x8000
    ensures var (b, h) := (NextByte(compByte, compHalf), NextHalf(compHalf));
            && h < 2 && b < 4 * n && |d| >= 2 + 5 * n
            && Layout(NewBytes(d, Base(superSkip), n, b, h, c), n, superSkip,
                      Packed(p.skip, p.entries + [NewEntry(c)]), b, h)
  {
    hide Half, WithHalf, HeaderBit, HeaderCount, Slot, WithBitByte, Holds;
    var es, base := p.entries, Base(superSkip);
    NextOnRecord(compByte, compHalf, |es|);
    var b, h := NextByte(compByte, compHalf), NextHalf(compHalf);
    AppendHolds(d, base, n, es, b, h, IsSpan(c), NewNibble(c));
    HeaderFrame(d, superSkip, NewBytes(d, Base(superSkip), n, b, h, c));
  }

  function CountBytes(d: seq<Byte>, base: nat, n: nat, b: nat, h: nat): (d': seq<Byte>)
    requires |d| >= base + 5 * n && b < 4 * n && h < 2
  {
    var nib := Half(d[base + n + b], h);
    PutNibble(d, base, n, b, h, nib % 2 + 2 * ((nib / 2 + 1) % 8))
  }

  lemma LayoutCount(d: seq<Byte>, n: nat, superSkip: bool, p: Packed, b: nat, h: nat)
    requires Layout(d, n, superSkip, p, b, h)
    requires p.entries != [] && var last := p.entries[|p.entries| - 1]; last.Fill? && last.count < MAX_FILL
    ensures h < 2 && b < 4 * n && |d| >= 2 + 5 * n
    ensures var es := p.entries; var last := es[|es| - 1];
            Layout(CountBytes(d, Base(superSkip), n, b, h), n, superSkip,
                   Packed(p.skip, es[..|es| - 1] + [Fill(last.bit, last.count + 1)]), b, h)
  {
    hide Half, WithHalf, HeaderBit, HeaderCount, Slot, WithBitByte, Holds;
    CountHolds(d, Base(superSkip), n, p.entries, b, h);
    HeaderFrame(d, superSkip, CountBytes(d, Base(superSkip), n, b, h));
  }
}
