/** A packed set is shipped as a message of its projected length.  What comes back if the
    receiver's buffer is zero behind the message? */
module ShippedSet {
  import opened Bits
  import opened RunLength
  import opened PackedLayout
  import opened NodeSets
  import opened Sizing
  import opened Encoder
  import opened Decoder
  import opened SetRoundTrip

  /** An entry whose four bits were cut off: the index still says which kind it is. */
  function CutEntry(e: Entry): Entry { if e.Fill? then Fill(false, 0) else Lit(0) }

  /** All entries from slot k on cut off. */
  function Cut(es: seq<Entry>, k: nat): (r: seq<Entry>)
    ensures |r| == |es|
    ensures forall i | 0 <= i < |es| :: r[i] == if i < k then es[i] else CutEntry(es[i])
  {
    seq(|es|, i requires 0 <= i < |es| => if i < k then es[i] else CutEntry(es[i]))
  }

  /** Cutting the bytes behind `payload` bytes of entries cuts the entries behind twice as many slots. */
  lemma SlotsOfCutBytes(d: seq<Byte>, d': seq<Byte>, base: nat, n: nat, payload: nat)
    requires |d'| == |d| >= base + 5 * n
    requires forall i | 0 <= i < base + 5 * n :: d'[i] == if i < base + n + payload then d[i] else 0
    ensures Slots(d', base, n) == Cut(Slots(d, base, n), 2 * payload)
  {
    forall i: nat | i < 8 * n ensures Slot(d', base, n, i) == Cut(Slots(d, base, n), 2 * payload)[i] {
      assert Slots(d, base, n)[i] == Slot(d, base, n, i);
      HalfOfZero();
      assert d'[base + i / 8] == d[base + i / 8];
    }
  }

  // ---- nibbles up to trailing zeros --------------------------------------------------------

  function NibbleAt(u: seq<Nibble>, i: nat): Nibble { if i < |u| then u[i] else 0 }

  ghost predicate SameNibbles(u: seq<Nibble>, v: seq<Nibble>) {
    forall i: nat :: NibbleAt(u, i) == NibbleAt(v, i)
  }

  predicate Blank(e: Entry) { e == Lit(0) || (e.Fill? && !e.bit) }

  predicate AllZero(u: seq<Nibble>) { forall i | 0 <= i < |u| :: u[i] == 0 }

  lemma {:induction false} FlattenBlank(es: seq<Entry>)
    requires forall i | 0 <= i < |es| :: Blank(es[i])
    ensures AllZero(Flatten(es))
  {
    if es != [] {
      FlattenBlank(es[..|es| - 1]);
      assert AllZero(Expand(es[|es| - 1]));
    }
  }

  /** Splitting the flattened sequence at slot k. */
  lemma FlattenAt(es: seq<Entry>, k: nat)
    requires k <= |es|
    ensures Flatten(es) == Flatten(es[..k]) + Flatten(es[k..])
  {
    hide Flatten;
    FlattenConcat(es[..k], es[k..]);
    assert es == es[..k] + es[k..];
  }

  /** Sequences that agree up to k and are blank behind it stand for the same bits. */
  lemma SameUpToBlanks(es: seq<Entry>, fs: seq<Entry>, k: nat)
    requires k <= |es| && k <= |fs| && es[..k] == fs[..k]
    requires forall i | k <= i < |es| :: Blank(es[i])
    requires forall i | k <= i < |fs| :: Blank(fs[i])
    ensures SameNibbles(Flatten(es), Flatten(fs))
  {
    hide Flatten;
    FlattenAt(es, k);
    FlattenAt(fs, k);
    FlattenBlank(es[k..]);
    FlattenBlank(fs[k..]);
  }

  /** A carrying entry that is blanked together with all behind it leaves a hole. */
  lemma HoleShows(es: seq<Entry>, fs: seq<Entry>, k: nat)
    requires k < |es| && k <= |fs| && es[..k] == fs[..k]
    requires Expand(es[k]) != [] && Expand(es[k])[0] != 0
    requires forall i | k <= i < |fs| :: Blank(fs[i])
    ensures !SameNibbles(Flatten(es), Flatten(fs))
  {
    hide Flatten, Expand;
    var head := Flatten(es[..k]);
    FlattenStep(es, k);
    FlattenAt(es, k + 1);
    FlattenAt(fs, k);
    FlattenBlank(fs[k..]);
    assert NibbleAt(Flatten(es), |head|) == Expand(es[k])[0];
    assert NibbleAt(Flatten(fs), |head|) == 0;
  }

  /** Entries of a packing: literals are no spans, fills are not empty. */
  lemma {:induction false} ChunksNotEmpty(u: seq<Nibble>)
    ensures forall e | e in Chunks(u) :: CarriesBits(e) ==> Expand(e) != [] && Expand(e)[0] != 0
  {
    if u != [] {
      ChunksNotEmpty(u[..|u| - 1]);
      LastChunk(u);
      var es := Chunks(u[..|u| - 1]);
      assert Chunks(u) == Extend(es, u[|u| - 1]);
    }
  }

  // ---- the shipped form ----------------------------------------------------------------------

  /** What the receiver unpacks if its buffer is zero behind the message. */
  function Shipped(u: seq<Nibble>): Packed {
    var p := Padded(Pack(u), IndexLen(u));
    Packed(p.skip, Cut(p.entries, 2 * ProjectedPayload(Pack(u))))
  }

  /** The projection reaches the last entry with a bit set. */
  predicate Reaches(u: seq<Nibble>) {
    var last := LastPayload(Pack(u).entries);
    Pack(u).skip.Skip? || last < 0 || last % 2 == 1
  }

  /** The projection counts index, header and the bytes of the records up to the last with a bit
      set; but where that one is the first half of its byte and there is no superskip, it
      is a byte short. */
  lemma ProjectionIs(u: seq<Nibble>)
    ensures var (es, last) := (Pack(u).entries, LastPayload(Pack(u).entries));
            && (forall i | 0 <= i < |es| && last < i :: es[i].Fill? && !es[i].bit)
            && (last >= 0 ==> es[last].Lit? || es[last].bit)
            && ProjectedLen(u) ==
                 IndexLen(u) + (if Pack(u).skip.Skip? then 2 else 0) + (if last < 0 then 0 else last / 2 + 1)
                 - (if last >= 0 && last % 2 == 0 && !Pack(u).skip.Skip? then 1 else 0)
  {
    hide Pack, IndexLen;
  }

  lemma ShippedEntries(u: seq<Nibble>)
    ensures SameNibbles(Flatten(Padded(Pack(u), IndexLen(u)).entries), Flatten(Shipped(u).entries)) <==> Reaches(u)
  {
    var es := Pack(u).entries;
    var all := Padded(Pack(u), IndexLen(u)).entries;
    var cut := Shipped(u).entries;
    var last, k := LastPayload(es), 2 * ProjectedPayload(Pack(u));
    hide Pack, Padded, IndexLen, LastPayload, Flatten, SameNibbles, Expand;
    PackedEntries(u);
    if Reaches(u) {
      assert k <= |all|;
      assert all[..k] == cut[..k];
      SameUpToBlanks(all, cut, k);
    } else {
      assert k == last;
      assert all[..k] == cut[..k];
      HoleShows(all, cut, k);
    }
  }

  lemma PackedEntries(u: seq<Nibble>)
    ensures var (es, all) := (Pack(u).entries, Padded(Pack(u), IndexLen(u)).entries);
            && |es| <= |all| && (forall i | 0 <= i < |es| :: all[i] == es[i])
               && (forall i | |es| <= i < |all| :: all[i] == Lit(0))
            && (forall e | e in es :: CarriesBits(e) ==> Expand(e) != [] && Expand(e)[0] != 0)
            && (forall e | e in es :: !CarriesBits(e) ==> Blank(e))
            && |all| % 2 == 0 && (Pack(u).skip.Skip? ==> |es| + 1 <= |all|)
  {
    hide Chunks, Expand;
    PaddingBound(u);
    if LeadRun(u) >= 2 { ChunksNotEmpty(u[LeadRun(u)..]); } else { ChunksNotEmpty(u); }
  }

  lemma {:induction false} FlattenShorter(es: seq<Entry>, fs: seq<Entry>)
    requires |es| == |fs| && forall i | 0 <= i < |es| :: |Expand(fs[i])| <= |Expand(es[i])|
    ensures |Flatten(fs)| <= |Flatten(es)|
  {
    hide Expand;
    if es != [] { FlattenShorter(es[..|es| - 1], fs[..|fs| - 1]); }
  }

  lemma CutIsShorter(es: seq<Entry>, k: nat)
    ensures |Flatten(Cut(es, k))| <= |Flatten(es)|
    ensures es != [] && es[|es| - 1].Lit? ==> Flatten(Cut(es, k)) != []
  {
    FlattenShorter(es, Cut(es, k));
  }

  /** How much the receiver unpacks. */
  lemma ShippedSize(u: seq<Nibble>)
    requires |u| < 2 * LEN_LIMIT
    ensures |Unpack(Shipped(u))| <= |u| + 8
    ensures |Unpack(Shipped(u))| % 2 == 1 ==> |u| % 2 == 0 ==> Flatten(Shipped(u).entries) != []
  {
    hide Pack, IndexLen, Flatten, Cut, Expand, Blank, ProjectedPayload;
    var p := Padded(Pack(u), IndexLen(u));
    UnpackPadded(u, IndexLen(u));
    PaddingBound(u);
    CutIsShorter(p.entries, 2 * ProjectedPayload(Pack(u)));
  }

  lemma ShippedNibbles(u: seq<Nibble>)
    ensures SameNibbles(Unpack(Shipped(u)), u) <==> Reaches(u)
  {
    var p, q := Padded(Pack(u), IndexLen(u)), Shipped(u);
    var head := SkipNibbles(p);
    ShippedEntries(u);
    UnpackPadded(u, IndexLen(u));
    assert Unpack(p) == head + Flatten(p.entries) && Unpack(q) == head + Flatten(q.entries);
    hide Pack, IndexLen, Flatten, Padded, Cut, Shipped, SameNibbles, Reaches;
    SameBehind(head, Flatten(p.entries), Flatten(q.entries));
    SameWithZeros(u, Padding(u, IndexLen(u)), Unpack(q));
  }

  lemma SameBehind(head: seq<Nibble>, a: seq<Nibble>, b: seq<Nibble>)
    ensures SameNibbles(head + a, head + b) <==> SameNibbles(a, b)
  {
    if SameNibbles(head + a, head + b) {
      forall i: nat ensures NibbleAt(a, i) == NibbleAt(b, i) {
        assert NibbleAt(head + a, |head| + i) == NibbleAt(head + b, |head| + i);
      }
    }
    if SameNibbles(a, b) {
      forall i: nat ensures NibbleAt(head + a, i) == NibbleAt(head + b, i) {
        if i >= |head| { assert NibbleAt(a, i - |head|) == NibbleAt(b, i - |head|); }
      }
    }
  }

  lemma SameWithZeros(u: seq<Nibble>, pad: nat, v: seq<Nibble>)
    ensures SameNibbles(u + Repeat(0, pad), v) <==> SameNibbles(v, u)
  {
    assert forall i: nat :: NibbleAt(u + Repeat(0, pad), i) == NibbleAt(u, i);
  }

  /** Bytes written from nibbles agree with d when the nibbles do. */
  lemma BytesAgree(d: seq<Byte>, v: seq<Nibble>, e: seq<Byte>)
    requires Written(e, v) && (|v| % 2 == 1 ==> Half(e[|v| / 2], 1) == 0)
    ensures (|v| + 1) / 2 <= |e|
    ensures SameBytes(d, e[..(|v| + 1) / 2]) <==> SameNibbles(v, Nibbles(d))
  {
    hide Half;
    HalfOfZero();
    var f := e[..(|v| + 1) / 2];
    forall i: nat ensures NibbleAt(v, i) == Half(ByteAt(f, i / 2), i % 2) {
      if i < |v| { assert f[i / 2] == e[i / 2]; }
      else if i / 2 < |f| { assert i == |v| && i % 2 == 1; }
    }
    forall i: nat ensures NibbleAt(Nibbles(d), i) == Half(ByteAt(d, i / 2), i % 2) {
    }
    if SameNibbles(v, Nibbles(d)) {
      forall i: nat ensures ByteAt(d, i) == ByteAt(f, i) {
        assert 2 * i / 2 == i && 2 * i % 2 == 0 && (2 * i + 1) / 2 == i && (2 * i + 1) % 2 == 1;
        assert NibbleAt(v, 2 * i) == NibbleAt(Nibbles(d), 2 * i);
        assert NibbleAt(v, 2 * i + 1) == NibbleAt(Nibbles(d), 2 * i + 1);
        WholeByte(ByteAt(d, i), ByteAt(f, i));
      }
    }
    if SameBytes(d, f) {
      forall i: nat ensures NibbleAt(v, i) == NibbleAt(Nibbles(d), i) {
        assert ByteAt(d, i / 2) == ByteAt(f, i / 2);
      }
    }
  }

  /** Fewer than 32767 nibbles, over which no half byte is left as it was, decode to the
      members of d exactly when they are the nibbles of d up to trailing zeros. */
  lemma ReadsBack(d: seq<Byte>, q: Packed, e: seq<Byte>, was: seq<Byte>, len: nat)
    requires Decoded(e, was, q, len) && |Unpack(q)| <= 2 * LEN_LIMIT - 2
    requires |Unpack(q)| % 2 == 1 && Flatten(q.entries) == [] ==>
               |Unpack(q)| / 2 < |was| && Half(was[|Unpack(q)| / 2], 1) == 0
    ensures len <= |e|
    ensures SameMembers(d, e[..len]) <==> SameNibbles(Unpack(q), Nibbles(d))
  {
    hide Nibbles, SameNibbles, SameBytes, SameMembers, Half, Flatten, Unpack, Trimmed, Written, Decoded;
    var v := Unpack(q);
    DecodedOnce(e, was, q, len);
    BytesAgree(d, v, e);
    CutTrimmed(d, e, (|v| + 1) / 2, len);
  }

  /** With zeros behind the message, a shipped set of at most 16379 bytes unpacks to the
      members it was packed from exactly when a superskip was used, no entry carries a bit,
      or the last one that does lies in the high half of its byte.  Otherwise the projection
      is one byte short. */
  lemma ShippedRoundTrip(d: seq<Byte>, e: seq<Byte>, was: seq<Byte>, len: nat)
    requires |d| <= LEN_LIMIT - 5
    requires Decoded(e, was, Shipped(Nibbles(d)), len)
    ensures len <= |e|
    ensures SameMembers(d, e[..len]) <==> Reaches(Nibbles(d))
  {
    hide Shipped, Reaches, Nibbles, SameNibbles, SameMembers, Half, Flatten, Unpack, Decoded;
    var u := Nibbles(d);
    ShippedSize(u);
    ShippedNibbles(u);
    ReadsBack(d, Shipped(u), e, was, len);
  }

  /** That is what it reads in the encoder's output up to the projected length and zeros behind. */
  lemma ShippedContents(u: seq<Nibble>, superSkip: bool, d: seq<Byte>, d': seq<Byte>)
    requires |d| == |d'| >= 2 + 5 * IndexLen(u)
    requires Packed(HeaderSkip(superSkip, d), Slots(d, Base(superSkip), IndexLen(u))) == Padded(Pack(u), IndexLen(u))
    requires forall i | 0 <= i < Base(superSkip) + 5 * IndexLen(u) :: d'[i] == if i < ProjectedLen(u) then d[i] else 0
    ensures Packed(HeaderSkip(superSkip, d'), Slots(d', Base(superSkip), IndexLen(u))) == Shipped(u)
  {
    hide Pack, IndexLen, Slots, HeaderBit, HeaderCount, Cut;
    var n := IndexLen(u);
    assert superSkip ==> ProjectedLen(u) >= 2;
    SlotsOfCutBytes(d, d', Base(superSkip), n, ProjectedPayload(Pack(u)));
    SkipFrame(superSkip, d, d', n);
  }

  lemma SkipFrame(superSkip: bool, d: seq<Byte>, d': seq<Byte>, n: nat)
    requires |d| == |d'| >= 2
    requires superSkip ==> d'[0] == d[0] && d'[1] == d[1]
    ensures HeaderSkip(superSkip, d') == HeaderSkip(superSkip, d)
  {
  }

  // ---- where the code falls short ------------------------------------------------------------

  lemma JustOne()
    ensures Chunks([1]) == [Lit(1)] && LeadRun([1]) == 0
  {
    var u: seq<Nibble> := [1];
    assert u[..0] == [];
  }

  lemma {:induction false} OneThenZeros(k: nat)
    requires k <= MAX_FILL
    ensures Chunks([1] + Repeat(0, k)) == if k == 0 then [Lit(1)] else [Lit(1), Fill(false, k)]
    ensures LeadRun([1] + Repeat(0, k)) == 0
  {
    hide Chunks, LeadRun;
    var v: seq<Nibble> := [1] + Repeat(0, k);
    if k == 0 {
      JustOne();
      assert v == [1];
    } else {
      var w: seq<Nibble> := [1] + Repeat(0, k - 1);
      OneThenZeros(k - 1);
      assert v == w + [0];
      ChunksSnoc(w, 0);
      LeadRunSnoc(w, 0);
    }
  }

  /** Four bytes 01 00 00 50: packing pays, two bytes are projected, and the last nibble is lost. */
  lemma ShortProjection()
    ensures var u := Nibbles([1, 0, 0, 80]);
            ProjectedLen(u) == 2 && IndexLen(u) == 1 && !Reaches(u)
  {
    hide Chunks, LeadRun;
    var u, v: seq<Nibble> := Nibbles([1, 0, 0, 80]), [1] + Repeat(0, 6);
    assert u == v + [5];
    OneThenZeros(6);
    ChunksSnoc(v, 5);
    LeadRunSnoc(v, 5);
    var es: seq<Entry> := [Lit(1), Fill(false, 6), Lit(5)];
    assert Chunks(u) == es;
  }

  /** 16383 bytes of ones: the decoder's length field wraps and members are lost. */
  lemma WrappedLength()
    ensures !LengthHolds(seq(LEN_LIMIT - 1, _ => 255))
  {
    var d: seq<Byte> := seq(LEN_LIMIT - 1, _ => 255);
    var u := Nibbles(d);
    assert forall i | 0 <= i < |u| :: u[i] == 15;
    assert LeadRun(u) == |u|;
    assert u[|u|..] == [];
    assert Pack(u) == Packed(Skip(true, |u|), []);
    hide Pack, LeadRun;
    assert FilledBytes(d, IndexLen(u)) == |d| + 4;
    assert d[|d| - 1] == 255;
  }
}
