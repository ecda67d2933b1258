/** Sizing, encoding and decoding together: what comes back is what went in. */
module SetRoundTrip {
  import opened Bits
  import opened RunLength
  import opened PackedLayout
  import opened NodeSets
  import opened Sizing
  import opened Encoder
  import opened Decoder

  // ---- the members of a bit vector ------------------------------------------------------

  predicate Member(d: seq<Byte>, loc: nat) {
    loc / 8 < |d| && Bit(d[loc / 8], loc % 8)
  }

  ghost predicate SameMembers(a: seq<Byte>, b: seq<Byte>) {
    forall loc: nat :: Member(a, loc) == Member(b, loc)
  }

  function ByteAt(d: seq<Byte>, i: nat): Byte { if i < |d| then d[i] else 0 }

  ghost predicate SameBytes(a: seq<Byte>, b: seq<Byte>) {
    forall i: nat :: ByteAt(a, i) == ByteAt(b, i)
  }

  lemma MemberOfByte(d: seq<Byte>, loc: nat)
    ensures Member(d, loc) == Bit(ByteAt(d, loc / 8), loc % 8)
  {
    BitOfZero(loc % 8);
  }

  /** Two vectors have the same members when they differ at most in trailing zero bytes. */
  lemma SameMembersIsSameBytes(a: seq<Byte>, b: seq<Byte>)
    ensures SameMembers(a, b) <==> SameBytes(a, b)
  {
    if SameMembers(a, b) {
      forall i: nat ensures ByteAt(a, i) == ByteAt(b, i) {
        forall k: nat | k < 8 ensures Bit(ByteAt(a, i), k) == Bit(ByteAt(b, i), k) {
          var loc := 8 * i + k;
          assert loc / 8 == i && loc % 8 == k;
          assert Member(a, loc) == Member(b, loc);
          MemberOfByte(a, loc); MemberOfByte(b, loc);
        }
        Pow2Of8();
        Bits.SameBits(ByteAt(a, i), ByteAt(b, i), 8);
      }
    }
    if SameBytes(a, b) {
      forall loc: nat ensures Member(a, loc) == Member(b, loc) {
        MemberOfByte(a, loc); MemberOfByte(b, loc);
        assert ByteAt(a, loc / 8) == ByteAt(b, loc / 8);
      }
    }
  }

  lemma TrimmedIsSame(d: seq<Byte>)
    ensures SameBytes(d[..Trimmed(d)], d)
  {
  }

  // ---- what the decoder makes of the encoder's output ----------------------------------------

  /** Clear slots left behind the entries: the decoder reads them as zero nibbles. */
  function Padding(u: seq<Nibble>, n: nat): nat {
    if |Pack(u).entries| <= 8 * n then 8 * n - |Pack(u).entries| else 0
  }

  lemma {:induction false} FlattenZeros(count: nat)
    ensures Flatten(Zeros(count)) == Repeat(0, count)
  {
    if count > 0 {
      FlattenZeros(count - 1);
      assert Zeros(count)[..count - 1] == Zeros(count - 1);
    }
  }

  lemma UnpackPadded(u: seq<Nibble>, n: nat)
    requires Counted(u) <= 8 * n
    ensures Unpack(Padded(Pack(u), n)) == u + Repeat(0, Padding(u, n))
    ensures Flatten(Padded(Pack(u), n).entries) == Flatten(Pack(u).entries) + Repeat(0, Padding(u, n))
  {
    hide Pack, Flatten;
    var p := Pack(u);
    UnpackPack(u);
    FlattenConcat(p.entries, Zeros(Padding(u, n)));
    FlattenZeros(Padding(u, n));
  }

  lemma WholeByte(a: Byte, b: Byte)
    requires Half(a, 0) == Half(b, 0) && Half(a, 1) == Half(b, 1)
    ensures a == b
  {
  }

  /** Bytes the decoder fills from the packed form of d: those of d and the padding. */
  function FilledBytes(d: seq<Byte>, n: nat): nat {
    |d| + (Padding(Nibbles(d), n) + 1) / 2
  }

  /** Bytes whose nibbles are those of d and then zeros are those of d and then zeros. */
  lemma BytesOfNibbles(d: seq<Byte>, pad: nat, e: seq<Byte>)
    requires Written(e, Nibbles(d) + Repeat(0, pad))
    requires pad % 2 == 1 ==> Half(e[|d| + pad / 2], 1) == 0
    ensures |d| + (pad + 1) / 2 <= |e|
    ensures forall i: nat | i < |d| + (pad + 1) / 2 :: e[i] == ByteAt(d, i)
  {
    hide Half;
    HalfOfZero();
    var v := Nibbles(d) + Repeat(0, pad);
    forall i: nat | i < |d| + (pad + 1) / 2 ensures e[i] == ByteAt(d, i) {
      assert Half(e[2 * i / 2], 2 * i % 2) == v[2 * i] == Half(ByteAt(d, i), 0);
      if 2 * i + 1 < |v| {
        assert (2 * i + 1) / 2 == i && (2 * i + 1) % 2 == 1;
        assert Half(e[(2 * i + 1) / 2], (2 * i + 1) % 2) == v[2 * i + 1] == Half(ByteAt(d, i), 1);
      }
      WholeByte(e[i], ByteAt(d, i));
    }
  }

  /** The first t bytes of e are those of d and then zeros, and len is their trimmed length. */
  ghost predicate Original(d: seq<Byte>, e: seq<Byte>, t: nat, len: nat) {
    && t <= |e| && (forall i: nat | i < t :: e[i] == ByteAt(d, i))
    && len == Trimmed(e[..t % LEN_LIMIT])
  }

  lemma DecodedIsOriginal(d: seq<Byte>, n: nat, e: seq<Byte>, was: seq<Byte>, len: nat)
    requires Counted(Nibbles(d)) <= 8 * n
    requires Decoded(e, was, Padded(Pack(Nibbles(d)), n), len) && FilledBytes(d, n) <= CURSOR_LIMIT
    ensures Original(d, e, FilledBytes(d, n), len)
  {
    hide Pack, Padded, Counted, Padding, Half, Written, Unpack, Flatten, Trimmed, Decoded;
    var u, pad := Nibbles(d), Padding(Nibbles(d), n);
    UnpackPadded(u, n);
    DecodedOnce(e, was, Padded(Pack(u), n), len);
    BytesOfNibbles(d, pad, e);
  }

  /** Whether the 14-bit length field can hold the length before trimming, or the bytes
      that a wrapped length leaves out are all zero. */
  predicate LengthHolds(d: seq<Byte>) {
    var t := FilledBytes(d, IndexLen(Nibbles(d)));
    t < LEN_LIMIT || forall i | 0 <= i < |d| && t - LEN_LIMIT <= i :: d[i] == 0
  }

  lemma PaddingBound(u: seq<Nibble>)
    ensures Padding(u, IndexLen(u)) <= 8
    ensures Pack(u).skip.Skip? ==> Padding(u, IndexLen(u)) >= 1
    ensures u == [] ==> IndexLen(u) == Padding(u, IndexLen(u)) == 0
  {
  }

  lemma FilledBound(d: seq<Byte>)
    ensures |d| <= FilledBytes(d, IndexLen(Nibbles(d))) <= |d| + 4
    ensures d == [] ==> FilledBytes(d, IndexLen(Nibbles(d))) == 0
  {
    PaddingBound(Nibbles(d));
  }

  /** Cutting the t bytes that begin like d and go on with zeros to t modulo the length
      limit keeps d exactly when nothing but zeros is cut off. */
  lemma CutBytes(d: seq<Byte>, e: seq<Byte>, t: nat)
    requires |d| < LEN_LIMIT && |d| <= t <= |e| && t < 2 * LEN_LIMIT
    requires forall i: nat | i < t :: e[i] == ByteAt(d, i)
    ensures SameBytes(d, e[..t % LEN_LIMIT]) <==>
              t < LEN_LIMIT || forall i | 0 <= i < |d| && t - LEN_LIMIT <= i :: d[i] == 0
  {
    var w := t % LEN_LIMIT;
    if t < LEN_LIMIT || forall i | 0 <= i < |d| && t - LEN_LIMIT <= i :: d[i] == 0 {
      forall i: nat ensures ByteAt(d, i) == ByteAt(e[..w], i) {
      }
    } else {
      var i :| 0 <= i < |d| && t - LEN_LIMIT <= i && d[i] != 0;
      assert ByteAt(e[..w], i) == 0;
    }
  }

  lemma CutTrimmed(d: seq<Byte>, e: seq<Byte>, w: nat, len: nat)
    requires w <= |e| && len == Trimmed(e[..w])
    ensures len <= |e|
    ensures SameMembers(d, e[..len]) <==> SameBytes(d, e[..w])
  {
    TrimmedIsSame(e[..w]);
    assert e[..w][..len] == e[..len];
    SameMembersIsSameBytes(d, e[..len]);
    if SameBytes(d, e[..w]) {
      forall i: nat ensures ByteAt(d, i) == ByteAt(e[..len], i) {
        assert ByteAt(e[..len], i) == ByteAt(e[..w], i);
      }
    }
    if SameBytes(d, e[..len]) {
      forall i: nat ensures ByteAt(d, i) == ByteAt(e[..w], i) {
        assert ByteAt(e[..len], i) == ByteAt(e[..w], i);
      }
    }
  }

  /** The round trip keeps the members exactly when the length field holds, as it does for
      every set of at most 16379 bytes. */
  lemma RoundTrip(d: seq<Byte>, e: seq<Byte>, was: seq<Byte>, len: nat)
    requires |d| < LEN_LIMIT
    requires Decoded(e, was, Padded(Pack(Nibbles(d)), IndexLen(Nibbles(d))), len)
    ensures len <= |e|
    ensures SameMembers(d, e[..len]) <==> LengthHolds(d)
    ensures |d| <= LEN_LIMIT - 5 ==> LengthHolds(d)
  {
    hide Pack, Nibbles, Padded, Counted, IndexLen, FilledBytes, Decoded, SameMembers, SameBytes;
    var n := IndexLen(Nibbles(d));
    FilledBound(d);
    DecodedIsOriginal(d, n, e, was, len);
    var t := FilledBytes(d, n);
    CutBytes(d, e, t);
    CutTrimmed(d, e, t % LEN_LIMIT, len);
  }

  /** A set with no trailing zero byte comes back byte for byte. */
  lemma RoundTripCanonical(d: seq<Byte>, e: seq<Byte>, was: seq<Byte>, len: nat)
    requires |d| <= LEN_LIMIT - 5 && Significant(d) == |d|
    requires Decoded(e, was, Padded(Pack(Nibbles(d)), IndexLen(Nibbles(d))), len)
    ensures len == |d| && len <= |e| && e[..len] == d
  {
    hide Pack, Nibbles, Padded, Counted, IndexLen, FilledBytes, Decoded;
    var n := IndexLen(Nibbles(d));
    FilledBound(d);
    DecodedIsOriginal(d, n, e, was, len);
    CanonicalLength(e, FilledBytes(d, n), d, len);
  }

  lemma CanonicalLength(e: seq<Byte>, t: nat, d: seq<Byte>, len: nat)
    requires |d| <= t <= |e| && t < LEN_LIMIT && Significant(d) == |d| && len == Trimmed(e[..t % LEN_LIMIT])
    requires forall i: nat | i < t :: e[i] == ByteAt(d, i)
    requires d == [] ==> t == 0
    ensures len == |d| && e[..len] == d
  {
    hide Significant;
    var f := e[..t];
    assert t % LEN_LIMIT == t;
    assert forall i | |d| <= i < |f| :: f[i] == 0;
    assert d != [] ==> f[|d| - 1] == d[|d| - 1];
    SignificantIs(f, |d|);
    assert d == [] ==> f == [];
    assert forall i | 0 <= i < |d| :: e[i] == d[i];
  }

  // ---- the three passes in sequence ----------------------------------------------------------

  /** Sizes, encodes or copies, and decodes a set, every buffer being as long as the code
      allocates it, and compares the outcome with the original. */
  method PackAndUnpack(orig: NodeSet) returns (same: bool, saves: bool, back: NodeSet)
    requires orig.Plain()
    ensures back.Plain()
    ensures SameMembers(orig.Bytes(), back.Bytes()) <==> !saves || LengthHolds(orig.Bytes())
    ensures orig.len <= LEN_LIMIT - 5 ==> SameMembers(orig.Bytes(), back.Bytes())
    ensures same <==> orig.Bytes() == back.Bytes()
    ensures orig.len <= LEN_LIMIT - 5 && Significant(orig.Bytes()) == orig.len ==> same
  {
    hide Pack, Counted, IndexLen, ProjectedLen, Unpack, UnpackedBytes, Decoded, Fits, Slots, LengthHolds, SameMembers,
         Significant, Padded, Nibbles;
    ghost var d := orig.Bytes();
    var projLen, idxLen;
    saves, projLen, idxLen := PreprocessSet(orig);
    PackedSize(d);
    var buf := new Byte[5 * idxLen + 2];
    var comp := new NodeSet(buf);
    if saves {
      CompressSet(orig, comp, idxLen);
    } else {
      CopyFits(Nibbles(d), orig.len);
      CopySet(comp, orig);
    }
    if saves { ReadSlotsIff(comp.data[..], Base(comp.superSkip), comp.len); }
    var size := MaxDecompressedLen(comp);
    if saves { JustFits(comp.Reading()); }
    var newBuf := new Byte[size - HEADER_SIZE];
    back := new NodeSet(newBuf);
    ghost var was := newBuf[..];
    DecompressSet(comp, back);
    same := SetsEqual(orig, back);
    if saves {
      RoundTrip(d, back.data[..], was, back.len);
      if orig.len <= LEN_LIMIT - 5 && Significant(d) == orig.len {
        RoundTripCanonical(d, back.data[..], was, back.len);
      }
    } else {
      SameMembersOfSelf(d);
    }
  }

  lemma JustFits(p: Packed)
    ensures Fits(p, UnpackedBytes(p))
  {
  }

  lemma SameMembersOfSelf(d: seq<Byte>)
    ensures SameMembers(d, d)
  {
  }

  lemma PackedSize(d: seq<Byte>)
    requires |d| < LEN_LIMIT
    ensures 8 * IndexLen(Nibbles(d)) <= LOC_LIMIT
    ensures |Unpack(Padded(Pack(Nibbles(d)), IndexLen(Nibbles(d))))| < 0x10000
    ensures UnpackedBytes(Padded(Pack(Nibbles(d)), IndexLen(Nibbles(d)))) <= 0xFFFF
  {
    var u := Nibbles(d);
    CountedBound(u, |u|);
    assert u[..|u|] == u;
    UnpackPadded(u, IndexLen(u));
    PaddingBound(u);
  }

  /** The buffer allocated for the packed form can hold the set itself when packing does not pay. */
  lemma CopyFits(u: seq<Nibble>, len: nat)
    requires len <= ProjectedLen(u)
    ensures len <= 5 * IndexLen(u) + 2
  {
  }
}
