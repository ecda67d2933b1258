/** A roll call: a node set is packed and sent as a message of its projected length.  The
    receiver unpacks its message buffer, which behind the message holds whatever it held
    before, into a set with a fixed number of bytes.  When does the same set come back whatever
    that was, when does a given buffer give it back, and when does unpacking stay inside the
    receiver's bytes? */
module RollCall {
  import opened Bits
  import opened RunLength
  import opened PackedLayout
  import opened NodeSets
  import opened Sizing
  import opened Encoder
  import opened Decoder
  import opened SetRoundTrip
  import opened ShippedSet

  // ---- any buffer ----------------------------------------------------------------------------

  /** No record is left out of the message. */
  predicate NoSlotCut(u: seq<Nibble>) { ProjectedPayload(Pack(u)) >= 4 * IndexLen(u) }

  /** What the decoder reads in the bytes m. */
  ghost function ReadingOf(m: seq<Byte>, superSkip: bool, n: nat): Packed
    requires |m| >= 2 + 5 * n
  {
    Packed(HeaderSkip(superSkip, m), ReadSlots(m, Base(superSkip), n))
  }

  /** The bytes m hold the packed form of u. */
  ghost predicate HoldsPacked(m: seq<Byte>, superSkip: bool, u: seq<Nibble>) {
    && |u| < 2 * LEN_LIMIT && |m| >= 2 + 5 * IndexLen(u)
    && Packed(HeaderSkip(superSkip, m), Slots(m, Base(superSkip), IndexLen(u))) == Padded(Pack(u), IndexLen(u))
  }

  /** A buffer after the first `sent` bytes of m arrived in it. */
  ghost predicate Arrived(m: seq<Byte>, m': seq<Byte>, sent: nat) {
    |m'| == |m| && forall i | 0 <= i < sent && i < |m| :: m'[i] == m[i]
  }

  /** Whatever a buffer held before the message arrived, decoding it into a blank set of that many
      bytes stays inside them and gives the members of d. */
  ghost predicate Survives(d: seq<Byte>, m: seq<Byte>, superSkip: bool, n: nat, sent: nat, room: nat)
    requires |m| >= 2 + 5 * n
  {
    forall m' | Arrived(m, m', sent) ::
      && Fits(ReadingOf(m', superSkip, n), room)
      && forall e, was, len | |was| == room && Blanked(was) && Decoded(e, was, ReadingOf(m', superSkip, n), len) ::
           SameMembers(d, Front(e, len))
  }

  /** The first bytes; what is decoded has no more. */
  function Front(e: seq<Byte>, len: nat): seq<Byte> { if len <= |e| then e[..len] else e }

  predicate Blanked(was: seq<Byte>) { forall i | 0 <= i < |was| :: was[i] == 0 }

  lemma ReadingIsSlots(m: seq<Byte>, superSkip: bool, u: seq<Nibble>)
    requires |u| < 2 * LEN_LIMIT && |m| >= 2 + 5 * IndexLen(u)
    ensures ReadingOf(m, superSkip, IndexLen(u)) ==
              Packed(HeaderSkip(superSkip, m), Slots(m, Base(superSkip), IndexLen(u)))
  {
    hide ReadSlots, Slots, Pack, HeaderSkip;
    CountedBound(u, |u|);
    assert u[..|u|] == u;
    ReadSlotsIff(m, Base(superSkip), IndexLen(u));
  }

  /** A message that leaves no record out is read as it was packed. */
  lemma WholeReading(u: seq<Nibble>, m: seq<Byte>, m': seq<Byte>, superSkip: bool)
    requires HoldsPacked(m, superSkip, u) && NoSlotCut(u) && Arrived(m, m', ProjectedLen(u))
    ensures ReadingOf(m', superSkip, IndexLen(u)) == Padded(Pack(u), IndexLen(u))
  {
    hide Pack, IndexLen, HeaderBit, HeaderCount, ReadSlots;
    var (n, base) := (IndexLen(u), Base(superSkip));
    ReadingIsSlots(m', superSkip, u);
    assert ProjectedLen(u) >= base + 5 * n;
    SlotsOfCutBytes(m, m', base, n, 4 * n);
    assert Cut(Slots(m, base, n), 8 * n) == Slots(m, base, n);
    SkipFrame(superSkip, m, m', n);
  }

  /** The record whose first half slot k is, unfilled or with one nibble of ones in it. */
  function Spoiled(es: seq<Entry>, k: nat): (r: seq<Entry>)
    requires k < |es|
  {
    es[k := if es[k].Fill? then Fill(true, 1) else Lit(1)]
  }

  lemma SpoiledShows(u: seq<Nibble>)
    requires !NoSlotCut(u)
    ensures var (q, k) := (Shipped(u), 2 * ProjectedPayload(Pack(u)));
            && k < |q.entries|
            && !SameNibbles(Unpack(Packed(q.skip, Spoiled(q.entries, k))), Unpack(q))
  {
    var (q, k) := (Shipped(u), 2 * ProjectedPayload(Pack(u)));
    var (es, r) := (q.entries, Spoiled(q.entries, k));
    hide Pack, Padded, IndexLen, ProjectedPayload, Flatten, SameNibbles, Cut;
    HoleShows(r, es, k);
    SameBehind(SkipNibbles(q), Flatten(r), Flatten(es));
  }

  /** Every packed fill counts something. */
  lemma PackedFillsCount(u: seq<Nibble>)
    ensures forall e | e in Padded(Pack(u), IndexLen(u)).entries :: |Expand(e)| >= 1
  {
    EntriesFit(u);
    EntriesFit(u[LeadRun(u)..]);
  }

  lemma SpoiledSize(u: seq<Nibble>)
    requires !NoSlotCut(u)
    ensures var (q, k) := (Shipped(u), 2 * ProjectedPayload(Pack(u)));
            |Unpack(Packed(q.skip, Spoiled(q.entries, k)))| <= |u| + 8
  {
    var (p, q, k) := (Padded(Pack(u), IndexLen(u)), Shipped(u), 2 * ProjectedPayload(Pack(u)));
    var r := Spoiled(q.entries, k);
    hide Pack, IndexLen, Flatten, ProjectedPayload, LastPayload;
    UnpackPadded(u, IndexLen(u));
    PaddingBound(u);
    PackedFillsCount(u);
    forall i | 0 <= i < |r| ensures |Expand(r[i])| <= |Expand(p.entries[i])| {
      assert p.entries[i] in p.entries;
    }
    FlattenShorter(p.entries, r);
  }

  /** The spoiled reading comes from a buffer: four bits behind the message are enough. */
  lemma SpoiledBuffer(u: seq<Nibble>, m: seq<Byte>, superSkip: bool) returns (m0: seq<Byte>, m1: seq<Byte>)
    requires HoldsPacked(m, superSkip, u) && !NoSlotCut(u)
    ensures Arrived(m, m0, ProjectedLen(u)) && Arrived(m, m1, ProjectedLen(u))
    ensures var (q, n, k) := (Shipped(u), IndexLen(u), 2 * ProjectedPayload(Pack(u)));
            && ReadingOf(m0, superSkip, n) == q && k < |q.entries|
            && ReadingOf(m1, superSkip, n) == Packed(q.skip, Spoiled(q.entries, k))
  {
    hide Pack, IndexLen, HeaderBit, HeaderCount, ReadSlots, ProjectedPayload, Slot;
    var (q, n, base) := (Shipped(u), IndexLen(u), Base(superSkip));
    var (b, sent) := (ProjectedPayload(Pack(u)), ProjectedLen(u));
    m0 := seq(|m|, i requires 0 <= i < |m| => if i < sent then m[i] else 0);
    ShippedContents(u, superSkip, m, m0);
    ReadingIsSlots(m0, superSkip, u);
    m1 := PutNibble(m0, base, n, b, 0, if SlotMark(m0, base, n, 2 * b) then 3 else 1);
    ReadingIsSlots(m1, superSkip, u);
    SkipFrame(superSkip, m0, m1, n);
    assert |q.entries| == 8 * n;
    forall i | 0 <= i < 8 * n ensures Slots(m1, base, n)[i] == Spoiled(q.entries, 2 * b)[i] {
      SpoiledSlot(m0, base, n, b, i);
      assert Slots(m0, base, n)[i] == q.entries[i];
    }
  }

  lemma SpoiledSlot(m0: seq<Byte>, base: nat, n: nat, b: nat, i: nat)
    requires base + 5 * n <= |m0| && b < 4 * n && i < 8 * n
    ensures var m1 := PutNibble(m0, base, n, b, 0, if SlotMark(m0, base, n, 2 * b) then 3 else 1);
            Slots(m1, base, n)[i] == if i != 2 * b then Slots(m0, base, n)[i]
                                     else if Slots(m0, base, n)[i].Fill? then Fill(true, 1) else Lit(1)
  {
    SlotOfPutNibble(m0, base, n, b, 0, if SlotMark(m0, base, n, 2 * b) then 3 else 1, i);
  }

  function ByteOf(lo: Nibble, hi: Nibble): (b: Byte)
    ensures Half(b, 0) == lo && Half(b, 1) == hi
  {
    lo + 16 * hi
  }

  /** The bytes whose halves are v, and a zero half if v is odd. */
  function BytesFrom(v: seq<Nibble>): (e: seq<Byte>)
    ensures |e| == (|v| + 1) / 2
  {
    seq((|v| + 1) / 2, i requires 0 <= i < (|v| + 1) / 2 => ByteOf(NibbleAt(v, 2 * i), NibbleAt(v, 2 * i + 1)))
  }

  lemma HalfFrom(v: seq<Nibble>, b: nat, h: nat)
    requires 2 * b < |v| && h < 2
    ensures Half(BytesFrom(v)[b], h) == NibbleAt(v, 2 * b + h)
  {
    hide Half, ByteOf, NibbleAt;
    assert BytesFrom(v)[b] == ByteOf(NibbleAt(v, 2 * b), NibbleAt(v, 2 * b + 1));
  }

  lemma BytesFromWritten(v: seq<Nibble>, rest: seq<Byte>)
    ensures Written(BytesFrom(v) + rest, v)
    ensures |v| % 2 == 1 ==> Half((BytesFrom(v) + rest)[|v| / 2], 1) == 0
  {
    hide Half, BytesFrom;
    forall i | 0 <= i < |v| ensures Half((BytesFrom(v) + rest)[i / 2], i % 2) == v[i] {
      HalfFrom(v, i / 2, i % 2);
    }
    if |v| % 2 == 1 { HalfFrom(v, |v| / 2, 1); }
  }

  /** Something is decoded from every reading that fits. */
  lemma SomeDecoding(q: Packed, room: nat) returns (e: seq<Byte>, was: seq<Byte>, len: nat)
    requires UnpackedBytes(q) <= room && UnpackedBytes(q) <= CURSOR_LIMIT
    ensures |was| == room && Blanked(was) && Decoded(e, was, q, len)
  {
    hide Unpack, Trimmed, Flatten, BytesFrom, Written, Half, Overwritten;
    var t := UnpackedBytes(q);
    was := seq(room, _ => 0);
    e := BytesFrom(Unpack(q)) + was[t..];
    len := Trimmed(e[..t % LEN_LIMIT]);
    BytesFromWritten(Unpack(q), was[t..]);
    BlankHalf(was);
    OnceWritten(e, Unpack(q));
    assert Unpack(q) == SkipNibbles(q) + Flatten(q.entries) by { UnpackParts(q); }
  }

  lemma UnpackParts(q: Packed)
    ensures Unpack(q) == SkipNibbles(q) + Flatten(q.entries)
  {
  }

  lemma OnceWritten(d: seq<Byte>, u: seq<Nibble>)
    requires Written(d, u) && |u| <= 2 * CURSOR_LIMIT
    ensures Overwritten(d, u)
  {
    hide Half;
    forall i | 0 <= i < |u| ensures i / 2 % CURSOR_LIMIT == i / 2 && Half(d[i / 2], i % 2) == u[i] {
    }
  }

  lemma BlankHalf(was: seq<Byte>)
    requires Blanked(was)
    ensures forall i | 0 <= i < |was| :: Half(was[i], 1) == 0
  {
  }

  // ---- how much is read, whatever the buffer holds -------------------------------------------------

  /** Behind the message a slot that is marked may count seven nibbles; one that is not is one. */
  function WorstEntry(e: Entry): Entry { if e.Fill? then Fill(true, MAX_FILL) else Lit(15) }

  function Worst(u: seq<Nibble>): (q: Packed)
    ensures |q.entries| == |Padded(Pack(u), IndexLen(u)).entries|
  {
    var (p, k) := (Padded(Pack(u), IndexLen(u)), 2 * ProjectedPayload(Pack(u)));
    Packed(p.skip, seq(|p.entries|, i requires 0 <= i < |p.entries| =>
                         if i < k then p.entries[i] else WorstEntry(p.entries[i])))
  }

  /** Bytes that are filled at most: those of the slots that arrive, one nibble for every
      unmarked slot that does not, and seven for every marked one. */
  ghost function RoomNeeded(u: seq<Nibble>): nat { UnpackedBytes(Worst(u)) }

  /** What arrives of a message is read as it was packed; behind it the marks are right, the
      nibbles are not. */
  ghost predicate ReadsLike(q: Packed, p: Packed, k: nat) {
    && q.skip == p.skip && |q.entries| == |p.entries|
    && (forall i | 0 <= i < |q.entries| && i < k :: q.entries[i] == p.entries[i])
    && forall i | k <= i < |q.entries| ::
         q.entries[i].Fill? == p.entries[i].Fill? && (q.entries[i].Fill? ==> q.entries[i].count <= MAX_FILL)
  }

  lemma TailReading(u: seq<Nibble>, m: seq<Byte>, m': seq<Byte>, superSkip: bool)
    requires HoldsPacked(m, superSkip, u) && Arrived(m, m', ProjectedLen(u))
    ensures ReadsLike(ReadingOf(m', superSkip, IndexLen(u)), Padded(Pack(u), IndexLen(u)),
                      2 * ProjectedPayload(Pack(u)))
  {
    hide Pack, IndexLen, HeaderBit, HeaderCount, ReadSlots, ProjectedPayload, Padded, Slots;
    var (n, base, b) := (IndexLen(u), Base(superSkip), ProjectedPayload(Pack(u)));
    ReadingIsSlots(m', superSkip, u);
    PaddedSkip(u);
    SkipFrame(superSkip, m, m', n);
    forall i: nat | i < 8 * n
      ensures var (x, y) := (Slots(m', base, n)[i], Slots(m, base, n)[i]);
              && x.Fill? == y.Fill? && (x.Fill? ==> x.count <= MAX_FILL) && (i < 2 * b ==> x == y)
    {
      SlotsAgree(m, m', base, n, b, i);
    }
  }

  lemma PaddedSkip(u: seq<Nibble>)
    ensures Padded(Pack(u), IndexLen(u)).skip == Pack(u).skip
  {
  }

  lemma SlotsAgree(m: seq<Byte>, m': seq<Byte>, base: nat, n: nat, b: nat, i: nat)
    requires base + 5 * n <= |m| == |m'| && i < 8 * n
    requires forall j | 0 <= j < base + n + b && j < |m| :: m'[j] == m[j]
    ensures var (x, y) := (Slots(m', base, n)[i], Slots(m, base, n)[i]);
            && x.Fill? == y.Fill? && (x.Fill? ==> x.count <= MAX_FILL) && (i < 2 * b ==> x == y)
  {
  }

  lemma WorstReadsLike(u: seq<Nibble>)
    ensures ReadsLike(Worst(u), Padded(Pack(u), IndexLen(u)), 2 * ProjectedPayload(Pack(u)))
  {
    hide Pack, IndexLen, ProjectedPayload, Padded;
  }

  lemma ReadingShorter(q: Packed, u: seq<Nibble>)
    requires ReadsLike(q, Padded(Pack(u), IndexLen(u)), 2 * ProjectedPayload(Pack(u)))
    ensures |Unpack(q)| <= |Unpack(Worst(u))|
  {
    hide Pack, IndexLen, ProjectedPayload, Padded, Flatten;
    forall i | 0 <= i < |q.entries| ensures |Expand(q.entries[i])| <= |Expand(Worst(u).entries[i])| {
    }
    FlattenShorter(Worst(u).entries, q.entries);
  }

  /** The longest reading is that of a buffer full of ones. */
  lemma WorstBuffer(u: seq<Nibble>, m: seq<Byte>, superSkip: bool) returns (m': seq<Byte>)
    requires HoldsPacked(m, superSkip, u)
    ensures Arrived(m, m', ProjectedLen(u)) && ReadingOf(m', superSkip, IndexLen(u)) == Worst(u)
  {
    hide Pack, IndexLen, HeaderBit, HeaderCount, ReadSlots, ProjectedPayload, Padded, Slots;
    var (n, base, b, sent) := (IndexLen(u), Base(superSkip), ProjectedPayload(Pack(u)), ProjectedLen(u));
    m' := seq(|m|, i requires 0 <= i < |m| => if i < sent then m[i] else 255);
    ReadingIsSlots(m', superSkip, u);
    PaddedSkip(u);
    SkipFrame(superSkip, m, m', n);
    forall i: nat | i < 8 * n
      ensures Slots(m', base, n)[i] == if i < 2 * b then Slots(m, base, n)[i] else WorstEntry(Slots(m, base, n)[i])
    {
      OnesBehind(m, m', base, n, b, i);
    }
  }

  lemma OnesBehind(m: seq<Byte>, m': seq<Byte>, base: nat, n: nat, b: nat, i: nat)
    requires base + 5 * n <= |m| == |m'| && i < 8 * n
    requires forall j | 0 <= j < |m| :: m'[j] == if j < base + n + b then m[j] else 255
    ensures Slots(m', base, n)[i] == if i < 2 * b then Slots(m, base, n)[i] else WorstEntry(Slots(m, base, n)[i])
  {
    assert Half(255, 0) == Half(255, 1) == 15;
  }

  /** Unpacking stays inside the receiver's bytes whatever its buffer held, exactly when there
      is room for the longest reading, or for all that a 16-bit cursor can reach. */
  lemma StaysInsideIff(u: seq<Nibble>, m: seq<Byte>, superSkip: bool, room: nat)
    requires HoldsPacked(m, superSkip, u)
    ensures (forall m' | Arrived(m, m', ProjectedLen(u)) :: Fits(ReadingOf(m', superSkip, IndexLen(u)), room)) <==>
              RoomNeeded(u) <= room || CURSOR_LIMIT <= room
  {
    hide ReadingOf, HoldsPacked, Unpack, Worst, IndexLen, ProjectedLen;
    HeldFits(u, m, superSkip);
    var w := WorstBuffer(u, m, superSkip);
    if RoomNeeded(u) <= room || CURSOR_LIMIT <= room {
      forall m' | Arrived(m, m', ProjectedLen(u)) ensures Fits(ReadingOf(m', superSkip, IndexLen(u)), room) {
        TailReading(u, m, m', superSkip);
        ReadingShorter(ReadingOf(m', superSkip, IndexLen(u)), u);
      }
    } else {
      assert !Fits(ReadingOf(w, superSkip, IndexLen(u)), room);
    }
  }

  lemma HeldFits(u: seq<Nibble>, m: seq<Byte>, superSkip: bool)
    requires HoldsPacked(m, superSkip, u)
    ensures |m| >= 2 + 5 * IndexLen(u)
  {
  }

  /** It is never less than the set and its padding take, and just that for a whole message;
      with a superskip it is more than the set itself takes. */
  lemma RoomNeededAtLeast(d: seq<Byte>)
    ensures var (u, t) := (Nibbles(d), FilledBytes(d, IndexLen(Nibbles(d))));
            && RoomNeeded(u) >= t >= |d|
            && (NoSlotCut(u) ==> RoomNeeded(u) == t)
            && (Pack(u).skip.Skip? ==> t > |d|)
  {
    var u := Nibbles(d);
    var p := Padded(Pack(u), IndexLen(u));
    hide Pack, IndexLen, ProjectedPayload, Flatten, Nibbles, Chunks;
    PaddingBound(u);
    UnpackPadded(u, IndexLen(u));
    PaddedFillsFit(u);
    forall i | 0 <= i < |p.entries| ensures |Expand(p.entries[i])| <= |Expand(Worst(u).entries[i])| {
      assert p.entries[i] in p.entries;
    }
    FlattenShorter(Worst(u).entries, p.entries);
    if NoSlotCut(u) {
      assert |p.entries| <= 8 * IndexLen(u) by { PaddedCount(u); }
      assert Worst(u).entries == p.entries;
    }
  }

  lemma PaddedCount(u: seq<Nibble>)
    ensures |Padded(Pack(u), IndexLen(u)).entries| == 8 * IndexLen(u)
  {
  }

  lemma PaddedFillsFit(u: seq<Nibble>)
    ensures forall e | e in Padded(Pack(u), IndexLen(u)).entries ::
              |Expand(e)| <= MAX_FILL && (e.Lit? ==> |Expand(e)| == 1)
  {
    EntriesFit(u);
    EntriesFit(u[LeadRun(u)..]);
  }

  // ---- which buffers give the set back ---------------------------------------------------------------

  /** Some buffer makes a message that leaves records out unpack to another set, or past the room. */
  lemma SomeBufferSpoils(d: seq<Byte>, m: seq<Byte>, superSkip: bool, room: nat)
    requires |d| <= LEN_LIMIT - 5 && HoldsPacked(m, superSkip, Nibbles(d)) && !NoSlotCut(Nibbles(d))
    ensures !Survives(d, m, superSkip, IndexLen(Nibbles(d)), ProjectedLen(Nibbles(d)), room)
  {
    hide Nibbles, NoSlotCut, ReadingOf, Spoiled, Shipped, Unpack, Overwritten, Tail, Pack, IndexLen, ProjectedLen,
         ProjectedPayload, SameMembers, Flatten, HeaderSkip, Padded;
    var u := Nibbles(d);
    var (q, n) := (Shipped(u), IndexLen(u));
    var m0, m1 := SpoiledBuffer(u, m, superSkip);
    SpoiledShows(u);
    SpoiledSize(u);
    ShippedSize(u);
    var m' := if SameNibbles(Unpack(q), u) then m1 else m0;
    if Fits(ReadingOf(m', superSkip, n), room) {
      var e, was, len := SomeDecoding(ReadingOf(m', superSkip, n), room);
      BlankHalf(was);
      ReadsBack(d, ReadingOf(m', superSkip, n), e, was, len);
    }
  }

  /** A packed set of at most 16379 bytes that is sent as a message of its projected length
      unpacks to the same members, inside the receiver's bytes and whatever its buffer held
      before, exactly when the message leaves no record out and there is room for the set and
      its padding. */
  lemma SurvivesIff(d: seq<Byte>, m: seq<Byte>, superSkip: bool, room: nat)
    requires |d| <= LEN_LIMIT - 5 && HoldsPacked(m, superSkip, Nibbles(d))
    ensures var (u, n) := (Nibbles(d), IndexLen(Nibbles(d)));
            Survives(d, m, superSkip, n, ProjectedLen(u), room) <==> NoSlotCut(u) && FilledBytes(d, n) <= room
  {
    hide Nibbles, NoSlotCut, ReadingOf, Overwritten, Tail, Pack, Padded, IndexLen, ProjectedLen, SameMembers,
         HeaderSkip, Unpack, FilledBytes;
    var u := Nibbles(d);
    if NoSlotCut(u) {
      WholeSize(d, room);
      forall m' | Arrived(m, m', ProjectedLen(u))
        ensures ReadingOf(m', superSkip, IndexLen(u)) == Padded(Pack(u), IndexLen(u))
      {
        WholeReading(u, m, m', superSkip);
      }
      forall e, was, len | Decoded(e, was, Padded(Pack(u), IndexLen(u)), len)
        ensures SameMembers(d, Front(e, len))
      {
        RoundTrip(d, e, was, len);
      }
      assert Arrived(m, m, ProjectedLen(u));
    } else {
      SomeBufferSpoils(d, m, superSkip, room);
    }
  }

  lemma WholeSize(d: seq<Byte>, room: nat)
    requires |d| <= LEN_LIMIT - 5
    ensures var n := IndexLen(Nibbles(d));
            Fits(Padded(Pack(Nibbles(d)), n), room) <==> FilledBytes(d, n) <= room
  {
    hide Pack, IndexLen, Nibbles, Padded, Counted;
    FilledBound(d);
    IndexHolds(Nibbles(d));
    UnpackPadded(Nibbles(d), IndexLen(Nibbles(d)));
  }

  lemma IndexHolds(u: seq<Nibble>)
    ensures Counted(u) <= 8 * IndexLen(u)
  {
  }

  /** An entry that stands for no ones: a literal zero, a fill of zeros, or one that is empty. */
  predicate Harmless(e: Entry) { AllZero(Expand(e)) }

  lemma {:induction false} FlattenHarmless(es: seq<Entry>)
    ensures AllZero(Flatten(es)) <==> forall i | 0 <= i < |es| :: Harmless(es[i])
  {
    if es != [] {
      var front, last := es[..|es| - 1], es[|es| - 1];
      FlattenHarmless(front);
      var (a, b) := (Flatten(front), Expand(last));
      assert Flatten(es) == a + b;
      hide Expand, Flatten;
      if AllZero(a + b) {
        forall i | 0 <= i < |a| ensures a[i] == 0 { assert (a + b)[i] == 0; }
        forall i | 0 <= i < |b| ensures b[i] == 0 { assert (a + b)[|a| + i] == 0; }
      }
      assert forall i | 0 <= i < |front| :: front[i] == es[i];
    }
  }

  /** What the buffer must hold behind the message for the set to come back: the slots left out
      must read as the same bits as they were packed.  If no bit was left out, every one of them
      must be harmless. */
  lemma TailDecides(d: seq<Byte>, m: seq<Byte>, m': seq<Byte>, superSkip: bool, e: seq<Byte>, was: seq<Byte>, len: nat)
    requires |d| <= LEN_LIMIT - 5 && HoldsPacked(m, superSkip, Nibbles(d))
    requires Arrived(m, m', ProjectedLen(Nibbles(d))) && Blanked(was) && |was| < LEN_LIMIT
    requires Decoded(e, was, ReadingOf(m', superSkip, IndexLen(Nibbles(d))), len)
    ensures len <= |e|
    ensures var (u, n) := (Nibbles(d), IndexLen(Nibbles(d)));
            var (k, all, read) := (2 * ProjectedPayload(Pack(u)), Padded(Pack(u), n).entries,
                                   ReadingOf(m', superSkip, n).entries);
            && k <= |all| == |read|
            && (SameMembers(d, e[..len]) <==> SameNibbles(Flatten(read[k..]), Flatten(all[k..])))
            && (Reaches(u) ==> (SameMembers(d, e[..len]) <==> forall i | k <= i < |read| :: Harmless(read[i])))
  {
    hide Nibbles, ReadingOf, Overwritten, Tail, Pack, Padded, IndexLen, SameMembers, SameNibbles, HeaderSkip,
         Unpack, Flatten, ProjectedPayload, Reaches, Trimmed;
    var (u, n) := (Nibbles(d), IndexLen(Nibbles(d)));
    var (p, q, k) := (Padded(Pack(u), n), ReadingOf(m', superSkip, n), 2 * ProjectedPayload(Pack(u)));
    TailReading(u, m, m', superSkip);
    PayloadInside(u);
    BlankHalf(was);
    ReadsBack(d, q, e, was, len);
    TailNibbles(u, q);
    if Reaches(u) { BlankTail(u, q.entries[k..]); }
  }

  lemma PayloadInside(u: seq<Nibble>)
    ensures 2 * ProjectedPayload(Pack(u)) <= |Padded(Pack(u), IndexLen(u)).entries|
  {
    PackedEntries(u);
  }

  lemma TailNibbles(u: seq<Nibble>, q: Packed)
    requires ReadsLike(q, Padded(Pack(u), IndexLen(u)), 2 * ProjectedPayload(Pack(u)))
    requires 2 * ProjectedPayload(Pack(u)) <= |q.entries|
    ensures var (k, all) := (2 * ProjectedPayload(Pack(u)), Padded(Pack(u), IndexLen(u)).entries);
            SameNibbles(Unpack(q), u) <==> SameNibbles(Flatten(q.entries[k..]), Flatten(all[k..]))
  {
    hide Pack, Padded, IndexLen, SameNibbles, Flatten, ProjectedPayload, Counted, Unpack;
    var (p, k) := (Padded(Pack(u), IndexLen(u)), 2 * ProjectedPayload(Pack(u)));
    var (es, all) := (q.entries, p.entries);
    UnpackParts(q);
    UnpackParts(p);
    IndexHolds(u);
    UnpackPadded(u, IndexLen(u));
    FlattenAt(es, k);
    FlattenAt(all, k);
    assert es[..k] == all[..k];
    var head := SkipNibbles(q) + Flatten(es[..k]);
    assert Unpack(q) == head + Flatten(es[k..]) && Unpack(p) == head + Flatten(all[k..]);
    SameBehind(head, Flatten(es[k..]), Flatten(all[k..]));
    SameWithZeros(u, Padding(u, IndexLen(u)), Unpack(q));
    SameEitherWay(Unpack(q), Unpack(p));
  }

  lemma SameEitherWay(a: seq<Nibble>, b: seq<Nibble>)
    ensures SameNibbles(a, b) <==> SameNibbles(b, a)
  {
  }

  lemma BlankTail(u: seq<Nibble>, tail: seq<Entry>)
    requires Reaches(u) && 2 * ProjectedPayload(Pack(u)) <= |Padded(Pack(u), IndexLen(u)).entries|
    ensures var all := Padded(Pack(u), IndexLen(u)).entries;
            SameNibbles(Flatten(tail), Flatten(all[2 * ProjectedPayload(Pack(u))..])) <==>
              forall i | 0 <= i < |tail| :: Harmless(tail[i])
  {
    hide Pack, Padded, IndexLen, Flatten, Harmless, Expand, ProjectedPayload, Reaches;
    var all := Padded(Pack(u), IndexLen(u)).entries;
    var k := 2 * ProjectedPayload(Pack(u));
    BlankBehind(u);
    FlattenBlank(all[k..]);
    FlattenHarmless(tail);
    ZerosAreBlank(Flatten(tail), Flatten(all[k..]));
  }

  lemma BlankBehind(u: seq<Nibble>)
    requires Reaches(u)
    ensures var all := Padded(Pack(u), IndexLen(u)).entries;
            forall i | 2 * ProjectedPayload(Pack(u)) <= i < |all| :: Blank(all[i])
  {
    PackedEntries(u);
    hide Pack, Padded, IndexLen, Expand, LastPayload;
  }

  lemma ZerosAreBlank(a: seq<Nibble>, b: seq<Nibble>)
    requires AllZero(b)
    ensures SameNibbles(a, b) <==> AllZero(a)
  {
    if SameNibbles(a, b) {
      forall i | 0 <= i < |a| ensures a[i] == 0 { assert NibbleAt(a, i) == NibbleAt(b, i); }
    }
  }

  // ---- sending and receiving ----------------------------------------------------------------

  /** The sender's half: the set is packed if that pays and copied if not, and `sent` bytes
      of it go into the message. */
  method PutIntoMessage(alive: NodeSet, msg: NodeSet) returns (saves: bool, sent: nat)
    requires alive.Plain() && alive != msg && alive.data != msg.data
    requires msg.data.Length >= 2 + 5 * IndexLen(Nibbles(alive.Bytes()))
    modifies msg, msg.data
    ensures var u := Nibbles(alive.Bytes());
            && saves == (ProjectedLen(u) < alive.len) && sent <= msg.data.Length && |u| < 2 * LEN_LIMIT
            && (saves ==> msg.Packed() && msg.len == IndexLen(u) && sent == ProjectedLen(u)
                          && HoldsPacked(msg.data[..], msg.superSkip, u))
            && (!saves ==> msg.Plain() && sent == msg.len && msg.Bytes() == alive.Bytes())
  {
    hide Pack, Counted, IndexLen, ProjectedLen, Padded, Nibbles, Slots, HeaderSkip;
    var size, idxLen;
    saves, size, idxLen := PreprocessSet(alive);
    MessageFits(Nibbles(alive.Bytes()));
    if saves {
      IndexFits(Nibbles(alive.Bytes()));
      CompressSet(alive, msg, idxLen);
    } else {
      CopyFits(Nibbles(alive.Bytes()), alive.len);
      CopySet(msg, alive);
    }
    sent := size - HEADER_SIZE;
  }

  lemma MessageFits(u: seq<Nibble>)
    ensures ProjectedLen(u) <= 2 + 5 * IndexLen(u)
  {
  }

  lemma IndexFits(u: seq<Nibble>)
    requires |u| < 2 * LEN_LIMIT
    ensures IndexLen(u) < LEN_LIMIT && Counted(u) <= 8 * IndexLen(u)
  {
    CountedBound(u, |u|);
    assert u[..|u|] == u;
  }

  /** The channel: header and the first `sent` bytes arrive, the rest of the buffer stays. */
  method Deliver(msg: NodeSet, rx: NodeSet, sent: nat)
    requires msg != rx && msg.data != rx.data && sent <= msg.data.Length == rx.data.Length
    modifies rx, rx.data
    ensures rx.compressed == msg.compressed && rx.superSkip == msg.superSkip && rx.len == msg.len
    ensures Arrived(msg.data[..], rx.data[..], sent)
    ensures rx.data[sent..] == old(rx.data[sent..])
  {
    rx.compressed, rx.superSkip, rx.len := msg.compressed, msg.superSkip, msg.len;
    for i := 0 to sent
      modifies rx.data
      invariant rx.data[..i] == msg.data[..i] && rx.data[i..] == old(rx.data[i..])
    {
      rx.data[i] := msg.data[i];
    }
    assert forall i | 0 <= i < sent :: rx.data[i] == rx.data[..sent][i];
  }

  /** The bytes the receiver needs for a report of the set d. */
  ghost predicate RoomFor(d: seq<Byte>, room: nat) {
    var u := Nibbles(d);
    if ProjectedLen(u) < |d| then RoomNeeded(u) <= room || CURSOR_LIMIT <= room else |d| <= room
  }

  /** One report: the set is packed and sent, and the receiver unpacks its buffer into a blank
      set.  What it gets is the set that was sent if the message was whole; else it depends
      on what the buffer `rx` held before. */
  method ReportSet(alive: NodeSet, msg: NodeSet, rx: NodeSet, newSet: NodeSet) returns (saves: bool)
    requires alive.Plain() && alive.len <= LEN_LIMIT - 5
    requires alive != msg && msg != rx && rx != newSet && alive != rx && alive != newSet && msg != newSet
    requires alive.data != msg.data && msg.data != rx.data && rx.data != newSet.data
    requires alive.data != rx.data && alive.data != newSet.data && msg.data != newSet.data
    requires msg.data.Length == rx.data.Length >= 2 + 5 * IndexLen(Nibbles(alive.Bytes()))
    requires Blanked(newSet.data[..]) && RoomFor(alive.Bytes(), newSet.data.Length)
    modifies msg, msg.data, rx, rx.data, newSet, newSet.data
    ensures newSet.Plain()
    ensures saves == (ProjectedLen(Nibbles(alive.Bytes())) < alive.len)
    ensures !saves || NoSlotCut(Nibbles(alive.Bytes())) ==> SameMembers(alive.Bytes(), newSet.Bytes())
    ensures saves ==> rx.Packed() && rx.data[ProjectedLen(Nibbles(alive.Bytes()))..] ==
                                       old(rx.data[..])[ProjectedLen(Nibbles(alive.Bytes()))..]
    ensures saves && UnpackedBytes(rx.Reading()) < LEN_LIMIT ==>
              (SameMembers(alive.Bytes(), newSet.Bytes()) <==>
                 SameNibbles(Unpack(rx.Reading()), Nibbles(alive.Bytes())))
  {
    hide Pack, Counted, IndexLen, ProjectedLen, Padded, Nibbles, Slots, ReadSlots, HeaderSkip, SameMembers, SameNibbles,
         Decoded, NoSlotCut, Unpack, Arrived, Blanked, Worst;
    ghost var (d, was) := (alive.Bytes(), newSet.data[..]);
    var sent;
    saves, sent := PutIntoMessage(alive, msg);
    Deliver(msg, rx, sent);
    if saves {
      TailReading(Nibbles(d), msg.data[..], rx.data[..], msg.superSkip);
      ReadingShorter(ReadingOf(rx.data[..], rx.superSkip, rx.len), Nibbles(d));
    }
    DecompressSet(rx, newSet);
    if saves {
      ghost var (u, q) := (Nibbles(d), ReadingOf(rx.data[..], rx.superSkip, rx.len));
      if NoSlotCut(u) {
        WholeReading(u, msg.data[..], rx.data[..], rx.superSkip);
        RoundTrip(d, newSet.data[..], was, newSet.len);
      }
      if UnpackedBytes(q) < LEN_LIMIT {
        BlankHalf(was);
        ReadsBack(d, q, newSet.data[..], was, newSet.len);
      }
    } else {
      assert rx.Bytes() == msg.Bytes();
      SameMembersOfSelf(d);
    }
  }

  // ---- examples ------------------------------------------------------------------------------

  lemma {:induction false} FlattenLiterals(n: Nibble, count: nat)
    ensures Flatten(seq(count, _ => Lit(n))) == Repeat(n, count)
  {
    var es := seq(count, _ => Lit(n));
    if count > 0 {
      FlattenLiterals(n, count - 1);
      assert es[..count - 1] == seq(count - 1, _ => Lit(n));
      assert Flatten(es) == Flatten(es[..count - 1]) + Expand(es[count - 1]);
    }
  }

  /** Six bytes FF and one 01: twelve nibbles of superskip, a literal, a fill. */
  lemma PackedOnes()
    ensures var u := Nibbles([255, 255, 255, 255, 255, 255, 1]);
            && u == Repeat(15, 12) + [1, 0] && Pack(u) == Packed(Skip(true, 12), [Lit(1), Fill(false, 1)])
  {
    var u := Nibbles([255, 255, 255, 255, 255, 255, 1]);
    assert u == Repeat(15, 12) + [1, 0];
    assert u[0] == 15 && u[12] == 1;
    assert forall i | 0 <= i < 12 :: u[i] == 15;
    assert LeadRun(u) == 12;
    assert u[12..] == [1] + Repeat(0, 1);
    OneThenZeros(1);
  }

  /** The superskip reaches far enough, but the message of four bytes leaves out six of the
      eight slots; where the buffer holds FF behind it, the members 56 to 79 appear. */
  lemma StaleBuffer()
    ensures var d: seq<Byte> := [255, 255, 255, 255, 255, 255, 1];
            var u := Nibbles(d);
            var m, m': seq<Byte> := [25, 0, 2, 33, 0, 0, 0], [25, 0, 2, 33, 255, 255, 255];
            && Reaches(u) && !NoSlotCut(u) && IndexLen(u) == 1 && ProjectedLen(u) == 4 < |d|
            && HoldsPacked(m, true, u) && Arrived(m, m', ProjectedLen(u))
            && Unpack(ReadingOf(m', true, 1)) == u + Repeat(15, 6)
  {
    hide Pack, Nibbles, HeaderSkip, Slots, ReadSlots, Unpack, Reaches, NoSlotCut, IndexLen, ProjectedLen;
    var u := Nibbles([255, 255, 255, 255, 255, 255, 1]);
    var m, m': seq<Byte> := [25, 0, 2, 33, 0, 0, 0], [25, 0, 2, 33, 255, 255, 255];
    PackedOnes();
    StaleSizes(u);
    ReadRecords(m, 0);
    ReadRecords(m', 15);
    ReadingIsSlots(m', true, u);
    StaleNibbles();
    assert u + Repeat(15, 6) == Repeat(15, 12) + ([1, 0] + Repeat(15, 6));
  }

  lemma StaleSizes(u: seq<Nibble>)
    requires Pack(u).skip.Skip? && Pack(u).entries == [Lit(1), Fill(false, 1)]
    ensures Reaches(u) && !NoSlotCut(u) && IndexLen(u) == 1 && ProjectedPayload(Pack(u)) == 1 && ProjectedLen(u) == 4
  {
    assert LastPayload([Lit(1), Fill(false, 1)]) == 0;
  }

  lemma StaleNibbles()
    ensures Unpack(Packed(Skip(true, 12), [Lit(1), Fill(false, 1)] + seq(6, _ => Lit(15)))) ==
              Repeat(15, 12) + ([1, 0] + Repeat(15, 6))
  {
    var es: seq<Entry>, lits := [Lit(1), Fill(false, 1)], seq(6, _ => Lit(15));
    FlattenConcat(es, lits);
    FlattenLiterals(15, 6);
    assert es[..1] == [Lit(1)];
    assert Flatten(es[..1]) == [1];
    assert Flatten(es) == [1, 0];
  }

  lemma ReadRecords(m: seq<Byte>, stale: Nibble)
    requires m == [25, 0, 2, 33, 17 * stale, 17 * stale, 17 * stale]
    ensures HeaderSkip(true, m) == Skip(true, 12)
    ensures Slots(m, 2, 1) == [Lit(1), Fill(false, 1)] + seq(6, _ => Lit(stale))
  {
    assert Pow2(1) == 2;
    var es := [Lit(1), Fill(false, 1)] + seq(6, _ => Lit(stale));
    forall i: nat | i < 8 ensures Slots(m, 2, 1)[i] == es[i] {
      BitOfPow2(1, i);
    }
  }

  /** The bytes of the receiver's set: MAX_LIVE_BITMAP_BYTES without the header. */
  const LIVE_ROOM := 21 - HEADER_SIZE

  function NodeAlone(z: nat): seq<Byte> { seq(z, _ => 0) + [1] }

  /** Node 8 * z alone, behind z zero bytes: from z == 4 on packing pays, and whatever the
      receiver's buffer holds it unpacks z + 4 bytes.  Node 144, for one, takes 19 bytes, which
      the receiver has, and unpacks to 22. */
  lemma LoneNode(z: nat, m: seq<Byte>, m': seq<Byte>, superSkip: bool)
    requires 1 <= z <= LEN_LIMIT - 5
    requires HoldsPacked(m, superSkip, Nibbles(NodeAlone(z))) && Arrived(m, m', ProjectedLen(Nibbles(NodeAlone(z))))
    ensures var u := Nibbles(NodeAlone(z));
            && ProjectedLen(u) == 4 && RoomNeeded(u) == z + 4
            && UnpackedBytes(ReadingOf(m', superSkip, IndexLen(u))) == z + 4
            && (Fits(ReadingOf(m', superSkip, IndexLen(u)), LIVE_ROOM) <==> z <= 15)
  {
    hide Nibbles, ReadingOf, Pack, Padded, IndexLen, Worst, Unpack, HeaderSkip, Slots;
    var u := Nibbles(NodeAlone(z));
    PackedAlone(z);
    StaleSizes(u);
    WorstReadsLike(u);
    AloneSize(u, z, Worst(u));
    TailReading(u, m, m', superSkip);
    AloneSize(u, z, ReadingOf(m', superSkip, IndexLen(u)));
  }

  lemma PackedAlone(z: nat)
    requires z >= 1
    ensures Pack(Nibbles(NodeAlone(z))) == Packed(Skip(false, 2 * z), [Lit(1), Fill(false, 1)])
  {
    var (d, u) := (NodeAlone(z), Nibbles(NodeAlone(z)));
    HalfOfZero();
    assert forall i | 0 <= i < 2 * z :: u[i] == 0;
    assert u[2 * z] == 1 && u[2 * z + 1] == 0;
    assert LeadRun(u) == 2 * z;
    assert u[2 * z..] == [1] + Repeat(0, 1);
    OneThenZeros(1);
  }

  /** Every reading of it stands for as many nibbles. */
  lemma AloneSize(u: seq<Nibble>, z: nat, q: Packed)
    requires Pack(u) == Packed(Skip(false, 2 * z), [Lit(1), Fill(false, 1)])
    requires ReadsLike(q, Padded(Pack(u), 1), 2)
    ensures |Unpack(q)| == 2 * z + 8
  {
    hide Pack;
    var es := q.entries;
    assert es[0] == Lit(1) && es[1] == Fill(false, 1) && forall i | 2 <= i < 8 :: es[i].Lit?;
    FlattenSingles(es);
  }

  lemma {:induction false} FlattenSingles(es: seq<Entry>)
    requires forall i | 0 <= i < |es| :: |Expand(es[i])| == 1
    ensures |Flatten(es)| == |es|
  {
    hide Expand;
    if es != [] { FlattenSingles(es[..|es| - 1]); }
  }
}
