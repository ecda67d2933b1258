/** The run-length code of the compressed node sets, on values.

    A bit vector is cut into 4-bit entries.  `Pack` says what the packed form of a
    vector is, without any of the cursors the encoder keeps: an optional superskip for
    the leading run, then the greedy division of the rest into fill runs of at most
    seven nibbles and literals.  `Unpack` is what a packed form means. */
module RunLength {

  type Nibble = n: int | 0 <= n < 16

  datatype Entry = Lit(n: Nibble) | Fill(bit: bool, count: nat)
  datatype Skip = NoSkip | Skip(bit: bool, count: nat)
  datatype Packed = Packed(skip: Skip, entries: seq<Entry>)

  /** A fill run counts at most this many nibbles: its counter has three bits. */
  const MAX_FILL := 7

  predicate IsSpan(n: Nibble) { n == 0 || n == 15 }

  function SpanOf(bit: bool): Nibble { if bit then 15 else 0 }

  function Repeat(n: Nibble, count: nat): (s: seq<Nibble>) {
    seq(count, _ => n)
  }

  /** What one entry stands for. */
  function Expand(e: Entry): seq<Nibble> {
    match e
    case Lit(n) => [n]
    case Fill(bit, count) => Repeat(SpanOf(bit), count)
  }

  function Flatten(es: seq<Entry>): seq<Nibble> {
    if es == [] then [] else Flatten(es[..|es| - 1]) + Expand(es[|es| - 1])
  }

  function Unpack(p: Packed): seq<Nibble> {
    (match p.skip case NoSkip => [] case Skip(bit, count) => Repeat(SpanOf(bit), count)) + Flatten(p.entries)
  }

  // ---- the reference packing ---------------------------------------------------

  /** One more nibble: it joins the last fill run if it continues it and there is room. */
  function Extend(es: seq<Entry>, n: Nibble): (r: seq<Entry>)
    ensures |es| <= |r| <= |es| + 1 && r != []
  {
    if Joins(es, n) then es[..|es| - 1] + [Fill(n == 15, es[|es| - 1].count + 1)]
    else if IsSpan(n) then es + [Fill(n == 15, 1)]
    else es + [Lit(n)]
  }

  predicate Joins(es: seq<Entry>, n: Nibble) {
    && IsSpan(n) && es != []
    && var last := es[|es| - 1];
    && last.Fill? && last.bit == (n == 15) && last.count < MAX_FILL
  }

  function Chunks(u: seq<Nibble>): seq<Entry> {
    if u == [] then [] else Extend(Chunks(u[..|u| - 1]), u[|u| - 1])
  }

  /** Length of the leading run of all-zero or all-one nibbles. */
  function LeadRun(u: seq<Nibble>): (r: nat)
    ensures r <= |u|
    ensures forall i | 0 <= i < r :: u[i] == u[0] && IsSpan(u[i])
    ensures r < |u| ==> !IsSpan(u[0]) || u[r] != u[0]
  {
    if u == [] then 0
    else
      var r := LeadRun(u[..|u| - 1]);
      if r == |u| - 1 && IsSpan(u[|u| - 1]) && u[|u| - 1] == u[0] then |u| else r
  }

  /** A leading run of at least two nibbles becomes the superskip. */
  function Pack(u: seq<Nibble>): Packed {
    var r := LeadRun(u);
    if r >= 2 then Packed(Skip(u[0] == 15, r), Chunks(u[r..]))
    else Packed(NoSkip, Chunks(u))
  }

  // ---- what the packing means ----------------------------------------------------

  lemma FlattenSnoc(es: seq<Entry>, e: Entry)
    ensures Flatten(es + [e]) == Flatten(es) + Expand(e)
  {
    hide Expand;
    assert (es + [e])[..|es|] == es;
  }

  lemma {:induction false} FlattenConcat(a: seq<Entry>, b: seq<Entry>)
    ensures Flatten(a + b) == Flatten(a) + Flatten(b)
  {
    if b == [] {
      assert a + b == a;
    } else {
      hide Flatten, Expand;
      var front, last := b[..|b| - 1], b[|b| - 1];
      assert b == front + [last] && a + b == (a + front) + [last];
      FlattenConcat(a, front);
      FlattenSnoc(front, last);
      FlattenSnoc(a + front, last);
    }
  }

  lemma FlattenExtend(es: seq<Entry>, n: Nibble)
    ensures Flatten(Extend(es, n)) == Flatten(es) + [n]
  {
    var r := Extend(es, n);
    if Joins(es, n) {
      var front, last := es[..|es| - 1], es[|es| - 1];
      assert r[..|r| - 1] == front;
      assert Expand(r[|r| - 1]) == Expand(last) + [n];
    } else {
      assert r[..|r| - 1] == es;
      assert Expand(r[|r| - 1]) == [n];
    }
  }

  lemma {:induction false} FlattenChunks(u: seq<Nibble>)
    ensures Flatten(Chunks(u)) == u
  {
    if u != [] {
      var v, n := u[..|u| - 1], u[|u| - 1];
      hide Chunks, Extend, Flatten;
      FlattenChunks(v);
      assert v + [n] == u;
      ChunksSnoc(v, n);
      FlattenExtend(Chunks(v), n);
    }
  }

  /** Packing loses nothing. */
  lemma UnpackPack(u: seq<Nibble>)
    ensures Unpack(Pack(u)) == u
  {
    hide LeadRun, Chunks, Flatten;
    var r := LeadRun(u);
    if r >= 2 {
      FlattenChunks(u[r..]);
      assert Repeat(SpanOf(u[0] == 15), r) == u[..r];
      assert u == u[..r] + u[r..];
    } else {
      FlattenChunks(u);
      assert [] + u == u;
    }
  }

  // ---- growing the packing one nibble at a time ------------------------------------

  /** The leading run covers everything seen so far. */
  predicate Leading(u: seq<Nibble>) { LeadRun(u) == |u| }

  lemma LeadRunSnoc(u: seq<Nibble>, n: Nibble)
    ensures Leading(u + [n]) <==> Leading(u) && IsSpan(n) && (u == [] || n == u[0])
    ensures !Leading(u + [n]) ==> LeadRun(u + [n]) == LeadRun(u)
  {
    assert (u + [n])[..|u|] == u;
  }

  lemma ChunksSnoc(u: seq<Nibble>, n: Nibble)
    ensures Chunks(u + [n]) == Extend(Chunks(u), n)
  {
    assert (u + [n])[..|u|] == u;
  }

  /** A second nibble of the leading run empties the entries into the superskip; any
      other nibble extends the entries and leaves the superskip as it is. */
  lemma PackSnoc(u: seq<Nibble>, n: Nibble)
    ensures u != [] && Leading(u + [n]) ==> Pack(u + [n]) == Packed(Skip(n == 15, |u| + 1), [])
    ensures u == [] || !Leading(u + [n]) ==>
              Pack(u + [n]) == Packed(Pack(u).skip, Extend(Pack(u).entries, n))
    ensures |Pack(u + [n]).entries| <= |Pack(u).entries| + 1
  {
    LeadRunSnoc(u, n);
    var r := LeadRun(u + [n]);
    if r >= 2 {
      if r == |u| + 1 {
        assert (u + [n])[r..] == [];
      } else {
        assert (u + [n])[r..] == u[r..] + [n];
        ChunksSnoc(u[r..], n);
      }
    } else {
      ChunksSnoc(u, n);
    }
  }

  /** The last entry ends in the last nibble. */
  lemma LastChunk(u: seq<Nibble>)
    requires u != []
    ensures Chunks(u) != []
    ensures var e := Chunks(u)[|Chunks(u)| - 1]; match e
            case Lit(n) => n == u[|u| - 1] && !IsSpan(n)
            case Fill(bit, count) => u[|u| - 1] == SpanOf(bit) && 1 <= count <= MAX_FILL
  {
  }

  /** While the run leads, the entries are one fill of one nibble, or none beside the superskip. */
  lemma LeadingEntries(u: seq<Nibble>)
    requires Leading(u)
    ensures Pack(u).entries == if |u| == 1 then [Fill(u[0] == 15, 1)] else []
    ensures Pack(u).skip == if |u| >= 2 then Skip(u[0] == 15, |u|) else NoSkip
  {
    if |u| == 1 { assert Chunks(u) == Extend(Chunks(u[..0]), u[0]); }
  }

  lemma {:induction false} EntriesFit(u: seq<Nibble>)
    ensures forall e | e in Chunks(u) :: e.Fill? ==> 1 <= e.count <= MAX_FILL
  {
    if u != [] { EntriesFit(u[..|u| - 1]); }
  }

  /** How many nibbles the last entry holds, a literal counting as full. */
  function RunCount(es: seq<Entry>): nat {
    if es == [] then 0 else match es[|es| - 1] case Lit(_) => MAX_FILL + 1 case Fill(_, count) => count
  }

  function Previous(u: seq<Nibble>): Nibble { if u == [] then 0 else u[|u| - 1] }

  /** Once the leading run is over, the test the encoders make (same span as the nibble
      before, and fewer than seven counted) says whether the nibble joins the last entry. */
  lemma JoinTest(u: seq<Nibble>, n: Nibble)
    requires !Leading(u + [n])
    ensures Joins(Pack(u).entries, n) <==>
              !Leading(u) && IsSpan(n) && n == Previous(u) && RunCount(Pack(u).entries) < MAX_FILL
    ensures !Leading(u) ==> Pack(u).entries != []
  {
    LeadRunSnoc(u, n);
    if Leading(u) {
      LeadingEntries(u);
    } else {
      var r := LeadRun(u);
      if r >= 2 { LastChunk(u[r..]); } else { LastChunk(u); }
    }
  }

  /** Number of entries the sizing pass counts: those packed and one for the superskip. */
  function Counted(u: seq<Nibble>): nat {
    |Pack(u).entries| + if Pack(u).skip.Skip? then 1 else 0
  }

  lemma CountedSnoc(u: seq<Nibble>, n: Nibble)
    ensures Counted(u) <= Counted(u + [n]) <= Counted(u) + 1
  {
    PackSnoc(u, n); LeadRunSnoc(u, n);
    if Leading(u) { LeadingEntries(u); }
  }

  lemma {:induction false} CountedMonotone(u: seq<Nibble>, k: nat)
    requires k <= |u|
    ensures Counted(u[..k]) <= Counted(u) <= Counted(u[..k]) + |u| - k
    decreases |u| - k
  {
    if k == |u| { assert u[..k] == u; } else {
      CountedMonotone(u, k + 1);
      assert u[..k + 1] == u[..k] + [u[k]];
      CountedSnoc(u[..k], u[k]);
    }
  }

  function NewEntry(n: Nibble): Entry { if IsSpan(n) then Fill(n == 15, 1) else Lit(n) }

  /** A nibble that neither leads nor joins starts an entry of its own. */
  lemma PackNew(v: seq<Nibble>, n: Nibble)
    requires !(v != [] && n == Previous(v) && IsSpan(n) && (Leading(v) || RunCount(Pack(v).entries) < MAX_FILL))
    ensures Pack(v + [n]) == Packed(Pack(v).skip, Pack(v).entries + [NewEntry(n)])
    ensures Leading(v + [n]) <==> v == [] && IsSpan(n)
    ensures v == [] ==> Leading(v)
  {
    PackSnoc(v, n); LeadRunSnoc(v, n);
    if Leading(v) { LeadingEntries(v); }
    if !Leading(v + [n]) { JoinTest(v, n); }
  }

  /** A nibble that continues the last fill run is counted there. */
  lemma PackJoin(v: seq<Nibble>, n: Nibble)
    requires v != [] && n == Previous(v) && IsSpan(n) && !Leading(v) && RunCount(Pack(v).entries) < MAX_FILL
    ensures var es := Pack(v).entries;
            && es != [] && es[|es| - 1] == Fill(n == 15, RunCount(es))
            && Pack(v + [n]) == Packed(Pack(v).skip, es[..|es| - 1] + [Fill(n == 15, RunCount(es) + 1)])
    ensures !Leading(v + [n])
  {
    PackSnoc(v, n); LeadRunSnoc(v, n); JoinTest(v, n);
  }

  /** A nibble that continues the leading run goes into the superskip. */
  lemma PackLead(v: seq<Nibble>, n: Nibble)
    requires v != [] && n == Previous(v) && IsSpan(n) && Leading(v)
    ensures Pack(v) == if |v| == 1 then Packed(NoSkip, [Fill(n == 15, 1)]) else Packed(Skip(n == 15, |v|), [])
    ensures Pack(v + [n]) == Packed(Skip(n == 15, |v| + 1), [])
    ensures Leading(v + [n])
  {
    PackSnoc(v, n); LeadRunSnoc(v, n); LeadingEntries(v);
  }

  lemma CountedBound(u: seq<Nibble>, k: nat)
    requires k <= |u|
    ensures Counted(u[..k]) <= Counted(u)
    ensures |Pack(u[..k]).entries| <= Counted(u[..k]) <= k
  {
    CountedMonotone(u, k);
    CountedMonotone(u[..k], 0);
    assert u[..k][..0] == [];
    assert Counted([]) == 0;
  }
}
