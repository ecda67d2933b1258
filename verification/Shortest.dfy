/** The reference packing of a node set has as few entries as the format allows. */
module ShortestPacking {
  import opened RunLength

  /** What the format can hold: fills of seven nibbles at most. */
  predicate Storable(es: seq<Entry>) { forall i | 0 <= i < |es| :: es[i].Fill? ==> es[i].count <= 7 }

  /** At most one entry more than `before`, and if one more it is a fill of at most `count`. */
  predicate OneMoreFill(before: nat, fs: seq<Entry>, bit: bool, count: nat) {
    || |fs| <= before
    || (|fs| == before + 1 && fs[before].Fill? && fs[before].bit == bit && fs[before].count <= count)
  }

  lemma ExtendsFill(before: nat, fs: seq<Entry>, bit: bool, count: nat)
    requires count < 7 && OneMoreFill(before, fs, bit, count)
    ensures OneMoreFill(before, Extend(fs, SpanOf(bit)), bit, count + 1)
  {
  }

  lemma RepeatMore(v: seq<Nibble>, n: Nibble, count: nat)
    ensures v + Repeat(n, count + 1) == v + Repeat(n, count) + [n] && v + Repeat(n, 0) == v
  {
  }

  /** A run of at most seven nibbles opens one entry at most, and then it fits in there. */
  lemma {:induction false} RunOpensOne(v: seq<Nibble>, bit: bool, count: nat)
    requires count <= 7
    ensures OneMoreFill(|Chunks(v)|, Chunks(v + Repeat(SpanOf(bit), count)), bit, count)
  {
    hide Chunks, Extend, Repeat;
    if count == 0 {
      RepeatMore(v, SpanOf(bit), 0);
    } else {
      var n, k := SpanOf(bit), count - 1;
      hide OneMoreFill, SpanOf;
      RunOpensOne(v, bit, k);
      RepeatMore(v, n, k);
      ChunksSnoc(v + Repeat(n, k), n);
      ExtendsFill(|Chunks(v)|, Chunks(v + Repeat(n, k)), bit, k);
    }
  }

  lemma EntryOpensOne(v: seq<Nibble>, e: Entry)
    requires e.Fill? ==> e.count <= 7
    ensures |Chunks(v + Expand(e))| <= |Chunks(v)| + 1
  {
    match e
    case Lit(n) => ChunksSnoc(v, n);
    case Fill(bit, count) => RunOpensOne(v, bit, count);
  }

  /** No entries that stand for the same nibbles are fewer. */
  lemma {:induction false} ChunksAreFewest(es: seq<Entry>)
    requires Storable(es)
    ensures |Chunks(Flatten(es))| <= |es|
  {
    if es != [] {
      var front, e := es[..|es| - 1], es[|es| - 1];
      ChunksAreFewest(front);
      hide Chunks;
      EntryOpensOne(Flatten(front), e);
    }
  }

  lemma FlattenOne(e: Entry)
    ensures Flatten([e]) == Expand(e) && Flatten([]) == []
  {
    hide Expand;
    assert [e][..0] == [] && [] + Expand(e) == Expand(e);
  }

  lemma FlattenLast(es: seq<Entry>)
    requires es != []
    ensures Flatten(es) == Flatten(es[..|es| - 1]) + Expand(es[|es| - 1])
  {
  }

  lemma FirstOfBoth<T>(a: seq<T>, b: seq<T>)
    ensures a == [] ==> a + b == b
    ensures a != [] ==> (a + b)[1..] == a[1..] + b
  {
  }

  /** One entry, or none, for all but the first nibble of an entry. */
  lemma EntryWithoutFirst(e: Entry) returns (fs: seq<Entry>)
    requires Storable([e]) && Expand(e) != []
    ensures Storable(fs) && |fs| <= 1 && Flatten(fs) == Expand(e)[1..]
  {
    FlattenOne(e);
    assert [e][0] == e;
    match e
    case Lit(n) => fs := [];
    case Fill(bit, count) =>
      fs := [Fill(bit, count - 1)];
      FlattenOne(fs[0]);
  }

  /** Entries for all but the first nibble, no more of them. */
  lemma {:induction false} WithoutFirst(es: seq<Entry>) returns (fs: seq<Entry>)
    requires Storable(es) && Flatten(es) != []
    ensures Storable(fs) && |fs| <= |es| && Flatten(fs) == Flatten(es)[1..]
    decreases |es|
  {
    assert es != [] by { FlattenOne(Lit(0)); }
    hide Flatten, Expand;
    var front, e := es[..|es| - 1], es[|es| - 1];
    FlattenLast(es);
    FirstOfBoth(Flatten(front), Expand(e));
    if Flatten(front) == [] {
      fs := EntryWithoutFirst(e);
    } else {
      fs := WithoutFirst(front);
      FlattenSnoc(fs, e);
      fs := fs + [e];
    }
  }

  /** A shorter end of a vector needs no more entries. */
  lemma {:induction false} EndsNeedFewer(u: seq<Nibble>, k: nat)
    requires k <= |u|
    ensures |Chunks(u[k..])| <= |Chunks(u)|
  {
    hide Chunks, Flatten, LeadRun;
    if k == 0 {
      assert u[0..] == u;
    } else {
      EndsNeedFewer(u, k - 1);
      var v := u[k - 1..];
      FlattenChunks(v);
      assert Storable(Chunks(v)) by { EntriesFit(v); }
      var fs := WithoutFirst(Chunks(v));
      ChunksAreFewest(fs);
      assert v[1..] == u[k..];
    }
  }

  lemma LeadCovers(u: seq<Nibble>, bit: bool, k: nat)
    requires k <= |u| && u[..k] == Repeat(SpanOf(bit), k)
    ensures k <= LeadRun(u)
  {
    if 0 < k && LeadRun(u) < k { assert u[LeadRun(u)] == u[..k][LeadRun(u)]; }
  }

  function Skipped(p: Packed): nat {
    match p.skip
    case NoSkip => 0
    case Skip(_, count) => count
  }

  lemma SkippedIsLead(p: Packed)
    ensures var (u, k) := (Unpack(p), Skipped(p));
            k <= |u| && u[k..] == Flatten(p.entries) && k <= LeadRun(u)
  {
    hide Flatten, LeadRun;
    var u, k := Unpack(p), Skipped(p);
    if p.skip.Skip? {
      assert u[..k] == Repeat(SpanOf(p.skip.bit), k);
      LeadCovers(u, p.skip.bit, k);
    }
  }

  lemma EndOfEnd<T>(u: seq<T>, k: nat, r: nat)
    requires k <= r <= |u|
    ensures u[k..][r - k..] == u[r..] && (k == 0 ==> u[k..] == u)
  {
  }

  lemma PackedEntries(u: seq<Nibble>)
    ensures Pack(u).entries == if LeadRun(u) >= 2 then Chunks(u[LeadRun(u)..]) else Chunks(u)
  {
  }

  lemma EndNeedsFewer(u: seq<Nibble>, k: nat, r: nat)
    requires k <= r <= |u|
    ensures |Chunks(u[r..])| <= |Chunks(u[k..])|
  {
    hide Chunks;
    EndOfEnd(u, k, r);
    EndsNeedFewer(u[k..], r - k);
  }

  /** Of all packed forms that stand for a vector, with fills of at most seven nibbles and a
      superskip, if any, of more than one, none has fewer entries than the reference packing. */
  lemma PackIsShortest(p: Packed)
    requires Storable(p.entries) && (p.skip.Skip? ==> p.skip.count != 1)
    ensures |Pack(Unpack(p)).entries| <= |p.entries|
  {
    hide Chunks, Flatten, LeadRun, Unpack, Storable, Pack, Extend;
    ChunksAreFewest(p.entries);
    SkippedIsLead(p);
    var u, k := Unpack(p), Skipped(p);
    PackedEntries(u);
    if LeadRun(u) >= 2 {
      EndNeedsFewer(u, k, LeadRun(u));
    } else {
      assert k == 0;
      EndOfEnd(u, 0, 0);
    }
  }
}
