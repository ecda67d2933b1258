/** The sizing pass: how long the packed form of a set will be. */
module Sizing {
  import opened Bits
  import opened RunLength
  import opened PackedLayout
  import opened NodeSets

  predicate CarriesBits(e: Entry) { e.Lit? || e.bit }

  /** The last entry with a bit set, or -1. */
  function LastPayload(es: seq<Entry>): (i: int)
    ensures -1 <= i < |es|
    ensures i >= 0 ==> CarriesBits(es[i])
    ensures forall j | i < j < |es| :: !CarriesBits(es[j])
  {
    if es == [] then -1
    else if CarriesBits(es[|es| - 1]) then |es| - 1
    else LastPayload(es[..|es| - 1])
  }

  lemma LastPayloadOfOne(e: Entry)
    ensures LastPayload([]) == -1
    ensures LastPayload([e]) == if CarriesBits(e) then 0 else -1
  {
  }

  lemma LastPayloadNew(es: seq<Entry>, n: Nibble)
    ensures LastPayload(es + [NewEntry(n)]) == if n != 0 then |es| else LastPayload(es)
  {
    assert (es + [NewEntry(n)])[..|es|] == es;
  }

  lemma LastPayloadCount(es: seq<Entry>)
    requires es != [] && es[|es| - 1].Fill?
    ensures var last := es[|es| - 1];
            LastPayload(es[..|es| - 1] + [Fill(last.bit, last.count + 1)]) == LastPayload(es)
  {
    var last := es[|es| - 1];
    assert (es[..|es| - 1] + [Fill(last.bit, last.count + 1)])[..|es| - 1] == es[..|es| - 1];
  }

  /** Bytes of entries the sizing pass projects: it counts from the record's byte and half. */
  function ProjectedPayload(p: Packed): nat {
    var i := LastPayload(p.entries) + if p.skip.Skip? then 1 else 0;
    if LastPayload(p.entries) < 0 then 0 else i / 2 + i % 2
  }

  function IndexLen(u: seq<Nibble>): (n: nat)
    ensures Counted(u) <= 8 * n < Counted(u) + 8
  {
    (Counted(u) + 7) / 8
  }

  function ProjectedLen(u: seq<Nibble>): nat {
    IndexLen(u) + ProjectedPayload(Pack(u)) + if Pack(u).skip.Skip? then 2 else 0
  }

  method PreprocessSet(s: NodeSet) returns (saves: bool, resultLen: nat, indexLen: nat)
    requires s.Plain()
    ensures var u := Nibbles(s.Bytes());
            && indexLen == IndexLen(u)
            && saves == (ProjectedLen(u) < s.len)
            && resultLen == HEADER_SIZE + if saves then ProjectedLen(u) else s.len
  {
    hide Sizing, ProjectedLen, IndexLen;
    ghost var u := Nibbles(s.Bytes());
    SizingStart(u);
    var compByte: nat, compHalf: nat := 0xFFFF, 1;
    var payloadLen: nat := 0;
    var prev: Nibble, prevCount: nat := 0, 0;
    var ssAvail, ssUsed := true, false;
    for uncByte := 0 to s.len
      invariant Sizing(u, 2 * uncByte, compByte, compHalf, payloadLen, prev, prevCount, ssAvail, ssUsed)
    {
      for uncHalf := 0 to 2
        invariant Sizing(u, 2 * uncByte + uncHalf, compByte, compHalf, payloadLen, prev, prevCount, ssAvail, ssUsed)
      {
        var cur := Half(s.data[uncByte], uncHalf);
        ghost var k := 2 * uncByte + uncHalf;
        assert cur == u[k];
        var repeat := cur == prev && (cur == 0 || cur == 15) && uncByte + uncHalf != 0;
        if ssAvail && repeat && prevCount < MAX_SUPERSKIP {
          SizingSkip(u, k, compByte, compHalf, payloadLen, prev, prevCount, ssAvail, ssUsed);
          ssUsed := true;
          prevCount := prevCount + 1;
        } else if repeat && prevCount < 7 {
          SizingJoin(u, k, compByte, compHalf, payloadLen, prev, prevCount, ssAvail, ssUsed);
          prevCount := prevCount + 1;
        } else if cur == 15 || cur == 0 {
          SizingNew(u, k, compByte, compHalf, payloadLen, prev, prevCount, ssAvail, ssUsed);
          compByte, compHalf := NextByte(compByte, compHalf), NextHalf(compHalf);
          prevCount := 1;
          if uncHalf + uncByte > 0 { ssAvail := false; }
          if cur == 15 { payloadLen := compByte + compHalf; }
        } else {
          SizingNew(u, k, compByte, compHalf, payloadLen, prev, prevCount, ssAvail, ssUsed);
          compByte, compHalf := NextByte(compByte, compHalf), NextHalf(compHalf);
          prevCount := 8;
          ssAvail := false;
          payloadLen := compByte + compHalf;
        }
        prev := cur;
      }
    }
    SizingEnd(u, compByte, compHalf, payloadLen, prev, prevCount, ssAvail, ssUsed);
    compByte, compHalf := NextByte(compByte, compHalf), NextHalf(compHalf);
    indexLen := (compByte * 2 + compHalf + 7) / 8;
    prevCount := indexLen + payloadLen + if ssUsed then 2 else 0;
    saves := prevCount < s.len;
    resultLen := HEADER_SIZE + if saves then prevCount else s.len;
  }

  /** What the sizing pass knows after k nibbles. */
  ghost predicate Sizing(u: seq<Nibble>, k: nat, compByte: nat, compHalf: nat, payloadLen: nat,
                         prev: Nibble, prevCount: nat, ssAvail: bool, ssUsed: bool)
  {
    && k <= |u| < 2 * LEN_LIMIT
    && var p := Pack(u[..k]);
    && OnRecord(compByte, compHalf, Counted(u[..k]))
    && payloadLen == ProjectedPayload(p)
    && prev == Previous(u[..k])
    && ssAvail == Leading(u[..k])
    && ssUsed == p.skip.Skip?
    && prevCount == if Leading(u[..k]) then k else RunCount(p.entries)
  }

  lemma SizingStart(u: seq<Nibble>)
    requires |u| < 2 * LEN_LIMIT
    ensures Sizing(u, 0, 0xFFFF, 1, 0, 0, 0, true, false)
  {
    assert u[..0] == [];
  }

  lemma SizingEnd(u: seq<Nibble>, compByte: nat, compHalf: nat, payloadLen: nat,
                  prev: Nibble, prevCount: nat, ssAvail: bool, ssUsed: bool)
    requires Sizing(u, |u|, compByte, compHalf, payloadLen, prev, prevCount, ssAvail, ssUsed)
    ensures (NextByte(compByte, compHalf) * 2 + NextHalf(compHalf) + 7) / 8 == IndexLen(u)
    ensures IndexLen(u) + payloadLen + (if ssUsed then 2 else 0) == ProjectedLen(u)
  {
    assert u[..|u|] == u;
    CountedMonotone(u, 0);
    NextOnRecord(compByte, compHalf, Counted(u));
  }

  lemma SizingSkip(u: seq<Nibble>, k: nat, compByte: nat, compHalf: nat, payloadLen: nat,
                   prev: Nibble, prevCount: nat, ssAvail: bool, ssUsed: bool)
    requires k < |u| && Sizing(u, k, compByte, compHalf, payloadLen, prev, prevCount, ssAvail, ssUsed)
    requires ssAvail && k != 0 && u[k] == prev && IsSpan(u[k])
    ensures prevCount < MAX_SUPERSKIP
    ensures Sizing(u, k + 1, compByte, compHalf, payloadLen, u[k], prevCount + 1, ssAvail, true)
  {
    hide Pack, Leading, LastPayload;
    var v, n := u[..k], u[k];
    assert u[..k + 1] == v + [n];
    PackLead(v, n);
    LastPayloadOfOne(Fill(n == 15, 1));
  }

  lemma SizingJoin(u: seq<Nibble>, k: nat, compByte: nat, compHalf: nat, payloadLen: nat,
                   prev: Nibble, prevCount: nat, ssAvail: bool, ssUsed: bool)
    requires k < |u| && Sizing(u, k, compByte, compHalf, payloadLen, prev, prevCount, ssAvail, ssUsed)
    requires k != 0 && u[k] == prev && IsSpan(u[k]) && !ssAvail && prevCount < MAX_FILL
    ensures Sizing(u, k + 1, compByte, compHalf, payloadLen, u[k], prevCount + 1, ssAvail, ssUsed)
  {
    hide Pack, Leading, LastPayload;
    var v, n := u[..k], u[k];
    assert u[..k + 1] == v + [n];
    PackJoin(v, n);
    LastPayloadCount(Pack(v).entries);
  }

  /** Every other nibble starts a record. */
  lemma SizingNew(u: seq<Nibble>, k: nat, compByte: nat, compHalf: nat, payloadLen: nat,
                  prev: Nibble, prevCount: nat, ssAvail: bool, ssUsed: bool)
    requires k < |u| && Sizing(u, k, compByte, compHalf, payloadLen, prev, prevCount, ssAvail, ssUsed)
    requires var repeat := k != 0 && u[k] == prev && IsSpan(u[k]);
             !(repeat && ((ssAvail && prevCount < MAX_SUPERSKIP) || prevCount < MAX_FILL))
    ensures var (b, h) := (NextByte(compByte, compHalf), NextHalf(compHalf));
            Sizing(u, k + 1, b, h, if u[k] == 0 then payloadLen else b + h, u[k],
                   if IsSpan(u[k]) then 1 else MAX_FILL + 1, ssAvail && k == 0 && IsSpan(u[k]), ssUsed)
  {
    hide Pack, Leading, LastPayload;
    var v, n := u[..k], u[k];
    assert u[..k + 1] == v + [n];
    PackNew(v, n);
    LastPayloadNew(Pack(v).entries, n);
    CountedBound(u, k);
    NextOnRecord(compByte, compHalf, Counted(v));
  }
}
