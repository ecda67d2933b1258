/** Node sets: a bit vector, or its packed form, in a buffer. */
module NodeSets {
  import opened Bits
  import opened RunLength
  import opened PackedLayout

  /** A set of node numbers in a buffer: the header fields and the bytes after them.  In an
      uncompressed set `len` counts bytes of the bit vector, in a compressed one bytes of
      the index.  It is a 14-bit field. */
  class NodeSet {
    var compressed: bool
    var superSkip: bool
    var len: nat
    const data: array<Byte>

    constructor (buf: array<Byte>)
      ensures data == buf && !compressed && !superSkip && len == 0
    {
      compressed, superSkip, len, data := false, false, 0, buf;
    }

    ghost predicate Plain()
      reads this, data
    {
      !compressed && len < LEN_LIMIT && len <= data.Length
    }

    /** The bytes of an uncompressed set. */
    ghost function Bytes(): seq<Byte>
      reads this, data
      requires len <= data.Length
    {
      data[..len]
    }

    ghost predicate Packed()
      reads this, data
    {
      compressed && len < LEN_LIMIT && 2 <= data.Length && Base(superSkip) + 5 * len <= data.Length
    }

    /** The packed form a compressed set holds. */
    ghost function Contents(): Packed
      reads this, data
      requires Packed()
    {
      RunLength.Packed(HeaderSkip(superSkip, data[..]), Slots(data[..], Base(superSkip), len))
    }

    /** What the decoder takes it to be: the mark of a slot beyond 65535 is read elsewhere. */
    ghost function Reading(): Packed
      reads this, data
      requires Packed()
    {
      RunLength.Packed(HeaderSkip(superSkip, data[..]), ReadSlots(data[..], Base(superSkip), len))
    }
  }

  const LEN_LIMIT := 0x4000
  const HEADER_SIZE := 2

  function Nibbles(d: seq<Byte>): (u: seq<Nibble>)
    ensures |u| == 2 * |d|
    ensures forall i | 0 <= i < |u| :: u[i] == Half(d[i / 2], i % 2)
  {
    seq(2 * |d|, i requires 0 <= i < 2 * |d| => Half(d[i / 2], i % 2))
  }

  /** The data bytes of a set: the bit vector, or superskip, index and records. */
  function DataBytes(compressed: bool, superSkip: bool, len: nat): nat {
    if compressed then Base(superSkip) + 5 * len else len
  }

  /** The data bytes that are copied with a set: behind a header of two bytes, as many as its
      size, cut to 16 bits, leaves. */
  function CopiedBytes(compressed: bool, superSkip: bool, len: nat): nat {
    var size := (HEADER_SIZE + DataBytes(compressed, superSkip, len)) % 0x10000;
    if size < HEADER_SIZE then 0 else size - HEADER_SIZE
  }

  lemma CopiedIs(compressed: bool, superSkip: bool, len: nat)
    requires len < LEN_LIMIT
    ensures var (count, all) := (CopiedBytes(compressed, superSkip, len), DataBytes(compressed, superSkip, len));
            var size := (HEADER_SIZE + all) % 0x10000;
            && count <= all && (count == all <==> HEADER_SIZE + all < 0x10000)
            && (size == 1 <==> HEADER_SIZE + all == 0x10001) && size != 0
            && count == if size == 1 then 0 else size - HEADER_SIZE
  {
  }

  lemma BytesAreThere(s: NodeSet)
    requires s.Plain() || s.Packed()
    ensures DataBytes(s.compressed, s.superSkip, s.len) <= s.data.Length && s.len < LEN_LIMIT
  {
  }

  /** The size of a set in bytes, cut to 16 bits. */
  method SizeOfSet(s: NodeSet) returns (size: nat)
    ensures size == (HEADER_SIZE + DataBytes(s.compressed, s.superSkip, s.len)) % 0x10000
  {
    if s.compressed {
      size := (s.len + s.len * 8 / 2 + (HEADER_SIZE + if s.superSkip then 2 else 0)) % 0x10000;
    } else {
      size := (s.len + HEADER_SIZE) % 0x10000;
    }
  }

  /** Copies a set, plain or compressed.  All of it arrives exactly when it takes fewer than
      65536 bytes; 65537 bytes copy the low byte of the header alone. */
  method CopySet(dst: NodeSet, src: NodeSet)
    requires src.Plain() || src.Packed()
    requires dst != src && dst.data != src.data
             && CopiedBytes(src.compressed, src.superSkip, src.len) <= dst.data.Length
    modifies dst, dst.data
    ensures dst.compressed == src.compressed && dst.superSkip == src.superSkip
    ensures var (count, all) := (CopiedBytes(src.compressed, src.superSkip, src.len),
                                 DataBytes(src.compressed, src.superSkip, src.len));
            && count <= all && (count == all <==> HEADER_SIZE + all < 0x10000)
            && dst.data[..count] == src.data[..count] && dst.data[count..] == old(dst.data[count..])
            && dst.len == if HEADER_SIZE + all == 0x10001 then old(dst.len) / 64 * 64 + src.len % 64 else src.len
  {
    hide CopiedBytes, DataBytes;
    CopiedIs(src.compressed, src.superSkip, src.len);
    BytesAreThere(src);
    var size := SizeOfSet(src);
    dst.compressed, dst.superSkip := src.compressed, src.superSkip;
    if size == 1 {
      dst.len := dst.len / 64 * 64 + src.len % 64;
      return;
    }
    dst.len := src.len;
    for i := 0 to size - HEADER_SIZE
      modifies dst.data
      invariant dst.data[..i] == src.data[..i] && dst.data[i..] == old(dst.data[i..])
    {
      dst.data[i] := src.data[i];
    }
  }

  method SetsEqual(s1: NodeSet, s2: NodeSet) returns (eq: bool)
    requires s1.Plain() && s2.Plain()
    ensures eq <==> s1.Bytes() == s2.Bytes()
  {
    if s1.len != s2.len { return false; }
    for i := 0 to s1.len
      invariant s1.data[..i] == s2.data[..i]
    {
      if s1.data[i] != s2.data[i] {
        assert s1.Bytes()[i] != s2.Bytes()[i];
        return false;
      }
    }
    return true;
  }
}
