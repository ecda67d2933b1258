/** The queue of bytes of the serial communication library: a stretch of a buffer that is
    moved to the front, or into a larger buffer, when there is no room behind it. */
module ByteQueues {

  type Byte = b: int | 0 <= b < 256

  function Doubled(n: nat, times: nat): nat
    decreases times
  {
    if times == 0 then n else Doubled(2 * n, times - 1)
  }

  /** Doubling reaches every size from a buffer that has room for something, and from an
      empty one it reaches nothing: there the loop would not end. */
  lemma {:induction false} DoublingReaches(n: nat, total: nat)
    ensures n > 0 ==> exists times: nat :: Doubled(n, times) >= total
    ensures n == 0 && total > 0 ==> forall times: nat :: Doubled(n, times) < total
    decreases total - n
  {
    if n == 0 {
      forall times: nat ensures Doubled(0, times) == 0 { DoubledZero(times); }
    } else if n >= total {
      assert Doubled(n, 0) >= total;
    } else {
      DoublingReaches(2 * n, total);
      var times: nat :| Doubled(2 * n, times) >= total;
      assert Doubled(n, times + 1) >= total;
    }
  }

  lemma {:induction false} DoubledZero(times: nat)
    ensures Doubled(0, times) == 0
  {
    if times > 0 { DoubledZero(times - 1); }
  }

  /** In every state the bytes taken out are a prefix of the bytes put in, as Valid says. */
  class ByteQueue {
    var buffer: array<Byte>
    var nbegin: nat
    var nend: nat
    /** All that was ever put in, and all that was ever taken out. */
    ghost var pushed: seq<Byte>
    ghost var popped: seq<Byte>

    ghost predicate InBounds()
      reads `buffer, `nbegin, `nend
    {
      nbegin <= nend <= buffer.Length && buffer.Length > 0
    }

    /** What was put in comes out in order, and what has not come out yet is there. */
    ghost predicate Valid()
      reads this, buffer
    {
      InBounds() && pushed == popped + Bytes()
    }

    ghost function Bytes(): (s: seq<Byte>)
      reads `buffer, `nbegin, `nend, buffer
      requires InBounds()
      ensures |s| == nend - nbegin
    {
      buffer[nbegin..nend]
    }

    constructor (initialLength: nat)
      requires initialLength > 0
      ensures Valid() && pushed == popped == [] && fresh(buffer)
    {
      pushed, popped := [], [];
      buffer := new Byte[initialLength](_ => 0);
      nbegin, nend := 0, 0;
    }

    function Available(): (n: nat)
      reads `buffer, `nbegin, `nend, buffer
      requires InBounds()
      ensures n == |Bytes()|
    {
      nend - nbegin
    }

    function NumFreeBack(): nat
      reads `buffer, `nbegin, `nend
      requires InBounds()
    {
      buffer.Length - nend
    }

    /** Moves the bytes to the front of `dest`, which may be the buffer itself. */
    method LeftJustifyInto(dest: array<Byte>)
      requires Valid() && Available() <= dest.Length && dest.Length > 0
      modifies `buffer, `nbegin, `nend, dest
      ensures Valid() && buffer == dest && nbegin == 0 && Bytes() == old(Bytes())
    {
      ghost var bytes := Bytes();
      var i, j := nbegin, 0;
      while i < nend
        modifies dest
        invariant nbegin <= i <= nend && j == i - nbegin
        invariant forall k | 0 <= k < j :: dest[k] == bytes[k]
        invariant buffer[i..nend] == bytes[j..]
      {
        assert buffer[i] == buffer[i..nend][0] && buffer[i..nend][1..] == buffer[i + 1..nend];
        dest[j] := buffer[i];
        i, j := i + 1, j + 1;
      }
      assert dest[..j] == bytes;
      nend := nend - nbegin;
      nbegin := 0;
      buffer := dest;
    }

    /** Makes room behind the bytes. */
    method EnsureFree(len: nat)
      requires Valid()
      modifies `buffer, `nbegin, `nend, buffer
      ensures Valid() && Bytes() == old(Bytes()) && NumFreeBack() >= len
      ensures buffer == old(buffer) || fresh(buffer)
    {
      if nbegin + NumFreeBack() < len {
        var newlen := buffer.Length * 2;
        var total := Available() + len;
        while newlen < total
          invariant newlen > 0
          decreases total - newlen
        {
          newlen := newlen * 2;
        }
        var dest := new Byte[newlen];
        LeftJustifyInto(dest);
      } else if NumFreeBack() < len {
        LeftJustifyInto(buffer);
      }
    }

    /** One byte more, where there is room behind the bytes. */
    method Store(b: Byte)
      requires InBounds() && NumFreeBack() > 0
      modifies `nend, buffer
      ensures InBounds() && Bytes() == old(Bytes()) + [b] && NumFreeBack() == old(NumFreeBack()) - 1
    {
      ghost var bytes := Bytes();
      buffer[nend] := b;
      nend := nend + 1;
      assert buffer[nbegin..nend] == buffer[nbegin..nend - 1] + [b];
    }

    method PushByte(b: Byte)
      requires Valid()
      modifies this, buffer
      ensures Valid() && Bytes() == old(Bytes()) + [b]
      ensures pushed == old(pushed) + [b] && popped == old(popped)
      ensures buffer == old(buffer) || fresh(buffer)
    {
      EnsureFree(1);
      Store(b);
      pushed := pushed + [b];
    }

    method PushBack(b: array<Byte>, off: nat, len: nat)
      requires Valid() && off + len <= b.Length && b != buffer
      modifies this, buffer
      ensures Valid() && Bytes() == old(Bytes()) + old(b[off..off + len])
      ensures pushed == old(pushed) + old(b[off..off + len]) && popped == old(popped)
      ensures buffer == old(buffer) || fresh(buffer)
    {
      EnsureFree(len);
      ghost var bytes, added, here := Bytes(), b[off..off + len], buffer;
      var k, bend := off, off + len;
      while k < bend
        modifies `nend, here
        invariant off <= k <= bend && InBounds() && NumFreeBack() >= bend - k
        invariant Bytes() == bytes + added[..k - off]
      {
        hide Bytes, InBounds;
        assert added[..k - off] + [b[k]] == added[..k + 1 - off];
        Store(b[k]);
        k := k + 1;
      }
      pushed := pushed + added;
      assert added[..len] == added;
    }

    /** The first byte, or -1. */
    method PopByte() returns (b: int)
      requires Valid()
      modifies `nbegin, `popped
      ensures Valid() && pushed == old(pushed) && popped == old(popped) + (if b == -1 then [] else [b])
      ensures if old(Bytes()) == [] then b == -1 && Bytes() == [] else b >= 0 && [b] + Bytes() == old(Bytes())
    {
      if Available() > 0 {
        b := buffer[nbegin];
        assert Bytes() == [buffer[nbegin]] + buffer[nbegin + 1..nend];
        nbegin := nbegin + 1;
        popped := popped + [b];
        return b;
      }
      return -1;
    }

    /** Pops into part of an array; says how many bytes there were for it, and whether an index
        was out of bounds.  The loop does not stop at the end of the bytes: all is well exactly
        if no more are asked for than there are. */
    method PopFront(b: array<Byte>, off: nat, len: nat) returns (n: nat, threw: bool)
      requires Valid() && off + len <= b.Length && b != buffer
      modifies `nbegin, `popped, b
      ensures buffer == old(buffer) && nend == old(nend)
      ensures !threw ==> popped == old(popped) + b[off..off + len]
      ensures !threw && Valid() <==> len <= |old(Bytes())|
      ensures len <= |old(Bytes())| ==> n == len && b[off..off + len] + Bytes() == old(Bytes())
      ensures forall k | 0 <= k < b.Length && !(off <= k < off + len) :: b[k] == old(b[k])
    {
      ghost var start, d := nbegin, buffer[..];
      n := Available();
      if n > len {
        n := len;
      }
      threw := CopyOut(b, off, len);
      if !threw {
        popped := popped + b[off..off + len];
        if n == len { SplitStretch(d, start, nbegin, nend); }
      }
    }

    /** The loop of PopFront: it stops at the end of the buffer only. */
    method CopyOut(b: array<Byte>, off: nat, len: nat) returns (threw: bool)
      requires nbegin <= buffer.Length && off + len <= b.Length && b != buffer
      modifies `nbegin, b
      ensures threw <==> old(nbegin) + len > buffer.Length
      ensures buffer[..] == old(buffer[..])
      ensures !threw ==> nbegin == old(nbegin) + len && b[off..off + len] == buffer[..][old(nbegin)..nbegin]
      ensures forall j | 0 <= j < b.Length && !(off <= j < off + len) :: b[j] == old(b[j])
    {
      ghost var start := nbegin;
      var k, bend := off, off + len;
      while k < bend
        modifies `nbegin, b
        invariant off <= k <= bend && nbegin == start + (k - off) <= buffer.Length
        invariant forall j | off <= j < k :: b[j] == buffer[start + (j - off)]
        invariant forall j | 0 <= j < b.Length && !(off <= j < k) :: b[j] == old(b[j])
      {
        if nbegin >= buffer.Length {
          return true;
        }
        b[k] := buffer[nbegin];
        nbegin := nbegin + 1;
        k := k + 1;
      }
      return false;
    }
  }

  lemma SplitStretch(d: seq<Byte>, start: nat, mid: nat, end: nat)
    requires start <= mid <= end <= |d|
    ensures d[start..end] == d[start..mid] + d[mid..end]
  {
  }
}
