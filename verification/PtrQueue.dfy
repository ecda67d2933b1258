/** The bounded pointer queue: a ring that keeps one slot empty. */
module PtrQueues {
  import opened Rings

  class PtrQueue<T(0)> {
    const entries: array<T>
    var head: nat
    var tail: nat

    ghost predicate Valid()
      reads this
    {
      head < entries.Length && tail < entries.Length
    }

    ghost function Count(): nat
      reads this
      requires Valid()
    {
      if head <= tail then tail - head else entries.Length - head + tail
    }

    ghost function Contents(): seq<T>
      reads this, entries
      requires Valid()
    {
      Window(entries[..], head, Count())
    }

    constructor (size: nat)
      requires size > 0
      ensures Valid() && Contents() == [] && entries.Length == size && fresh(entries)
    {
      entries := new T[size];
      head, tail := 0, 0;
    }

    /** Refused exactly when all slots but one are taken. */
    method Push(val: T) returns (ok: bool)
      requires Valid()
      modifies this`tail, entries
      ensures Valid() && (ok <==> |old(Contents())| < entries.Length - 1)
      ensures Contents() == if ok then old(Contents()) + [val] else old(Contents())
    {
      var availableslots := if head <= tail then entries.Length - tail + head else head - tail;
      if availableslots > 1 {
        Filled(entries[..], head, Count(), val);
        ghost var was := entries[..];
        entries[tail] := val;
        assert entries[..] == was[tail := val];
        tail := tail + 1;
        if tail >= entries.Length {
          tail := 0;
        }
        return true;
      }
      return false;
    }

    method Peek() returns (val: T, ok: bool)
      requires Valid()
      ensures ok <==> Contents() != []
      ensures ok ==> val == Contents()[0]
    {
      val := entries[head];
      ok := head != tail;
    }

    method Pop() returns (val: T, ok: bool)
      requires Valid()
      modifies this`head
      ensures Valid() && (ok <==> old(Contents()) != [])
      ensures ok ==> [val] + Contents() == old(Contents())
      ensures !ok ==> Contents() == old(Contents())
    {
      val := entries[head];
      if head == tail {
        return val, false;
      }
      Taken(entries[..], head, Count());
      head := head + 1;
      if head >= entries.Length {
        head := 0;
      }
      return val, true;
    }
  }
}
