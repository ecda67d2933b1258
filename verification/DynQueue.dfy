/** The queue that grows and shrinks: its items are a stretch of an array that is shifted to
    the front, doubled or halved as the stretch moves. */
module DynQueues {

  const MIN_PHYS_LENGTH := 2

  predicate PowerOfTwo(n: nat) { n == 1 || (n > 1 && n % 2 == 0 && PowerOfTwo(n / 2)) }

  /** The array is not much more than twice what is used, or 16/7 of it. */
  predicate Tight(physical: nat, length: nat) {
    physical <= 2 * length + 11 || 7 * physical <= 16 * length
  }

  lemma TightMore(physical: nat, length: nat)
    requires Tight(physical, length)
    ensures Tight(physical, length + 1)
  {
  }

  /** After a dequeue, with the array halved or not. */
  lemma TightLess(physical: nat, length: nat)
    requires Tight(physical, length) && length > 0
    ensures length - 1 + 5 >= physical / 2 ==> Tight(physical, length - 1)
    ensures length - 1 + 5 < physical / 2 ==> Tight(physical / 2, length - 1)
  {
  }

  /** memmove within an array; the stretches may overlap. */
  method Memmove(a: array<nat>, dest: nat, src: nat, n: nat)
    requires dest + n <= a.Length && src + n <= a.Length
    modifies a
    ensures a[dest..dest + n] == old(a[src..src + n])
    ensures forall k | 0 <= k < a.Length && !(dest <= k < dest + n) :: a[k] == old(a[k])
  {
    ghost var was := a[..];
    if dest <= src {
      for i := 0 to n
        invariant forall k | dest <= k < dest + i :: a[k] == was[k - dest + src]
        invariant forall k | 0 <= k < a.Length && !(dest <= k < dest + i) :: a[k] == was[k]
      {
        a[dest + i] := a[src + i];
      }
    } else {
      for i := n downto 0
        invariant forall k | dest + i <= k < dest + n :: a[k] == was[k - dest + src]
        invariant forall k | 0 <= k < a.Length && !(dest + i <= k < dest + n) :: a[k] == was[k]
      {
        a[dest + i] := a[src + i];
      }
    }
  }

  /** realloc: what is new is arbitrary. */
  method Realloc(a: array<nat>, size: nat) returns (b: array<nat>)
    ensures fresh(b) && b.Length == size
    ensures forall k | 0 <= k < size && k < a.Length :: b[k] == a[k]
  {
    b := new nat[size];
    for i := 0 to if size < a.Length then size else a.Length
      invariant forall k | 0 <= k < i :: b[k] == a[k]
    {
      b[i] := a[i];
    }
  }

  class DynQueue {
    var length: nat
    var physLength: nat
    var index: nat
    var queue: array<nat>

    ghost predicate Valid()
      reads this
    {
      && queue.Length == physLength && index + length <= physLength
      && MIN_PHYS_LENGTH <= physLength && PowerOfTwo(physLength) && Tight(physLength, length)
    }

    /** The items, first out first. */
    ghost function Items(): (s: seq<nat>)
      reads this, queue
      requires Valid()
      ensures |s| == length
    {
      queue[index..index + length]
    }

    constructor ()
      ensures Valid() && Items() == [] && fresh(queue)
    {
      length, physLength, index := 0, MIN_PHYS_LENGTH, 0;
      queue := new nat[MIN_PHYS_LENGTH](_ => 0);
    }

    method Peek() returns (item: nat)
      requires Valid()
      ensures item == if Items() == [] then 0 else Items()[0]
    {
      if length <= 0 {
        return 0;
      }
      return queue[index];
    }

    /** shiftgrow: afterwards there is room behind the items. */
    method ShiftGrow()
      requires Valid() && index + length == physLength
      modifies this`index, this`physLength, this`queue, queue
      ensures queue == old(queue) || fresh(queue)
      ensures queue.Length == physLength && PowerOfTwo(physLength) && MIN_PHYS_LENGTH <= physLength
      ensures index + length < physLength && queue[index..index + length] == old(queue[index..index + length])
      ensures Tight(physLength, length + 1) && (old(index) == 0 ==> index == 0)
    {
      if index > 2 && index > physLength / 8 {
        Memmove(queue, 0, index, length);
        index := 0;
      } else {
        physLength := physLength * 2;
        queue := Realloc(queue, physLength);
      }
    }

    /** shiftshrink. */
    method ShiftShrink()
      requires queue.Length == physLength && index + length <= physLength && 2 * length <= physLength && 4 <= physLength
      requires PowerOfTwo(physLength)
      modifies this`index, this`physLength, this`queue, queue
      ensures queue == old(queue) || fresh(queue)
      ensures queue.Length == physLength == old(physLength) / 2 && PowerOfTwo(physLength)
      ensures index == 0 && length <= physLength && queue[..length] == old(queue[index..index + length])
    {
      if index > 0 {
        Memmove(queue, 0, index, length);
        index := 0;
      }
      physLength := physLength / 2;
      queue := Realloc(queue, physLength);
    }

    /** Adds an item at the end; gives the new length. */
    method Enqueue(item: nat) returns (len: nat)
      requires Valid()
      modifies this, queue
      ensures Valid() && Items() == old(Items()) + [item] && len == |Items()|
      ensures queue == old(queue) || fresh(queue)
    {
      hide PowerOfTwo, Tight;
      TightMore(physLength, length);
      ghost var was := queue[index..index + length];
      if length + index == physLength {
        ShiftGrow();
      }
      var end := index + length;
      queue[end] := item;
      length := length + 1;
      len := length;
      assert queue[index..end] == was && queue[index..end + 1] == queue[index..end] + [item];
    }

    /** Takes the first item, or gives null if there is none. */
    method Dequeue() returns (item: nat)
      requires Valid()
      modifies this, queue
      ensures Valid() && (queue == old(queue) || fresh(queue))
      ensures if old(Items()) == [] then item == 0 && Items() == [] else [item] + Items() == old(Items())
    {
      if length <= 0 {
        return 0;
      }
      hide PowerOfTwo, Tight;
      TightLess(physLength, length);
      ghost var was := queue[index..index + length];
      item := queue[index];
      queue[index] := 0;
      length := length - 1;
      index := index + 1;
      assert queue[index..index + length] == was[1..] && was == [item] + was[1..];
      if length + 5 < physLength / 2 {
        ShiftShrink();
      }
    }

    /** Opens a place in front of the items. */
    method OpenFront()
      requires queue.Length == physLength && index + length <= physLength && length < physLength
      modifies this`index, queue
      ensures index + 1 + length <= physLength
      ensures queue[index + 1..index + 1 + length] == old(queue[index..index + length])
    {
      if index > 0 {
        index := index - 1;
      } else {
        Memmove(queue, 1, 0, length);
      }
    }

    method PutFirst(item: nat, ghost was: seq<nat>)
      requires queue.Length == physLength && index + 1 + length <= physLength
               && queue[index + 1..index + 1 + length] == was
      modifies this`length, queue
      ensures length == old(length) + 1 && queue[index..index + length] == [item] + was
    {
      length := length + 1;
      queue[index] := item;
      assert queue[index..index + length] == [queue[index]] + queue[index + 1..index + length];
    }

    /** Adds an item at the front. */
    method Push(item: nat)
      requires Valid()
      modifies this, queue
      ensures Valid() && Items() == [item] + old(Items())
      ensures queue == old(queue) || fresh(queue)
    {
      hide PowerOfTwo, Tight;
      TightMore(physLength, length);
      if length == physLength {
        ShiftGrow();
      }
      ghost var was := queue[index..index + length];
      OpenFront();
      PutFirst(item, was);
    }
  }
}
