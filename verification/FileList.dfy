/** The circular, doubly linked lists of the flash file system.  A list is a head node and
    the nodes that follow it around the ring. */
module FileLists {

  class ListPtr {
    var next: ListPtr?
    var prev: ListPtr?

    constructor ()
      ensures next == null && prev == null
    {
      next, prev := null, null;
    }
  }

  /** `next` and `prev` lead around the nodes in that order and back, and the nodes differ. */
  ghost predicate Ring(ns: seq<ListPtr>)
    reads ns
  {
    && ns != []
    && (forall i {:trigger ns[i].next} | 0 <= i < |ns| - 1 :: ns[i].next == ns[i + 1])
    && ns[|ns| - 1].next == ns[0]
    && (forall i {:trigger ns[i].prev} | 0 < i < |ns| :: ns[i].prev == ns[i - 1])
    && ns[0].prev == ns[|ns| - 1]
    && (forall i, j | 0 <= i < j < |ns| :: ns[i] != ns[j])
  }

  ghost predicate List(head: ListPtr, entries: seq<ListPtr>)
    reads head, entries
  {
    Ring([head] + entries)
  }

  /** INIT_LIST. */
  method InitList(ptr: ListPtr)
    modifies ptr
    ensures List(ptr, [])
  {
    ptr.next := ptr;
    ptr.prev := ptr;
  }

  /** _add_to_list: at place k of the ring. */
  method AddBetween(node: ListPtr, prev: ListPtr, next: ListPtr, ghost ns: seq<ListPtr>, ghost k: nat)
    requires Ring(ns) && node !in ns && 1 <= k <= |ns|
    requires prev == ns[k - 1] && next == if k < |ns| then ns[k] else ns[0]
    modifies node, prev`next, next`prev
    ensures Ring(ns[..k] + [node] + ns[k..])
  {
    next.prev := node;
    node.next := next;
    node.prev := prev;
    prev.next := node;
  }

  /** add_node. */
  method AddNode(node: ListPtr, head: ListPtr, ghost entries: seq<ListPtr>)
    requires List(head, entries) && node != head && node !in entries
    modifies node, head, entries
    ensures List(head, [node] + entries)
  {
    ghost var ns := [head] + entries;
    AddBetween(node, head, head.next, ns, 1);
    assert ns[..1] + [node] + ns[1..] == [head] + ([node] + entries);
  }

  /** add_node_to_tail. */
  method AddNodeToTail(node: ListPtr, head: ListPtr, ghost entries: seq<ListPtr>)
    requires List(head, entries) && node != head && node !in entries
    modifies node, head, entries
    ensures List(head, entries + [node])
  {
    ghost var ns := [head] + entries;
    AddBetween(node, head.prev, head, ns, |ns|);
    assert ns[..|ns|] + [node] + ns[|ns|..] == [head] + (entries + [node]);
  }

  /** _del_node_from_list: the neighbours of node k of a ring are linked with each other. */
  method Bypass(prev: ListPtr, next: ListPtr, ghost ns: seq<ListPtr>, ghost k: nat)
    requires Ring(ns) && 1 <= k < |ns|
    requires prev == ns[k - 1] && next == if k + 1 < |ns| then ns[k + 1] else ns[0]
    modifies prev`next, next`prev
    ensures Ring(ns[..k] + ns[k + 1..]) && ns[k] !in ns[..k] + ns[k + 1..]
  {
    ghost var rest := ns[..k] + ns[k + 1..];
    next.prev := prev;
    prev.next := next;
    assert forall i | 0 <= i < |rest| :: rest[i] == ns[if i < k then i else i + 1];
  }

  /** delete_node: entry k leaves its list, and its links are cleared. */
  method DeleteNode(entry: ListPtr, ghost head: ListPtr, ghost entries: seq<ListPtr>, ghost k: nat)
    requires List(head, entries) && k < |entries| && entries[k] == entry
    modifies head, entries
    ensures List(head, entries[..k] + entries[k + 1..])
    ensures entry.next == null && entry.prev == null
  {
    ghost var ns := [head] + entries;
    assert ns[k + 1] == entry;
    var prev, next := entry.prev, entry.next;
    Bypass(prev, next, ns, k + 1);
    assert ns[..k + 1] + ns[k + 2..] == [head] + (entries[..k] + entries[k + 1..]);
    entry.next := null;
    entry.prev := null;
  }

  /** is_list_empty. */
  lemma EmptyIff(head: ListPtr, entries: seq<ListPtr>)
    requires List(head, entries)
    ensures head.next == head <==> entries == []
  {
    var ns := [head] + entries;
    assert ns[0] == head;
    if entries != [] { assert ns[0].next == ns[1]; }
  }

  /** join_lists: the nodes of `list` are put before `head`, that is at the end of its list. */
  method JoinLists(list: ListPtr, head: ListPtr, ghost joined: seq<ListPtr>, ghost entries: seq<ListPtr>)
    requires List(list, joined) && List(head, entries)
    requires forall n | n in [list] + joined :: n !in [head] + entries
    modifies joined, head, entries
    ensures List(head, entries + joined)
  {
    ghost var ls, hs, all := [list] + joined, [head] + entries, [head] + (entries + joined);
    assert ls[0] == list && hs[0] == head;
    forall i, j | 0 <= i < |ls| && 0 <= j < |hs| ensures ls[i] != hs[j] {
      assert ls[i] in ls && hs[j] in hs;
    }
    EmptyIff(list, joined);
    if list.next != list {
      var before := head.prev;
      var first, last, at := list.next, list.prev, before.next;
      assert |ls| > 1 && first == ls[1] && last == ls[|ls| - 1] && before == hs[|hs| - 1] && at == head;
      first.prev := before;
      before.next := first;
      last.next := at;
      at.prev := last;
      assert |all| == |hs| + |ls| - 1;
      assert forall i {:trigger all[i]} | 0 <= i < |hs| :: all[i] == hs[i];
      assert forall i {:trigger all[i]} | |hs| <= i < |all| :: all[i] == ls[i - |hs| + 1];
    } else {
      assert entries + joined == entries;
    }
  }

  // ---- traversal that survives deletion --------------------------------------------------------

  /** The entries that stay, and those that go, in order. */
  function Staying(entries: seq<ListPtr>, doomed: set<ListPtr>): (r: seq<ListPtr>)
    ensures forall j | 0 <= j < |r| :: r[j] in entries && r[j] !in doomed
  {
    if entries == [] then []
    else
      var last := entries[|entries| - 1];
      Staying(entries[..|entries| - 1], doomed) + if last in doomed then [] else [last]
  }

  function Going(entries: seq<ListPtr>, doomed: set<ListPtr>): (r: seq<ListPtr>)
    ensures forall j | 0 <= j < |r| :: r[j] in entries && r[j] in doomed
  {
    if entries == [] then []
    else
      var last := entries[|entries| - 1];
      Going(entries[..|entries| - 1], doomed) + if last in doomed then [last] else []
  }

  lemma OneMoreEntry(front: seq<ListPtr>, last: ListPtr, doomed: set<ListPtr>)
    ensures Staying(front + [last], doomed) == Staying(front, doomed) + (if last in doomed then [] else [last])
    ensures Going(front + [last], doomed) == Going(front, doomed) + (if last in doomed then [last] else [])
  {
    assert (front + [last])[..|front|] == front;
  }

  /** They keep their order: what becomes of a list is what becomes of its parts. */
  lemma {:induction false} PartsInOrder(a: seq<ListPtr>, b: seq<ListPtr>, doomed: set<ListPtr>)
    ensures Staying(a + b, doomed) == Staying(a, doomed) + Staying(b, doomed)
    ensures Going(a + b, doomed) == Going(a, doomed) + Going(b, doomed)
  {
    if b == [] {
      assert a + b == a;
    } else {
      var front, last := b[..|b| - 1], b[|b| - 1];
      assert b == front + [last] && a + b == (a + front) + [last];
      hide Staying, Going;
      PartsInOrder(a, front, doomed);
      OneMoreEntry(front, last, doomed);
      OneMoreEntry(a + front, last, doomed);
    }
  }

  /** No node is lost, and none is in both. */
  lemma {:induction false} Conserved(entries: seq<ListPtr>, doomed: set<ListPtr>)
    ensures multiset(Staying(entries, doomed)) + multiset(Going(entries, doomed)) == multiset(entries)
  {
    if entries != [] {
      var front, last := entries[..|entries| - 1], entries[|entries| - 1];
      Conserved(front, doomed);
      assert entries == front + [last];
      if last in doomed {
        assert Staying(entries, doomed) == Staying(front, doomed);
        assert Going(entries, doomed) == Going(front, doomed) + [last];
      } else {
        assert Staying(entries, doomed) == Staying(front, doomed) + [last];
        assert Going(entries, doomed) == Going(front, doomed);
      }
      hide Staying, Going;
    }
  }

  ghost predicate Apart(a: seq<ListPtr>, b: seq<ListPtr>) {
    forall x | x in a :: x !in b
  }

  lemma ApartParts(head: ListPtr, entries: seq<ListPtr>, other: ListPtr, others: seq<ListPtr>)
    requires Apart([head] + entries, [other] + others)
    ensures head != other && other !in entries && head !in others
    ensures forall i | 0 <= i < |others| :: others[i] !in entries
    ensures forall i | 0 <= i < |entries| :: entries[i] !in others
  {
    assert head in [head] + entries && other in [other] + others;
    assert forall y | y in entries :: y in [head] + entries;
    assert forall y | y in others :: y in [other] + others;
  }

  /** Where the links of a list lead. */
  lemma Links(head: ListPtr, entries: seq<ListPtr>, k: nat)
    requires List(head, entries) && k <= |entries|
    ensures head.next == if entries == [] then head else entries[0]
    ensures k < |entries| ==>
              entries[k] != head && entries[k].next == if k + 1 < |entries| then entries[k + 1] else head
  {
    var ns := [head] + entries;
    assert ns[0] == head;
    assert entries != [] ==> ns[1] == entries[0];
    if k < |entries| {
      assert ns[k + 1] == entries[k];
      assert k + 1 < |entries| ==> ns[k + 2] == entries[k + 1];
    }
  }

  /** One node more has been visited. */
  lemma Visited(entries: seq<ListPtr>, i: nat, doomed: set<ListPtr>)
    requires i < |entries|
    ensures var (stay, next) := (Staying(entries[..i], doomed), Staying(entries[..i + 1], doomed));
            var cur := stay + entries[i..];
            && cur[|stay|] == entries[i]
            && (if entries[i] in doomed
                then && cur[..|stay|] + cur[|stay| + 1..] == next + entries[i + 1..]
                     && Going(entries[..i + 1], doomed) == Going(entries[..i], doomed) + [entries[i]]
                else && cur == next + entries[i + 1..] && |next| == |stay| + 1
                     && Going(entries[..i + 1], doomed) == Going(entries[..i], doomed))
  {
    assert entries[..i + 1][..i] == entries[..i];
    assert entries[i..] == [entries[i]] + entries[i + 1..];
  }

  lemma Moved(head: ListPtr, entries: seq<ListPtr>, k: nat, other: ListPtr, others: seq<ListPtr>)
    requires List(head, entries) && Apart([head] + entries, [other] + others) && k < |entries|
    ensures Apart([head] + (entries[..k] + entries[k + 1..]), [other] + (others + [entries[k]]))
  {
    var ns, rest := [head] + entries, [head] + (entries[..k] + entries[k + 1..]);
    var more := [other] + (others + [entries[k]]);
    assert ns[k + 1] == entries[k] && entries[k] in ns && more == [other] + others + [entries[k]];
    forall x | x in rest ensures x !in more {
      var i :| 0 <= i < |rest| && rest[i] == x;
      assert x == ns[if i <= k then i else i + 1] && x in ns;
    }
  }

  /** Takes entry k out of one list and puts it at the end of the other. */
  method MoveNode(pos: ListPtr, ghost head: ListPtr, other: ListPtr, ghost entries: seq<ListPtr>, ghost k: nat,
                  ghost others: seq<ListPtr>)
    requires List(head, entries) && List(other, others) && Apart([head] + entries, [other] + others)
    requires k < |entries| && entries[k] == pos
    modifies head, entries, other, others
    ensures List(head, entries[..k] + entries[k + 1..]) && List(other, others + [pos])
    ensures Apart([head] + (entries[..k] + entries[k + 1..]), [other] + (others + [pos]))
  {
    hide List, Apart;
    ApartParts(head, entries, other, others);
    ghost var rest := entries[..k] + entries[k + 1..];
    Moved(head, entries, k, other, others);
    ApartParts(head, rest, other, others + [pos]);
    assert (others + [pos])[|others|] == pos;
    assert forall i | 0 <= i < |rest| :: rest[i] != pos && rest[i] != other && rest[i] !in others;
    DeleteNode(pos, head, entries, k);
    AddNodeToTail(pos, other, others);
  }

  /** The first i entries have been visited, and the doomed ones among them moved. */
  ghost predicate Progress(head: ListPtr, other: ListPtr, doomed: set<ListPtr>, entries: seq<ListPtr>,
                           others: seq<ListPtr>, i: nat)
    reads head, other, entries, others
  {
    && i <= |entries|
    && List(head, Staying(entries[..i], doomed) + entries[i..]) && List(other, others + Going(entries[..i], doomed))
    && Apart([head] + (Staying(entries[..i], doomed) + entries[i..]), [other] + (others + Going(entries[..i], doomed)))
  }

  /** The body of the traversal: it moves the node if it is doomed. */
  method VisitNode(pos: ListPtr, head: ListPtr, other: ListPtr, doomed: set<ListPtr>,
                   ghost entries: seq<ListPtr>, ghost others: seq<ListPtr>, ghost i: nat)
    requires i < |entries| && pos == entries[i] && Progress(head, other, doomed, entries, others, i)
    modifies head, entries, other, others
    ensures Progress(head, other, doomed, entries, others, i + 1)
  {
    hide List, Apart, Staying, Going;
    Visited(entries, i, doomed);
    if pos in doomed {
      ghost var stay, gone := Staying(entries[..i], doomed), Going(entries[..i], doomed);
      assert others + gone + [pos] == others + (gone + [pos]);
      MoveNode(pos, head, other, stay + entries[i..], |stay|, others + gone);
    }
  }

  /** for_each_node_in_list, where the body moves the doomed nodes to another list: every node
      of the original list is visited once and in order, and ends in one of the lists. */
  method MoveDoomed(head: ListPtr, other: ListPtr, doomed: set<ListPtr>, ghost entries: seq<ListPtr>,
                    ghost others: seq<ListPtr>)
    returns (visited: seq<ListPtr>)
    requires List(head, entries) && List(other, others) && Apart([head] + entries, [other] + others)
    modifies head, entries, other, others
    ensures visited == entries
    ensures List(head, Staying(entries, doomed)) && List(other, others + Going(entries, doomed))
  {
    hide List, Apart, Staying, Going, Progress;
    visited := [];
    ghost var i := 0;
    ProgressStart(head, other, doomed, entries, others);
    NextNode(head, other, doomed, entries, others, 0);
    var pos := head.next;
    var n := pos.next;
    while pos != head
      invariant i <= |entries| && Progress(head, other, doomed, entries, others, i)
      invariant visited == entries[..i]
      invariant pos == (if i < |entries| then entries[i] else head) && n == pos.next
      invariant i < |entries| ==> pos != head && n == if i + 1 < |entries| then entries[i + 1] else head
      decreases |entries| - i
    {
      visited := visited + [pos];
      VisitNode(pos, head, other, doomed, entries, others, i);
      i := i + 1;
      NextNode(head, other, doomed, entries, others, i);
      pos := n;
      n := pos.next;
    }
    ProgressEnd(head, other, doomed, entries, others);
    assert entries[..i] == entries;
  }

  lemma ProgressStart(head: ListPtr, other: ListPtr, doomed: set<ListPtr>, entries: seq<ListPtr>, others: seq<ListPtr>)
    requires List(head, entries) && List(other, others) && Apart([head] + entries, [other] + others)
    ensures Progress(head, other, doomed, entries, others, 0)
  {
    hide List, Apart, Staying, Going;
    NoneVisited(entries, doomed);
    assert [] + entries[0..] == entries && others + [] == others;
  }

  lemma ProgressEnd(head: ListPtr, other: ListPtr, doomed: set<ListPtr>, entries: seq<ListPtr>, others: seq<ListPtr>)
    requires Progress(head, other, doomed, entries, others, |entries|)
    ensures List(head, Staying(entries, doomed)) && List(other, others + Going(entries, doomed))
  {
    hide List, Apart, Staying, Going;
    var n := |entries|;
    assert entries[..n] == entries && Staying(entries, doomed) + entries[n..] == Staying(entries, doomed);
  }

  /** What the next entry links to. */
  lemma NextNode(head: ListPtr, other: ListPtr, doomed: set<ListPtr>, entries: seq<ListPtr>, others: seq<ListPtr>,
                 i: nat)
    requires Progress(head, other, doomed, entries, others, i)
    ensures i < |entries| ==>
              entries[i] != head && entries[i].next == if i + 1 < |entries| then entries[i + 1] else head
    ensures i == 0 ==> head.next == if entries == [] then head else entries[0]
    ensures head.next != null && i <= |entries|
  {
    hide List, Apart, Staying, Going;
    var k := |Staying(entries[..i], doomed)|;
    NoneVisited(entries, doomed);
    Links(head, Staying(entries[..i], doomed) + entries[i..], k);
  }

  lemma NoneVisited(entries: seq<ListPtr>, doomed: set<ListPtr>)
    ensures Staying(entries[..0], doomed) == [] && Going(entries[..0], doomed) == []
  {
  }
}
