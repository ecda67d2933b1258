/** The incoming list of one mote: linked entries between a head and a tail pointer. */
module IncomingLists {
  import opened PacketSpec

  /** An entry.  Its place in the model of the air (`mote`, `id` and times) is ghost: the
      simulator keeps the times in the events. */
  class IncomingMsg {
    const from: nat
    var packet: Packet
    var crc: bool
    var next: IncomingMsg?
    ghost const mote: nat
    ghost const id: nat
    ghost const deliver: bool
    ghost const start: int
    ghost const end: int

    constructor (packet: Packet, ghost mote: nat, ghost c: Copy, from: nat)
      requires c.from == from && c.packet == packet && c.crc
      ensures next == null && this.mote == mote && AsCopy() == c
    {
      this.from, this.packet, this.crc, next := from, packet, true, null;
      this.mote, id, deliver, start, end := mote, c.id, c.deliver, c.start, c.end;
    }

    ghost function AsCopy(): Copy
      reads `packet, `crc
    {
      Copy(id, from, packet, crc, deliver, start, end)
    }

    method CorruptPacket(junk: Packet)
      modifies this`packet, this`crc
      ensures AsCopy() == Corrupt(old(AsCopy()), junk)
    {
      packet, crc := junk, false;
    }
  }

  ghost function Copies(nodes: seq<IncomingMsg>): (cs: seq<Copy>)
    reads nodes
    ensures |cs| == |nodes| && forall i | 0 <= i < |cs| :: cs[i] == nodes[i].AsCopy()
  {
    seq(|nodes|, i requires 0 <= i < |nodes| reads nodes => nodes[i].AsCopy())
  }

  lemma WithoutOne<T>(s: seq<T>, k: nat)
    requires k < |s| && forall i, j | 0 <= i < j < |s| :: s[i] != s[j]
    ensures var r := s[..k] + s[k + 1..];
            && (forall i | 0 <= i < |r| :: r[i] == s[if i < k then i else i + 1])
            && (forall i, j | 0 <= i < j < |r| :: r[i] != r[j])
  {
  }

  class IncomingList {
    var head: IncomingMsg?
    var last: IncomingMsg?
    ghost const mote: nat
    ghost var nodes: seq<IncomingMsg>

    ghost predicate Valid()
      reads this, nodes
    {
      && (nodes == [] ==> head == null && last == null)
      && (nodes != [] ==> head == nodes[0] && last == nodes[|nodes| - 1] && last.next == null)
      && (forall i {:trigger nodes[i].next} | 0 <= i < |nodes| - 1 :: nodes[i].next == nodes[i + 1])
      && (forall i | 0 <= i < |nodes| :: nodes[i].mote == mote)
      && (forall i, j | 0 <= i < j < |nodes| :: nodes[i] != nodes[j])
    }

    ghost function Contents(): (cs: seq<Copy>)
      reads this, nodes
      ensures |cs| == |nodes| && forall i | 0 <= i < |cs| :: cs[i] == nodes[i].AsCopy()
    {
      Copies(nodes)
    }

    constructor (ghost mote: nat)
      ensures Valid() && nodes == [] && this.mote == mote
    {
      head, last, nodes := null, null, [];
      this.mote := mote;
    }

    /** Appends an entry behind the tail. */
    method Add(entry: IncomingMsg)
      requires Valid() && entry !in nodes && entry.mote == mote
      modifies this, nodes, entry
      ensures Valid() && nodes == old(nodes) + [entry]
      ensures Contents() == old(Contents()) + [old(entry.AsCopy())]
    {
      entry.next := null;
      if last == null {
        head, last := entry, entry;
      } else {
        last.next := entry;
        last := entry;
      }
      nodes := nodes + [entry];
    }

    /** Corrupts entry i; the others and the links stay. */
    method CorruptEntry(entry: IncomingMsg, ghost i: nat, junk: Packet)
      requires Valid() && i < |nodes| && nodes[i] == entry
      modifies entry`packet, entry`crc
      ensures Valid() && entry.AsCopy() == Corrupt(old(entry.AsCopy()), junk)
      ensures forall j | 0 <= j < |nodes| && j != i :: nodes[j].AsCopy() == old(nodes[j].AsCopy())
    {
      entry.CorruptPacket(junk);
    }

    /** Walks from the second entry to the one looked for, or to the last. */
    method Search(entry: IncomingMsg)
      returns (prevMsg: IncomingMsg, currentMsg: IncomingMsg, nextMsg: IncomingMsg?, ghost k: nat)
      requires Valid() && head != null && head != entry && head.next != null
      ensures 1 <= k < |nodes| && currentMsg == nodes[k] && prevMsg == nodes[k - 1] && nextMsg == currentMsg.next
      ensures currentMsg != entry ==> entry !in nodes
    {
      k := 1;
      prevMsg := head;
      assert prevMsg == nodes[0];
      currentMsg := head.next;
      nextMsg := currentMsg.next;
      while currentMsg != entry && nextMsg != null
        invariant 1 <= k < |nodes| && currentMsg == nodes[k] && prevMsg == nodes[k - 1] && nextMsg == currentMsg.next
        invariant forall j | 0 <= j < k :: nodes[j] != entry
        decreases |nodes| - k
      {
        prevMsg := currentMsg;
        currentMsg := nextMsg;
        nextMsg := currentMsg.next;
        k := k + 1;
      }
    }

    /** Unlinks entry k, not the first. */
    method CutOut(prevMsg: IncomingMsg, entry: IncomingMsg, nextMsg: IncomingMsg?, ghost k: nat)
      requires Valid() && 1 <= k < |nodes| && nodes[k] == entry && nodes[k - 1] == prevMsg && nextMsg == entry.next
      modifies this`last, this`nodes, prevMsg`next
      ensures Valid() && nodes == old(nodes)[..k] + old(nodes)[k + 1..]
    {
      prevMsg.next := nextMsg;
      if last == entry {
        last := prevMsg;
      }
      WithoutOne(nodes, k);
      nodes := nodes[..k] + nodes[k + 1..];
    }

    lemma HeadIs(entry: IncomingMsg)
      requires Valid()
      ensures head == null ==> entry !in nodes
      ensures head != null ==> nodes != [] && nodes[0] == head
      ensures head != null && head.next == null ==> nodes == [head]
    {
    }

    method RemoveHead(entry: IncomingMsg)
      requires Valid() && head == entry
      modifies this
      ensures Valid() && old(nodes) != [] && old(nodes)[0] == entry && nodes == old(nodes)[1..]
    {
      if last == entry {
        assert nodes[0] == nodes[|nodes| - 1];
        head, last := null, null;
        nodes := nodes[1..];
      } else {
        head := head.next;
        nodes := nodes[1..];
      }
    }

    /** Unlinks the entry if it is listed; says whether it was, and where. */
    method Remove(entry: IncomingMsg) returns (found: bool, ghost k: nat)
      requires Valid()
      modifies this, nodes`next
      ensures Valid() && found == (entry in old(nodes))
      ensures !found ==> nodes == old(nodes)
      ensures found ==> k < |old(nodes)| && old(nodes)[k] == entry && nodes == old(nodes)[..k] + old(nodes)[k + 1..]
    {
      hide Valid;
      k := 0;
      HeadIs(entry);
      if head == null {
        return false, k;
      }
      if head == entry {
        RemoveHead(entry);
        assert old(nodes)[..0] + old(nodes)[1..] == old(nodes)[1..];
        return true, k;
      }
      if head.next == null {
        return false, k;
      }
      var prevMsg, currentMsg, nextMsg;
      prevMsg, currentMsg, nextMsg, k := Search(entry);
      if currentMsg != entry {
        return false, k;
      }
      CutOut(prevMsg, entry, nextMsg, k);
      return true, k;
    }
  }

  /** The list l is that of mote m and holds the copies cs; its entries are known by id. */
  ghost predicate ListHolds(l: IncomingList, m: nat, cs: seq<Copy>, motes: nat, carried: map<nat, IncomingMsg>)
    reads l, l.nodes
  {
    && l.mote == m && l.Valid() && l.Contents() == cs
    && forall i | 0 <= i < |l.nodes| ::
         l.nodes[i].from < motes && l.nodes[i].id in carried && carried[l.nodes[i].id] == l.nodes[i]
  }

  lemma ListHoldsMore(l: IncomingList, m: nat, cs: seq<Copy>, motes: nat, carried: map<nat, IncomingMsg>,
                      more: map<nat, IncomingMsg>)
    requires ListHolds(l, m, cs, motes, carried)
    requires forall id | id in carried :: id in more && more[id] == carried[id]
    ensures ListHolds(l, m, cs, motes, more)
  {
  }

  /** Lists of different motes have nothing in common. */
  lemma ListsApart(l: IncomingList, k: IncomingList, m: nat, n: nat)
    requires l.Valid() && k.Valid() && l.mote == m && k.mote == n && m != n
    ensures l != k && forall node | node in l.nodes :: node !in k.nodes
  {
  }

  lemma {:induction false} WithoutFirst(cs: seq<Copy>, k: nat, id: nat)
    requires k < |cs| && cs[k].id == id && forall i | 0 <= i < k :: cs[i].id != id
    ensures Lists(cs, id) && Without(cs, id) == cs[..k] + cs[k + 1..] && Find(cs, id) == cs[k]
  {
    if k > 0 {
      WithoutFirst(cs[1..], k - 1, id);
      assert cs[1..][k - 1] == cs[k];
      assert cs[..k] + cs[k + 1..] == [cs[0]] + (cs[1..][..k - 1] + cs[1..][k..]);
    }
  }

  /** Where the entry of that id is. */
  lemma EntryAt(l: IncomingList, m: nat, cs: seq<Copy>, motes: nat, carried: map<nat, IncomingMsg>, id: nat)
    returns (i: nat)
    requires ListHolds(l, m, cs, motes, carried) && Lists(cs, id)
    ensures l.Valid() && l.mote == m && i < |l.nodes| == |cs| && id in carried && carried[id] == l.nodes[i]
    ensures Without(cs, id) == cs[..i] + cs[i + 1..] && Find(cs, id) == cs[i] == l.nodes[i].AsCopy()
    ensures forall j | 0 <= j < |cs| && j != i :: l.nodes[j] != l.nodes[i]
  {
    i :| 0 <= i < |cs| && cs[i].id == id;
    assert l.nodes[i].id == id;
    forall j | 0 <= j < i ensures cs[j].id != id {
      assert l.nodes[j] != l.nodes[i];
    }
    WithoutFirst(cs, i, id);
  }

  /** Unlinks the entry that an event carries. */
  method Unlink(l: IncomingList, m: nat, ghost cs: seq<Copy>, ghost motes: nat, carried: map<nat, IncomingMsg>, id: nat,
                ghost entries: set<IncomingMsg>)
    returns (entry: IncomingMsg)
    requires ListHolds(l, m, cs, motes, carried) && Lists(cs, id) && Within(l, entries)
    modifies l, l.nodes
    ensures Within(l, entries)
    ensures entry.AsCopy() == Find(cs, id)
    ensures ListHolds(l, m, Without(cs, id), motes, carried)
  {
    hide Without, Find, Lists, IncomingList.Valid;
    ghost var ns := l.nodes;
    ghost var i := EntryAt(l, m, cs, motes, carried, id);
    entry := carried[id];
    var found, k := l.Remove(entry);
    assert k == i;
    Removed(l, m, cs, motes, carried, ns, i, entries);
  }

  /** Without the i-th of its entries ns, a list holds the copies without the i-th. */
  lemma Removed(l: IncomingList, m: nat, cs: seq<Copy>, motes: nat, carried: map<nat, IncomingMsg>,
                ns: seq<IncomingMsg>, i: nat,
                entries: set<IncomingMsg>)
    requires l.Valid() && l.mote == m && i < |ns| == |cs| && l.nodes == ns[..i] + ns[i + 1..]
    requires forall j | 0 <= j < |ns| :: ns[j].AsCopy() == cs[j] && ns[j] in entries
    requires forall j | 0 <= j < |ns| :: ns[j].from < motes && ns[j].id in carried && carried[ns[j].id] == ns[j]
    ensures ListHolds(l, m, cs[..i] + cs[i + 1..], motes, carried) && Within(l, entries)
  {
    forall j | 0 <= j < |l.nodes|
      ensures l.nodes[j].AsCopy() == (cs[..i] + cs[i + 1..])[j] && l.nodes[j].from < motes && l.nodes[j] in entries
      ensures l.nodes[j].id in carried && carried[l.nodes[j].id] == l.nodes[j]
    {
      assert l.nodes[j] == ns[if j < i then j else j + 1];
    }
    assert l.Contents() == cs[..i] + cs[i + 1..];
  }

  ghost predicate Within(l: IncomingList, entries: set<IncomingMsg>)
    reads l
  {
    forall i | 0 <= i < |l.nodes| :: l.nodes[i] in entries
  }

  /** The incoming lists of all motes, and the entries that pending events carry. */
  class IncomingTable {
    const incoming: seq<IncomingList>
    var carried: map<nat, IncomingMsg>
    ghost var entries: set<IncomingMsg>
    /** The lists, as values. */
    ghost var contents: seq<seq<Copy>>

    ghost predicate Valid()
      reads this, incoming, entries
    {
      && |incoming| == |contents|
      && (forall m | 0 <= m < |incoming| :: Within(incoming[m], entries))
      && (forall m | 0 <= m < |incoming| :: ListHolds(incoming[m], m, contents[m], |incoming|, carried))
    }

    constructor (motes: nat)
      ensures Valid() && |incoming| == motes && fresh(incoming) && fresh(entries) && carried == map[]
      ensures |contents| == motes && forall m | 0 <= m < motes :: contents[m] == []
    {
      var lists: seq<IncomingList> := [];
      for m := 0 to motes
        invariant |lists| == m && forall k | 0 <= k < m :: fresh(lists[k])
        invariant forall k | 0 <= k < m :: lists[k].Valid() && lists[k].mote == k && lists[k].nodes == []
      {
        var l := new IncomingList(m);
        lists := lists + [l];
      }
      incoming, carried, entries := lists, map[], {};
      contents := seq(motes, _ => []);
    }

    /** Lists of different motes have nothing in common. */
    lemma Apart(m: nat)
      requires Valid() && m < |incoming|
      ensures forall k | 0 <= k < |incoming| && k != m :: ListHolds(incoming[k], k, contents[k], |incoming|, carried)
      ensures forall k | 0 <= k < |incoming| && k != m :: incoming[k] != incoming[m]
      ensures forall k, i | 0 <= k < |incoming| && k != m && 0 <= i < |incoming[k].nodes| ::
                incoming[k].nodes[i] !in incoming[m].nodes
      ensures ListHolds(incoming[m], m, contents[m], |incoming|, carried)
      ensures forall x | x in incoming[m].nodes :: x in entries
    {
      forall k | 0 <= k < |incoming| && k != m
        ensures ListHolds(incoming[k], k, contents[k], |incoming|, carried)
        ensures incoming[k] != incoming[m]
        ensures forall i | 0 <= i < |incoming[k].nodes| :: incoming[k].nodes[i] !in incoming[m].nodes
      {
        ListsApart(incoming[m], incoming[k], m, k);
      }
      assert Within(incoming[m], entries);
    }

    /** Is the list of mote m empty? */
    method IsEmpty(m: nat) returns (b: bool)
      requires Valid() && m < |incoming|
      ensures b <==> contents[m] == []
    {
      assert ListHolds(incoming[m], m, contents[m], |incoming|, carried);
      b := incoming[m].head == null;
    }

    /** Appends a new entry to the list of mote m; its event carries it. */
    method Add(m: nat, id: nat, entry: IncomingMsg)
      requires Valid() && m < |incoming| && entry !in entries
      requires entry.mote == m && entry.id == id && id !in carried && entry.from < |incoming|
      modifies this`carried, this`entries, this`contents, incoming[m], entries, entry
      ensures Valid() && contents == old(contents)[m := old(contents)[m] + [old(entry.AsCopy())]]
      ensures entries == old(entries) + {entry} && carried == old(carried)[id := entry]
    {
      hide ListHolds;
      ghost var cs, more, within := contents[m], carried[id := entry], entries + {entry};
      Apart(m);
      AddTo(incoming[m], m, cs, |incoming|, carried, id, entry, within);
      forall k | 0 <= k < |incoming| && k != m ensures ListHolds(incoming[k], k, contents[k], |incoming|, more) {
        ListHoldsMore(incoming[k], k, contents[k], |incoming|, carried, more);
      }
      carried, entries, contents := carried[id := entry], within, contents[m := cs + [old(entry.AsCopy())]];
    }

    /** Unlinks the entry that an event carries. */
    method Take(m: nat, id: nat) returns (entry: IncomingMsg)
      requires Valid() && m < |incoming| && Lists(contents[m], id)
      modifies this`contents, incoming[m], entries
      ensures Valid() && contents == old(contents)[m := Without(old(contents)[m], id)]
      ensures entry.AsCopy() == Find(old(contents)[m], id)
    {
      hide Without, Find, ListHolds, Lists;
      ghost var cs := contents[m];
      Apart(m);
      entry := Unlink(incoming[m], m, cs, |incoming|, carried, id, entries);
      contents := contents[m := Without(cs, id)];
    }

    /** The entry is the i-th of the list of mote m, or null stands for its end. */
    ghost predicate At(m: nat, i: nat, entry: IncomingMsg?)
      reads this, incoming, entries
      requires Valid() && m < |incoming|
    {
      if i < |contents[m]| then i < |incoming[m].nodes| && entry == incoming[m].nodes[i] else entry == null
    }

    method First(m: nat) returns (entry: IncomingMsg?)
      requires Valid() && m < |incoming|
      ensures At(m, 0, entry) && (entry == null <==> contents[m] == []) && (entry != null ==> entry in entries)
    {
      assert ListHolds(incoming[m], m, contents[m], |incoming|, carried);
      entry := incoming[m].head;
    }

    lemma AtNext(m: nat, i: nat, entry: IncomingMsg?)
      requires Valid() && m < |incoming| && i <= |contents[m]|
      requires if i < |contents[m]| then i < |incoming[m].nodes| && entry == incoming[m].nodes[i] else entry == null
      ensures At(m, i, entry)
    {
    }

    lemma AtNode(m: nat, i: nat, entry: IncomingMsg)
      requires Valid() && m < |incoming| && i < |contents[m]| && At(m, i, entry)
      ensures ListHolds(incoming[m], m, contents[m], |incoming|, carried)
      ensures i < |incoming[m].nodes| == |contents[m]| && incoming[m].nodes[i] == entry && entry in entries
      ensures entry.from == contents[m][i].from < |incoming|
      ensures entry.next == if i + 1 < |contents[m]| then incoming[m].nodes[i + 1] else null
      ensures entry.next != null ==> entry.next in entries
    {
      assert ListHolds(incoming[m], m, contents[m], |incoming|, carried);
      assert Within(incoming[m], entries);
    }

    /** Corrupts the i-th entry of the list of mote m, and gives the next. */
    method CorruptAt(m: nat, ghost i: nat, entry: IncomingMsg, junk: Packet) returns (from: nat, next: IncomingMsg?)
      requires Valid() && m < |incoming| && i < |contents[m]| && At(m, i, entry)
      modifies this`contents, entry`packet, entry`crc
      ensures Valid() && contents == old(contents)[m := old(contents)[m][i := Corrupt(old(contents)[m][i], junk)]]
      ensures At(m, i + 1, next) && (next == null <==> i + 1 == |contents[m]|) && (next != null ==> next in entries)
      ensures from == old(contents)[m][i].from < |incoming|
    {
      hide ListHolds, At;
      ghost var cs := contents[m];
      AtNode(m, i, entry);
      Apart(m);
      CorruptIn(incoming[m], m, cs, |incoming|, carried, i, entry, junk);
      from, next := entry.from, entry.next;
      contents := contents[m := cs[i := Corrupt(cs[i], junk)]];
      assert i + 1 < |cs| ==> next == incoming[m].nodes[i + 1];
      AtNext(m, i + 1, next);
    }
  }

  method CorruptIn(l: IncomingList, m: nat, ghost cs: seq<Copy>, ghost motes: nat, ghost carried: map<nat, IncomingMsg>,
                   ghost i: nat, entry: IncomingMsg, junk: Packet)
    requires ListHolds(l, m, cs, motes, carried) && i < |cs| && l.nodes[i] == entry
    modifies entry`packet, entry`crc
    ensures ListHolds(l, m, cs[i := Corrupt(cs[i], junk)], motes, carried)
  {
    l.CorruptEntry(entry, i, junk);
    assert l.Contents() == cs[i := Corrupt(cs[i], junk)];
  }

  method AddTo(l: IncomingList, m: nat, ghost cs: seq<Copy>, ghost motes: nat, ghost carried: map<nat, IncomingMsg>,
               id: nat, entry: IncomingMsg, ghost within: set<IncomingMsg>)
    requires ListHolds(l, m, cs, motes, carried)
    requires entry.mote == m && entry.id == id && id !in carried && entry.from < motes && entry !in l.nodes
             && entry in within && Within(l, within)
    modifies l, l.nodes, entry
    ensures Within(l, within)
    ensures ListHolds(l, m, cs + [old(entry.AsCopy())], motes, carried[id := entry])
  {
    l.Add(entry);
  }
}
